/**
 * The main window's non-GUI state (class `ImageSelector`, main.py:307-586):
 * the folders, the sorted image list, the capture-time cache and the manual
 * selection of at most two images, which merges the pair as soon as the
 * second one is chosen.
 *
 * Thumbnails, labels, message boxes and the counter text are left out; a
 * selection entry is the file name alone (the source pairs it with its
 * thumbnail label).
 */
module Selector {
  import opened Wrappers
  import opened Geometry
  import opened Lists
  import opened Scanning
  import opened Sorting
  import opened CaptureTime
  import opened Lifecycle

  /** How the preview dialog of `open_preview` was closed. */
  datatype PreviewAction = Accept | Deselect | Dismiss

  class ImageSelector {
    /** What the image library and the file system report per file name. */
    const info: string -> FileInfo
    /** `strptime` with the EXIF date format; None when it raises. */
    const parse: string -> Option<int>

    /** A source folder has been chosen (`self.folder` is not empty). */
    var folderChosen: bool
    var fs: Folders
    /** `image_paths`: the scanned names in capture-time order. */
    var images: seq<string>
    var selected: seq<string>
    /** `exif_cache`: capture time by file name. */
    var cache: map<string, int>
    /** The manual-mode direction radio buttons. */
    var direction: Direction
    /** Every file whose metadata was read, in order: the I/O the cache saves. */
    ghost var metadataReads: seq<string>

    ghost predicate Valid()
      reads this
    {
      && |selected| <= 2
      && forall f :: f in cache ==> cache[f] == Resolve(info(f), parse)
    }

    /** What `load_images` establishes: every scanned name is cached and the list is sorted by it. */
    ghost predicate Refreshed()
      reads this
    {
      folderChosen ==>
        && cache.Keys == (set k | 0 <= k < |Scanned(fs)| :: Scanned(fs)[k])
        && images == Sort(Scanned(fs), ByCaptureTime(cache))
    }

    constructor (info: string -> FileInfo, parse: string -> Option<int>)
      ensures Valid() && this.info == info && this.parse == parse
      ensures !folderChosen && images == [] && selected == [] && cache == map[] && direction == Horizontal
    {
      this.info := info;
      this.parse := parse;
      folderChosen := false;
      fs := Folders([], {}, map[]);
      images := [];
      selected := [];
      cache := map[];
      direction := Horizontal;
      metadataReads := [];
    }

    /** `choose_folder`: None when the folder picker was cancelled. */
    method ChooseFolder(choice: Option<Folders>)
      requires Valid()
      modifies this
      ensures Valid()
      ensures choice.None? ==> unchanged(this)
      ensures choice.Some? ==> folderChosen && fs == choice.value && selected == [] && Refreshed()
      ensures direction == old(direction)
    {
      if choice.None? {
        return;
      }
      folderChosen := true;
      fs := choice.value;
      LoadImages();
    }

    method SetDirection(d: Direction)
      modifies this`direction
      ensures direction == d
    {
      direction := d;
    }

    /**
     * `get_capture_time`: a cached name is answered from the cache without
     * reading the file; otherwise the EXIF fields are probed in order and
     * the answer, whatever its origin, is cached.
     */
    method GetCaptureTime(f: string) returns (t: int)
      requires Valid()
      modifies this`cache, this`metadataReads
      ensures Valid()
      ensures t == Resolve(info(f), parse)
      ensures f in old(cache) ==> cache == old(cache) && metadataReads == old(metadataReads)
      ensures f !in old(cache) ==> cache == old(cache)[f := t] && metadataReads == old(metadataReads) + [f]
    {
      if f in cache {
        return cache[f];
      }
      metadataReads := metadataReads + [f];
      var fi := info(f);
      if fi.image.Some? && fi.exif != map[] {
        var i := 0;
        while i < |ExifFields|
          invariant 0 <= i <= |ExifFields|
          invariant forall j :: 0 <= j < i ==> !Usable(fi.exif, parse, ExifFields[j])
          invariant cache == old(cache) && metadataReads == old(metadataReads) + [f]
        {
          var key := ExifFields[i];
          if key in fi.exif {
            var parsed := parse(fi.exif[key]);
            if parsed.Some? {
              ResolveSpec(fi, parse);
              t := parsed.value;
              cache := cache[f := t];
              return;
            }
          }
          i := i + 1;
        }
      }
      ResolveSpec(fi, parse);
      t := fi.mtime;
      cache := cache[f := t];
    }

    /** `load_images`: clear the selection and the cache, rescan, resolve every time, sort. */
    method LoadImages()
      requires Valid()
      modifies this
      ensures Valid() && selected == [] && Refreshed()
      ensures fs == old(fs) && folderChosen == old(folderChosen) && direction == old(direction)
      ensures !folderChosen ==> cache == map[] && images == old(images)
    {
      selected := [];
      cache := map[];
      if !folderChosen {
        return;
      }
      var files := Scanned(fs);
      CacheTimes(files);
      images := Sort(files, ByCaptureTime(cache));
    }

    /**
     * The key pass of `sort(key=self.get_capture_time)`: every name's time
     * is resolved once, in list order, and ends up in the cache.
     */
    method CacheTimes(files: seq<string>)
      requires Valid()
      modifies this`cache, this`metadataReads
      ensures Valid()
      ensures cache.Keys == old(cache).Keys + set k | 0 <= k < |files| :: files[k]
    {
      var i := 0;
      while i < |files|
        invariant 0 <= i <= |files|
        invariant Valid()
        invariant cache.Keys == old(cache).Keys + set k | 0 <= k < i :: files[k]
      {
        var _ := GetCaptureTime(files[i]);
        i := i + 1;
      }
    }

    /** `select_image`: a third choice first clears the two held; a second one merges at once. */
    method SelectImage(f: string, faults: Faults) returns (outcome: Option<Outcome>)
      requires Valid()
      modifies this
      ensures Valid()
      ensures |selected| <= 1
      ensures var held := if |old(selected)| == 2 then [] else old(selected);
        if |held| == 1 then
          && outcome.Some? && (fs, outcome.value) == Commit(old(fs), info, held[0], f, direction, faults)
          && selected == [] && Refreshed()
        else
          outcome == None && selected == [f] && fs == old(fs) && cache == old(cache) && images == old(images)
      ensures direction == old(direction) && folderChosen == old(folderChosen)
    {
      if |selected| == 2 {
        ClearSelection();
      }
      selected := selected + [f];
      outcome := None;
      if |selected| == 2 {
        var o := MergeSelected(faults);
        outcome := Some(o);
      }
    }

    /** `deselect_image`: drop every entry with that name. */
    method DeselectImage(f: string)
      requires Valid()
      modifies this`selected
      ensures Valid()
      ensures selected == Without(old(selected), f)
    {
      selected := Without(selected, f);
    }

    method ClearSelection()
      modifies this`selected
      ensures selected == []
    {
      selected := [];
    }

    /** `merge_selected`: commit the held pair in order, then clear and reload whatever happened. */
    method MergeSelected(faults: Faults) returns (outcome: Outcome)
      requires Valid() && |selected| == 2
      modifies this
      ensures Valid() && selected == [] && Refreshed()
      ensures (fs, outcome) == Commit(old(fs), info, old(selected)[0], old(selected)[1], direction, faults)
      ensures direction == old(direction) && folderChosen == old(folderChosen)
    {
      var r := Commit(fs, info, selected[0], selected[1], direction, faults);
      fs := r.0;
      outcome := r.1;
      ClearSelection();
      LoadImages();
    }

    /**
     * `open_preview`: a held image can only be deselected (accepting it
     * again keeps it); any other image is selected when accepted. So no
     * name is ever held twice.
     */
    method OpenPreview(f: string, action: PreviewAction, faults: Faults) returns (outcome: Option<Outcome>)
      requires Valid() && NoDup(selected)
      modifies this
      ensures Valid() && NoDup(selected) && |selected| <= 2
      ensures direction == old(direction) && folderChosen == old(folderChosen)
      ensures f in old(selected) ==>
        && outcome == None && fs == old(fs) && cache == old(cache) && images == old(images)
        && selected == (if action == Deselect then Without(old(selected), f) else old(selected))
      ensures f !in old(selected) && action != Accept ==>
        outcome == None && selected == old(selected) && fs == old(fs) && cache == old(cache) && images == old(images)
      // accepting an image that is not held is `select_image`
      ensures f !in old(selected) && action == Accept ==>
        var held := if |old(selected)| == 2 then [] else old(selected);
        if |held| == 1 then
          && outcome.Some? && (fs, outcome.value) == Commit(old(fs), info, held[0], f, direction, faults)
          && selected == [] && Refreshed()
        else
          outcome == None && selected == [f] && fs == old(fs) && cache == old(cache) && images == old(images)
    {
      outcome := None;
      if f in selected {
        if action == Deselect {
          DeselectImage(f);
          WithoutNoDup(old(selected), f);
        }
      } else if action == Accept {
        outcome := SelectImage(f, faults);
      }
    }
  }

  lemma WithoutNoDup(s: seq<string>, x: string)
    requires NoDup(s)
    ensures NoDup(Without(s, x))
  {
    if s != [] {
      NoDupTail(s);
      WithoutNoDup(s[1..], x);
      if s[0] != x {
        NoDupCons(s[0], Without(s[1..], x));
      }
    }
  }
}
