/**
 * What `get_capture_time` (main.py:402-434) resolves for a file: the first
 * EXIF date field, in a fixed priority order, whose value parses; otherwise
 * the file's modification time. The caching and the probing loop belong to
 * `ImageSelector.GetCaptureTime` in Selector.dfy; this module states the
 * value they must produce.
 *
 * Times are integers (seconds on one clock). The date format
 * "%Y:%m:%d %H:%M:%S" and `strptime` are abstracted into a partial function
 * `parse`, and the EXIF tag-id to tag-name mapping into a map from field
 * names to their text values.
 */
module CaptureTime {
  import opened Wrappers
  import opened Geometry

  /** The probing order of main.py:419. */
  const ExifFields: seq<string> := ["DateTimeOriginal", "CreateDate", "DateTimeDigitized"]

  /**
   * What the image library and the file system report for one file name:
   * its decoded size (None when `Image.open` fails), its EXIF fields by
   * name (empty when there are none) and its modification time.
   */
  datatype FileInfo = FileInfo(image: Option<Dims>, exif: map<string, string>, mtime: int)

  /** The field is present and its value parses as a date-time. */
  predicate Usable(exif: map<string, string>, parse: string -> Option<int>, field: string)
  {
    field in exif && parse(exif[field]).Some?
  }

  /** The parsed value of the first usable field of `fields`, if any. */
  function FirstParsed(fields: seq<string>, exif: map<string, string>, parse: string -> Option<int>): (r: Option<int>)
    ensures r.None? <==> forall i :: 0 <= i < |fields| ==> !Usable(exif, parse, fields[i])
    ensures r.Some? ==>
      exists i :: (0 <= i < |fields| && Usable(exif, parse, fields[i]) && r == parse(exif[fields[i]]) &&
                   forall j :: 0 <= j < i ==> !Usable(exif, parse, fields[j]))
  {
    if fields == [] then None
    else if Usable(exif, parse, fields[0]) then parse(exif[fields[0]])
    else
      var r := FirstParsed(fields[1..], exif, parse);
      assert forall i :: 0 < i < |fields| ==> fields[i] == fields[1..][i - 1];
      r
  }

  /** The capture time of a file: EXIF when a field is usable, modification time otherwise. */
  function Resolve(info: FileInfo, parse: string -> Option<int>): int
  {
    if info.image.None? then info.mtime
    else match FirstParsed(ExifFields, info.exif, parse)
      case Some(t) => t
      case None => info.mtime
  }

  /**
   * The modification time is used exactly when the file cannot be opened or
   * no field is usable; otherwise the first usable field in priority order
   * gives the time.
   */
  lemma ResolveSpec(info: FileInfo, parse: string -> Option<int>)
    ensures info.image.None? ==> Resolve(info, parse) == info.mtime
    ensures (forall i :: 0 <= i < |ExifFields| ==> !Usable(info.exif, parse, ExifFields[i])) ==>
      Resolve(info, parse) == info.mtime
    ensures forall k :: (0 <= k < |ExifFields| && info.image.Some? && Usable(info.exif, parse, ExifFields[k]) &&
                         (forall j :: 0 <= j < k ==> !Usable(info.exif, parse, ExifFields[j])))
                        ==> Resolve(info, parse) == parse(info.exif[ExifFields[k]]).value
  {
    var r := FirstParsed(ExifFields, info.exif, parse);
    forall k | 0 <= k < |ExifFields| && info.image.Some? && Usable(info.exif, parse, ExifFields[k]) &&
               (forall j :: 0 <= j < k ==> !Usable(info.exif, parse, ExifFields[j]))
      ensures Resolve(info, parse) == parse(info.exif[ExifFields[k]]).value
    {
      var i :| 0 <= i < |ExifFields| && Usable(info.exif, parse, ExifFields[i]) &&
        r == parse(info.exif[ExifFields[i]]) && forall j :: 0 <= j < i ==> !Usable(info.exif, parse, ExifFields[j]);
      assert i == k;
    }
  }

  /** `DateTimeOriginal` wins whenever it parses, whatever the other fields hold. */
  lemma OriginalTimeWins(info: FileInfo, parse: string -> Option<int>)
    requires info.image.Some? && Usable(info.exif, parse, "DateTimeOriginal")
    ensures Resolve(info, parse) == parse(info.exif["DateTimeOriginal"]).value
  {
    ResolveSpec(info, parse);
    assert ExifFields[0] == "DateTimeOriginal";
  }

  /** A field that is present but does not parse is skipped, not fatal. */
  lemma UnparsableFieldSkipped(info: FileInfo, parse: string -> Option<int>)
    requires info.image.Some? && !Usable(info.exif, parse, "DateTimeOriginal")
    requires Usable(info.exif, parse, "CreateDate")
    ensures Resolve(info, parse) == parse(info.exif["CreateDate"]).value
  {
    ResolveSpec(info, parse);
    assert ExifFields[0] == "DateTimeOriginal" && ExifFields[1] == "CreateDate";
  }

  /**
   * PIL names EXIF tags by the EXIF standard, where tag 0x9004 is
   * `DateTimeDigitized`; no tag is named `CreateDate`, so in practice the
   * second probe never matches and an unparsable `DateTimeOriginal` falls
   * through to `DateTimeDigitized`.
   */
  lemma DigitizedTimeFallback(info: FileInfo, parse: string -> Option<int>)
    requires info.image.Some? && !Usable(info.exif, parse, "DateTimeOriginal")
    requires "CreateDate" !in info.exif
    requires Usable(info.exif, parse, "DateTimeDigitized")
    ensures Resolve(info, parse) == parse(info.exif["DateTimeDigitized"]).value
  {
    ResolveSpec(info, parse);
    assert ExifFields[0] == "DateTimeOriginal" && ExifFields[1] == "CreateDate" && ExifFields[2] == "DateTimeDigitized";
    assert !Usable(info.exif, parse, ExifFields[1]);
  }
}
