/**
 * The commit sequence shared by `start_batch` (main.py:284-297) and
 * `merge_selected` (main.py:560-574): merge the pair and save the result
 * as `stem1_stem2.jpg` in the result folder, then move the first source
 * file, then the second, into the processed folder. The three steps are
 * not atomic: a failure stops the sequence and leaves the earlier steps
 * done.
 *
 * The three folders are a value: the source listing (in listing order),
 * the names in the processed folder, and the result folder's files with
 * the canvas size each was written with. What the model cannot see (disk
 * errors, permissions) arrives as `Faults`, one flag per step.
 */
module Lifecycle {
  import opened Wrappers
  import opened Geometry
  import opened FileNames
  import opened CaptureTime
  import opened Lists
  import opened Scanning

  datatype Folders = Folders(source: seq<string>, processed: set<string>, result: map<string, Extent>)

  /** Failures of the environment: the save, the first move, the second move. */
  datatype Faults = Faults(saveFails: bool, firstMoveFails: bool, secondMoveFails: bool)

  const NoFaults := Faults(false, false, false)

  /** Which step of the sequence stopped it, if any. */
  datatype Outcome = Committed | MergeFailed | FirstMoveFailed | SecondMoveFailed

  /** The names the scan offers from these folders. */
  function Scanned(fs: Folders): seq<string>
  {
    Scan(fs.source, fs.processed, fs.result.Keys)
  }

  /** The image library can open the file. */
  predicate Decodable(info: string -> FileInfo, f: string)
  {
    info(f).image.Some?
  }

  /** `shutil.move(folder/f, processed/f)`. */
  function MoveToProcessed(fs: Folders, f: string): (r: Folders)
    requires f in fs.source
    ensures f !in r.source && f in r.processed
    ensures forall g :: g != f ==> (g in r.source <==> g in fs.source) && (g in r.processed <==> g in fs.processed)
    ensures r.result == fs.result
  {
    fs.(source := Without(fs.source, f), processed := fs.processed + {f})
  }

  /**
   * `merge_images` completes: both files decode and neither scaled image
   * has a zero side (PIL's `resize` raises on one).
   */
  predicate Mergeable(info: string -> FileInfo, a: string, b: string, dir: Direction)
  {
    Decodable(info, a) && Decodable(info, b) && Resizable(Merge(info(a).image.value, info(b).image.value, dir))
  }

  /** The size of the composite `merge_images` writes for `a` and `b`. */
  function Composite(info: string -> FileInfo, a: string, b: string, dir: Direction): Extent
    requires Decodable(info, a) && Decodable(info, b)
  {
    Merge(info(a).image.value, info(b).image.value, dir).canvas
  }

  /** One pass of the `try` block: merge and save, move `a`, move `b`. */
  function Commit(fs: Folders, info: string -> FileInfo, a: string, b: string, dir: Direction, faults: Faults)
    : (r: (Folders, Outcome))
    ensures r.1 == Committed <==>
      a in fs.source && b in fs.source && a != b && Mergeable(info, a, b, dir) && faults == NoFaults
    // a merge that fails touches nothing
    ensures r.1 == MergeFailed <==>
      !(a in fs.source && b in fs.source && Mergeable(info, a, b, dir)) || faults.saveFails
    ensures r.1 == MergeFailed ==> r.0 == fs
    // once the save succeeded, the composite is there, overwriting any file of that name
    ensures r.1 != MergeFailed ==>
      Mergeable(info, a, b, dir) &&
      r.0.result == fs.result[OutputName(a, b) := Composite(info, a, b, dir)]
    ensures r.1 == FirstMoveFailed ==> r.0.source == fs.source && r.0.processed == fs.processed
    ensures r.1 == SecondMoveFailed ==>
      r.0.source == Without(fs.source, a) && r.0.processed == fs.processed + {a}
    ensures r.1 == Committed ==>
      r.0.source == Without(Without(fs.source, a), b) && r.0.processed == fs.processed + {a, b}
  {
    if !(a in fs.source && b in fs.source && Mergeable(info, a, b, dir)) || faults.saveFails then
      (fs, MergeFailed)
    else
      var saved := fs.(result := fs.result[OutputName(a, b) := Composite(info, a, b, dir)]);
      if faults.firstMoveFails then (saved, FirstMoveFailed)
      else
        var moved := MoveToProcessed(saved, a);
        if b !in moved.source || faults.secondMoveFails then (moved, SecondMoveFailed)
        else (MoveToProcessed(moved, b), Committed)
  }

  /** Names other than the pair's stay where they were, whatever the outcome. */
  lemma CommitFrame(fs: Folders, info: string -> FileInfo, a: string, b: string, dir: Direction, faults: Faults, g: string)
    requires g != a && g != b
    ensures var r := Commit(fs, info, a, b, dir, faults).0;
      (g in r.source <==> g in fs.source) && (g in r.processed <==> g in fs.processed)
  {
  }

  /**
   * After a committed pair the next scan offers what it offered before
   * except the two sources and any source file named like the output.
   */
  lemma CommitRetiresPair(fs: Folders, info: string -> FileInfo, a: string, b: string, dir: Direction, faults: Faults)
    requires Commit(fs, info, a, b, dir, faults).1 == Committed
    ensures var r := Commit(fs, info, a, b, dir, faults).0;
      forall f :: f in Scanned(r) <==> f in Scanned(fs) && f != a && f != b && f != OutputName(a, b)
  {
  }

  /** Once the composite is saved its name is never offered by a scan, even if a source file has it. */
  lemma SavedOutputNeverScanned(fs: Folders, info: string -> FileInfo, a: string, b: string, dir: Direction, faults: Faults)
    requires Commit(fs, info, a, b, dir, faults).1 != MergeFailed
    ensures OutputName(a, b) !in Scanned(Commit(fs, info, a, b, dir, faults).0)
  {
  }
}
