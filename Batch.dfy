/**
 * Batch mode (class `BatchDialog`, main.py:121-301): scan and sort the
 * source folder (`get_sorted_files`), pair the result (`generate_preview`)
 * and commit every pair in order, counting the pairs whose three steps all
 * succeeded (`start_batch`). A failing pair is reported and the loop moves
 * on to the next one.
 */
module Batch {
  import opened Wrappers
  import opened Geometry
  import opened FileNames
  import opened Lists
  import opened Scanning
  import opened Sorting
  import opened Pairing
  import opened CaptureTime
  import opened Lifecycle
  import opened Selector

  /** The folders and the outcome of each pair after committing `pairs` in order. */
  function RunBatch(fs: Folders, pairs: seq<Pair>, info: string -> FileInfo, dir: Direction, faults: nat -> Faults)
    : (r: (Folders, seq<Outcome>))
    ensures |r.1| == |pairs|
  {
    if pairs == [] then (fs, [])
    else
      var n := |pairs| - 1;
      var before := RunBatch(fs, pairs[..n], info, dir, faults);
      var step := Commit(before.0, info, pairs[n].first, pairs[n].second, dir, faults(n));
      (step.0, before.1 + [step.1])
  }

  /** How many outcomes are `Committed`: the `count` of `start_batch`. */
  function CountCommitted(outcomes: seq<Outcome>): (r: nat)
    ensures r <= |outcomes|
    ensures r == |outcomes| <==> forall i :: 0 <= i < |outcomes| ==> outcomes[i] == Committed
  {
    if outcomes == [] then 0
    else
      var n := |outcomes| - 1;
      var r := CountCommitted(outcomes[..n]) + (if outcomes[n] == Committed then 1 else 0);
      assert forall i :: 0 <= i < n ==> outcomes[..n][i] == outcomes[i];
      r
  }

  /** Committing one more pair of the list extends the run by that pair's commit. */
  lemma RunBatchStep(fs: Folders, pairs: seq<Pair>, info: string -> FileInfo, dir: Direction, faults: nat -> Faults, i: nat)
    requires i < |pairs|
    ensures var before := RunBatch(fs, pairs[..i], info, dir, faults);
      var step := Commit(before.0, info, pairs[i].first, pairs[i].second, dir, faults(i));
      RunBatch(fs, pairs[..i + 1], info, dir, faults) == (step.0, before.1 + [step.1])
  {
    assert pairs[..i + 1][..i] == pairs[..i];
  }

  lemma CountCommittedAppend(outcomes: seq<Outcome>, o: Outcome)
    ensures CountCommitted(outcomes + [o]) == CountCommitted(outcomes) + (if o == Committed then 1 else 0)
  {
    assert (outcomes + [o])[..|outcomes|] == outcomes;
  }

  lemma FlattenAppend(ps: seq<Pair>, q: Pair)
    ensures Flatten(ps + [q]) == Flatten(ps) + [q.first, q.second]
  {
    if ps != [] {
      assert (ps + [q])[1..] == ps[1..] + [q];
      FlattenAppend(ps[1..], q);
    } else {
      assert [q][1..] == [];
    }
  }

  /** Names no pair mentions are where they were when the batch started. */
  lemma {:induction false} RunBatchFrame(fs: Folders, pairs: seq<Pair>, info: string -> FileInfo, dir: Direction,
                                          faults: nat -> Faults, g: string)
    requires g !in Flatten(pairs)
    ensures g in RunBatch(fs, pairs, info, dir, faults).0.source <==> g in fs.source
  {
    if pairs != [] {
      var n := |pairs| - 1;
      assert pairs == pairs[..n] + [pairs[n]];
      FlattenAppend(pairs[..n], pairs[n]);
      RunBatchFrame(fs, pairs[..n], info, dir, faults, g);
      var before := RunBatch(fs, pairs[..n], info, dir, faults);
      CommitFrame(before.0, info, pairs[n].first, pairs[n].second, dir, faults(n), g);
    }
  }

  /** The last pair of a duplicate-free work list shares no name with the pairs before it. */
  lemma LastPairFresh(init: seq<Pair>, q: Pair)
    requires NoDup(Flatten(init + [q]))
    ensures NoDup(Flatten(init)) && q.first != q.second
    ensures q.first !in Flatten(init) && q.second !in Flatten(init)
  {
    FlattenAppend(init, q);
    var front := Flatten(init);
    var flat := Flatten(init + [q]);
    assert flat[|flat| - 2] == q.first && flat[|flat| - 1] == q.second;
    forall i, j | 0 <= i < j < |front| ensures front[i] != front[j] {
      assert front[i] == flat[i] && front[j] == flat[j];
    }
    forall k | 0 <= k < |front| ensures front[k] != q.first && front[k] != q.second {
      assert front[k] == flat[k];
    }
  }

  /**
   * With distinct names all present when the batch starts, pair `i` is
   * committed exactly when both its images decode and scale to positive
   * sizes and none of its own steps fails: earlier failures do not affect it.
   */
  lemma {:induction false} BatchPairsIndependent(fs: Folders, pairs: seq<Pair>, info: string -> FileInfo, dir: Direction,
                                                  faults: nat -> Faults)
    requires NoDup(Flatten(pairs))
    requires forall f :: f in Flatten(pairs) ==> f in fs.source
    ensures var outcomes := RunBatch(fs, pairs, info, dir, faults).1;
      forall i :: 0 <= i < |pairs| ==>
        (outcomes[i] == Committed <==>
          Mergeable(info, pairs[i].first, pairs[i].second, dir) && faults(i) == NoFaults)
  {
    forall i | 0 <= i < |pairs|
      ensures RunBatch(fs, pairs, info, dir, faults).1[i] == Committed <==>
        Mergeable(info, pairs[i].first, pairs[i].second, dir) && faults(i) == NoFaults
    {
      OutcomeOfPair(fs, pairs, info, dir, faults, i);
    }
  }

  /** `BatchPairsIndependent` for one pair. */
  lemma {:induction false} OutcomeOfPair(fs: Folders, pairs: seq<Pair>, info: string -> FileInfo, dir: Direction,
                                          faults: nat -> Faults, i: nat)
    requires NoDup(Flatten(pairs))
    requires forall f :: f in Flatten(pairs) ==> f in fs.source
    requires i < |pairs|
    ensures RunBatch(fs, pairs, info, dir, faults).1[i] == Committed <==>
      Mergeable(info, pairs[i].first, pairs[i].second, dir) && faults(i) == NoFaults
  {
    var n := |pairs| - 1;
    var init, q := pairs[..n], pairs[n];
    assert pairs == init + [q];
    LastPairFresh(init, q);
    FlattenAppend(init, q);
    if i < n {
      RunBatchStep(fs, pairs, info, dir, faults, n);
      assert pairs[..n + 1] == pairs;
      assert forall f :: f in Flatten(init) ==> f in Flatten(pairs);
      OutcomeOfPair(fs, init, info, dir, faults, i);
      assert pairs[i] == init[i];
    } else {
      OutcomeOfLastPair(fs, init, q, info, dir, faults);
    }
  }

  /** The last pair's outcome depends only on that pair, its images and its faults. */
  lemma OutcomeOfLastPair(fs: Folders, init: seq<Pair>, q: Pair, info: string -> FileInfo, dir: Direction,
                          faults: nat -> Faults)
    requires q.first !in Flatten(init) && q.second !in Flatten(init) && q.first != q.second
    requires q.first in fs.source && q.second in fs.source
    ensures RunBatch(fs, init + [q], info, dir, faults).1[|init|] == Committed <==>
      Mergeable(info, q.first, q.second, dir) && faults(|init|) == NoFaults
  {
    var pairs := init + [q];
    var n := |init|;
    RunBatchFrame(fs, init, info, dir, faults, q.first);
    RunBatchFrame(fs, init, info, dir, faults, q.second);
    var before := RunBatch(fs, init, info, dir, faults);
    CommitPresentPair(before.0, info, q.first, q.second, dir, faults(n));
    RunBatchStep(fs, pairs, info, dir, faults, n);
    assert pairs[..n + 1] == pairs && pairs[..n] == init && pairs[n] == q;
  }

  /** A pair of two distinct names both in the source folder commits exactly when it merges and no step fails. */
  lemma CommitPresentPair(fs: Folders, info: string -> FileInfo, a: string, b: string, dir: Direction, faults: Faults)
    requires a in fs.source && b in fs.source && a != b
    ensures Commit(fs, info, a, b, dir, faults).1 == Committed <==> Mergeable(info, a, b, dir) && faults == NoFaults
  {
  }

  /**
   * The work list of batch mode, `Pairs(Sort(Scan(...)))`, meets the
   * conditions of `BatchPairsIndependent` whenever the source listing has
   * no duplicate names, as a directory listing never does.
   */
  lemma PlannedPairsAreDisjoint(fs: Folders, m: SortMode)
    requires NoDup(fs.source)
    ensures var pairs := Pairs(Sort(Scanned(fs), m));
      NoDup(Flatten(pairs)) && forall f :: f in Flatten(pairs) ==> f in fs.source
  {
    var scanned := Scanned(fs);
    var sorted := Sort(scanned, m);
    ScanNoDup(fs.source, fs.processed, fs.result.Keys);
    SortNoDup(scanned, m);
    PairsDisjoint(sorted);
    PairsCover(sorted);
    forall f | f in Flatten(Pairs(sorted)) ensures f in fs.source {
      assert f in sorted;
      assert f in multiset(scanned);
    }
  }

  /**
   * Two decodable files `x` and `y`: `x` has no EXIF data and is dated by
   * its modification time, `y` carries an earlier `DateTimeOriginal`. By
   * capture time `y` sorts first and the single pair is `(y, x)`.
   */
  lemma ExifTimeSortsFirst(parse: string -> Option<int>, x: string, y: string, a: FileInfo, b: FileInfo, s: string, t0: int)
    requires x != y
    requires a.image.Some? && a.exif == map[]
    requires b.image.Some? && b.exif == map["DateTimeOriginal" := s] && parse(s) == Some(t0) && t0 < a.mtime
    ensures var times := map[x := Resolve(a, parse), y := Resolve(b, parse)];
      var sorted := Sort([x, y], ByCaptureTime(times));
      sorted == [y, x] && Pairs(sorted) == [Pair(y, x)]
  {
    ResolveSpec(a, parse);
    OriginalTimeWins(b, parse);
    var m := ByCaptureTime(map[x := Resolve(a, parse), y := Resolve(b, parse)]);
    assert [x, y][1..] == [y];
    assert [y][1..] == [];
    assert Sort([y], m) == [y];
    assert !Le(m, x, y);
    assert Sort([x, y], m) == [y] + Insert(x, [], m);
    assert [y, x][2..] == [];
  }

  /** The pair `(b.jpg, a.jpg)` is saved as `b_a.jpg`. */
  lemma OutputNameExample()
    ensures OutputName("b.jpg", "a.jpg") == "b_a.jpg"
  {
    StemOfShortName("b", ".jpg");
    StemOfShortName("a", ".jpg");
    assert "b" + ".jpg" == "b.jpg" && "a" + ".jpg" == "a.jpg";
  }

  class BatchDialog {
    const parent: ImageSelector
    /** "by capture time" (the default) rather than "by file name". */
    var sortByTime: bool
    var direction: Direction
    var pairsToProcess: seq<Pair>

    constructor (parent: ImageSelector)
      ensures this.parent == parent && sortByTime && direction == Horizontal && pairsToProcess == []
    {
      this.parent := parent;
      sortByTime := true;
      direction := Horizontal;
      pairsToProcess := [];
    }

    /** The sort and direction radio buttons. */
    method Configure(byTime: bool, d: Direction)
      modifies this`sortByTime, this`direction
      ensures sortByTime == byTime && direction == d
    {
      sortByTime := byTime;
      direction := d;
    }

    /** The file order batch mode pairs, given the parent's current cache. */
    ghost function Planned(): seq<string>
      reads this, parent
    {
      if sortByTime then Sort(Scanned(parent.fs), ByCaptureTime(parent.cache))
      else Sort(Scanned(parent.fs), ByName)
    }

    /** `get_sorted_files`: scan, then sort by the parent's capture times or by name. */
    method GetSortedFiles() returns (files: seq<string>)
      requires parent.Valid()
      modifies parent`cache, parent`metadataReads
      ensures parent.Valid() && files == Planned()
      ensures sortByTime ==> forall k :: 0 <= k < |files| ==> files[k] in parent.cache
      ensures !sortByTime ==> parent.cache == old(parent.cache)
      ensures old(parent.cache).Keys <= parent.cache.Keys
    {
      var scanned := Scanned(parent.fs);
      if sortByTime {
        parent.CacheTimes(scanned);
        files := Sort(scanned, ByCaptureTime(parent.cache));
        forall k | 0 <= k < |files| ensures files[k] in parent.cache {
          assert files[k] in multiset(scanned);
        }
      } else {
        files := Sort(scanned, ByName);
      }
    }

    /**
     * `generate_preview`'s pairing: with fewer than two files it returns
     * before resetting the list, so an earlier plan is kept.
     */
    method GeneratePreview()
      requires parent.Valid()
      modifies this`pairsToProcess, parent`cache, parent`metadataReads
      ensures parent.Valid()
      ensures |Planned()| < 2 ==> pairsToProcess == old(pairsToProcess)
      ensures |Planned()| >= 2 ==> pairsToProcess == Pairs(Planned())
      ensures sortByTime ==> forall k :: 0 <= k < |Planned()| ==> Planned()[k] in parent.cache
      ensures !sortByTime ==> parent.cache == old(parent.cache)
      ensures old(parent.cache).Keys <= parent.cache.Keys
    {
      var files := GetSortedFiles();
      if |files| < 2 {
        return;
      }
      pairsToProcess := MakePairs(files);
    }

    /** The loop of `start_batch`: commit every planned pair in order and count the successes. */
    method CommitAll(faults: nat -> Faults) returns (count: nat)
      modifies parent`fs
      ensures var run := RunBatch(old(parent.fs), pairsToProcess, parent.info, direction, faults);
        parent.fs == run.0 && count == CountCommitted(run.1)
    {
      count := 0;
      var i := 0;
      ghost var outcomes: seq<Outcome> := [];
      while i < |pairsToProcess|
        invariant 0 <= i <= |pairsToProcess|
        invariant parent.fs == RunBatch(old(parent.fs), pairsToProcess[..i], parent.info, direction, faults).0
        invariant outcomes == RunBatch(old(parent.fs), pairsToProcess[..i], parent.info, direction, faults).1
        invariant count == CountCommitted(outcomes)
      {
        var p := pairsToProcess[i];
        var r := Commit(parent.fs, parent.info, p.first, p.second, direction, faults(i));
        RunBatchStep(old(parent.fs), pairsToProcess, parent.info, direction, faults, i);
        CountCommittedAppend(outcomes, r.1);
        parent.fs := r.0;
        if r.1 == Committed {
          count := count + 1;
        }
        outcomes := outcomes + [r.1];
        i := i + 1;
      }
      assert pairsToProcess[..i] == pairsToProcess;
    }

    /** `start_batch`: nothing without a plan; otherwise commit the plan, then reload the main window. */
    method StartBatch(faults: nat -> Faults) returns (count: nat, started: bool)
      requires parent.Valid()
      modifies parent
      ensures parent.Valid()
      ensures started <==> pairsToProcess != []
      ensures !started ==> count == 0 && unchanged(parent)
      ensures started ==>
        var run := RunBatch(old(parent.fs), pairsToProcess, parent.info, direction, faults);
        && parent.fs == run.0 && count == CountCommitted(run.1)
        && parent.selected == [] && parent.Refreshed()
      ensures parent.direction == old(parent.direction) && parent.folderChosen == old(parent.folderChosen)
    {
      if pairsToProcess == [] {
        return 0, false;
      }
      count := CommitAll(faults);
      parent.LoadImages();
      started := true;
    }
  }
}
