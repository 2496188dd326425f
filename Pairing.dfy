/**
 * Sequential pairing in `BatchDialog.generate_preview` (main.py:203-205):
 * `for i in range(0, len(files) - 1, 2): pairs.append((files[i], files[i+1]))`.
 */
module Pairing {
  import opened Lists

  /** Two files to merge, `first` left of (or above) `second`. */
  datatype Pair = Pair(first: string, second: string)

  /** Consecutive pairs of `files`; an odd last file is left out. */
  function Pairs(files: seq<string>): seq<Pair>
  {
    if |files| < 2 then [] else [Pair(files[0], files[1])] + Pairs(files[2..])
  }

  /** Exactly `n div 2` pairs, pair `i` being files `2i` and `2i+1`. */
  lemma {:induction false} PairsShape(files: seq<string>)
    ensures |Pairs(files)| == |files| / 2
    ensures forall i :: 0 <= i < |files| / 2 ==> Pairs(files)[i] == Pair(files[2 * i], files[2 * i + 1])
  {
    if |files| >= 2 {
      PairsShape(files[2..]);
      var r := Pairs(files);
      forall i | 0 <= i < |files| / 2 ensures r[i] == Pair(files[2 * i], files[2 * i + 1]) {
        if i > 0 {
          assert r[i] == Pairs(files[2..])[i - 1];
          assert files[2..][2 * (i - 1)] == files[2 * i];
        }
      }
    }
  }

  /** The files of `ps`, pair by pair. */
  function Flatten(ps: seq<Pair>): seq<string>
  {
    if ps == [] then [] else [ps[0].first, ps[0].second] + Flatten(ps[1..])
  }

  /** The pairs use the files in order, all but an odd last one. */
  lemma {:induction false} PairsCover(files: seq<string>)
    ensures Flatten(Pairs(files)) == files[..|files| - |files| % 2]
  {
    if |files| >= 2 {
      PairsCover(files[2..]);
      assert Pairs(files)[1..] == Pairs(files[2..]);
      var rest := files[2..];
      assert rest[..|rest| - |rest| % 2] == files[2..|files| - |files| % 2];
      assert files[..|files| - |files| % 2] == [files[0], files[1]] + files[2..|files| - |files| % 2];
    } else {
      assert files[..|files| - |files| % 2] == [];
    }
  }

  /** With distinct names, an odd last file is in no pair. */
  lemma OddLastUnpaired(files: seq<string>)
    requires |files| % 2 == 1 && NoDup(files)
    ensures files[|files| - 1] !in Flatten(Pairs(files))
  {
    PairsCover(files);
  }

  /** With distinct names, no file is in two pairs, nor twice in one. */
  lemma PairsDisjoint(files: seq<string>)
    requires NoDup(files)
    ensures NoDup(Flatten(Pairs(files)))
  {
    PairsCover(files);
  }

  /** The pairing loop. */
  method MakePairs(files: seq<string>) returns (pairs: seq<Pair>)
    ensures |pairs| == |files| / 2
    ensures forall k :: 0 <= k < |pairs| ==> pairs[k] == Pair(files[2 * k], files[2 * k + 1])
    ensures pairs == Pairs(files)
  {
    pairs := [];
    var i := 0;
    while i < |files| - 1
      invariant 0 <= i <= |files| && i % 2 == 0
      invariant |pairs| == i / 2
      invariant forall k :: 0 <= k < |pairs| ==> pairs[k] == Pair(files[2 * k], files[2 * k + 1])
    {
      pairs := pairs + [Pair(files[i], files[i + 1])];
      i := i + 2;
    }
    PairsShape(files);
  }
}
