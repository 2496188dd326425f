/**
 * The eligible-file scan (main.py:455-460, repeated in
 * `BatchDialog.get_sorted_files` at main.py:177-183): the source listing,
 * kept in listing order, filtered by extension and by absence from the
 * processed and result listings.
 */
module Scanning {
  import opened FileNames
  import opened Lists

  /** The condition of the list comprehension. */
  predicate Eligible(f: string, processed: set<string>, result: set<string>)
  {
    IsImageName(f) && f !in processed && f !in result
  }

  function Scan(source: seq<string>, processed: set<string>, result: set<string>): (r: seq<string>)
    ensures |r| <= |source|
    ensures forall f :: f in r <==> f in source && Eligible(f, processed, result)
  {
    if source == [] then []
    else (if Eligible(source[0], processed, result) then [source[0]] else [])
         + Scan(source[1..], processed, result)
  }

  /** The scan keeps listing order: scanning two parts of a listing is scanning the whole. */
  lemma {:induction false} ScanConcat(a: seq<string>, b: seq<string>, processed: set<string>, result: set<string>)
    ensures Scan(a + b, processed, result) == Scan(a, processed, result) + Scan(b, processed, result)
  {
    if a == [] {
      assert a + b == b;
    } else {
      assert (a + b)[1..] == a[1..] + b;
      ScanConcat(a[1..], b, processed, result);
    }
  }

  /** Scanning the scan changes nothing: every name that passed passes again. */
  lemma {:induction false} ScanIdempotent(source: seq<string>, processed: set<string>, result: set<string>)
    ensures Scan(Scan(source, processed, result), processed, result) == Scan(source, processed, result)
  {
    if source != [] {
      var rest := Scan(source[1..], processed, result);
      ScanIdempotent(source[1..], processed, result);
      if Eligible(source[0], processed, result) {
        var r := [source[0]] + rest;
        assert r[1..] == rest;
      } else {
        assert Scan(source, processed, result) == rest;
      }
    }
  }

  /** A listing without duplicate names scans to a list without duplicates. */
  lemma {:induction false} ScanNoDup(source: seq<string>, processed: set<string>, result: set<string>)
    requires NoDup(source)
    ensures NoDup(Scan(source, processed, result))
  {
    if source != [] {
      NoDupTail(source);
      ScanNoDup(source[1..], processed, result);
      if Eligible(source[0], processed, result) {
        NoDupCons(source[0], Scan(source[1..], processed, result));
      }
    }
  }
}
