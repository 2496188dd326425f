/**
 * The two orders the scan's result is sorted in (main.py:185-188 and
 * main.py:463): by capture time (`files.sort(key=get_capture_time)`) or by
 * name (`files.sort()`). Python's sort is stable; the model is a stable
 * insertion sort whose result is specified by the three properties every
 * stable sort has: it is a permutation, it is ordered, and elements with
 * equal keys keep their relative order.
 *
 * `list.sort(key=...)` computes each key once, in list order, before
 * sorting; the capture-time key is therefore a lookup in the map of
 * already resolved times (the cache after those calls).
 */
module Sorting {
  import opened Lists

  datatype SortMode = ByCaptureTime(times: map<string, int>) | ByName

  /** The sort key of `f` under capture-time order. */
  function TimeOf(times: map<string, int>, f: string): int
  {
    if f in times then times[f] else 0
  }

  /** Python's `<=` on `str`: lexicographic by code point, a proper prefix first. */
  predicate LexLe(a: string, b: string)
  {
    if a == [] then true
    else if b == [] then false
    else if a[0] != b[0] then a[0] < b[0]
    else LexLe(a[1..], b[1..])
  }

  lemma {:induction false} LexLeTotal(a: string, b: string)
    ensures LexLe(a, b) || LexLe(b, a)
  {
    if a != [] && b != [] && a[0] == b[0] {
      LexLeTotal(a[1..], b[1..]);
    }
  }

  lemma {:induction false} LexLeTransitive(a: string, b: string, c: string)
    requires LexLe(a, b) && LexLe(b, c)
    ensures LexLe(a, c)
  {
    if a != [] && b != [] && c != [] && a[0] == b[0] == c[0] {
      LexLeTransitive(a[1..], b[1..], c[1..]);
    }
  }

  lemma {:induction false} LexLeAntisymmetric(a: string, b: string)
    requires LexLe(a, b) && LexLe(b, a)
    ensures a == b
  {
    if a != [] && b != [] {
      LexLeAntisymmetric(a[1..], b[1..]);
      assert a == [a[0]] + a[1..] && b == [b[0]] + b[1..];
    }
  }

  /** `a` may precede `b` in the order `m`. */
  predicate Le(m: SortMode, a: string, b: string)
  {
    match m
    case ByCaptureTime(times) => TimeOf(times, a) <= TimeOf(times, b)
    case ByName => LexLe(a, b)
  }

  lemma LeTotal(m: SortMode, a: string, b: string)
    ensures Le(m, a, b) || Le(m, b, a)
  {
    if m == ByName { LexLeTotal(a, b); }
  }

  lemma LeTransitive(m: SortMode, a: string, b: string, c: string)
    requires Le(m, a, b) && Le(m, b, c)
    ensures Le(m, a, c)
  {
    if m == ByName { LexLeTransitive(a, b, c); }
  }

  /** Two names with equal keys: a tie the sort must not reorder. */
  predicate Tied(m: SortMode, a: string, b: string)
  {
    Le(m, a, b) && Le(m, b, a)
  }

  /** Under name order only equal names tie. */
  lemma TiedByNameIsEqual(a: string, b: string)
    ensures Tied(ByName, a, b) <==> a == b
  {
    if Tied(ByName, a, b) { LexLeAntisymmetric(a, b); } else { LexLeTotal(a, b); }
  }

  ghost predicate Sorted(s: seq<string>, m: SortMode)
  {
    forall i, j :: 0 <= i < j < |s| ==> Le(m, s[i], s[j])
  }

  /** Puts `x` before the first element it may precede, hence before every element it ties with. */
  function Insert(x: string, s: seq<string>, m: SortMode): (r: seq<string>)
    ensures multiset(r) == multiset(s) + multiset{x}
  {
    if s == [] then [x]
    else if Le(m, x, s[0]) then [x] + s
    else
      assert s == [s[0]] + s[1..];
      [s[0]] + Insert(x, s[1..], m)
  }

  /** The stable sort of `s` in order `m`. */
  function Sort(s: seq<string>, m: SortMode): (r: seq<string>)
    ensures multiset(r) == multiset(s)
    ensures |r| == |s|
  {
    if s == [] then []
    else
      assert s == [s[0]] + s[1..];
      Insert(s[0], Sort(s[1..], m), m)
  }

  lemma {:induction false} InsertSorted(x: string, s: seq<string>, m: SortMode)
    requires Sorted(s, m)
    ensures Sorted(Insert(x, s, m), m)
  {
    if s == [] {
    } else if Le(m, x, s[0]) {
      forall j | 0 <= j < |s| ensures Le(m, x, s[j]) {
        if j > 0 { LeTransitive(m, x, s[0], s[j]); }
      }
      SortedCons(x, s, m);
    } else {
      var rest := s[1..];
      SortedTail(s, m);
      InsertSorted(x, rest, m);
      LeTotal(m, x, s[0]);
      forall j | 0 <= j < |rest| ensures Le(m, s[0], rest[j]) {
        assert rest[j] == s[j + 1];
      }
      InsertLowerBound(x, rest, m, s[0]);
      SortedCons(s[0], Insert(x, rest, m), m);
    }
  }

  lemma SortedTail(s: seq<string>, m: SortMode)
    requires |s| > 0 && Sorted(s, m)
    ensures Sorted(s[1..], m)
  {
    forall i, j | 0 <= i < j < |s| - 1 ensures Le(m, s[1..][i], s[1..][j]) {
      assert s[1..][i] == s[i + 1] && s[1..][j] == s[j + 1];
    }
  }

  /** A sorted list stays sorted under a head that may precede all of it. */
  lemma SortedCons(h: string, t: seq<string>, m: SortMode)
    requires Sorted(t, m)
    requires forall j :: 0 <= j < |t| ==> Le(m, h, t[j])
    ensures Sorted([h] + t, m)
  {
    var r := [h] + t;
    forall i, j | 0 <= i < j < |r| ensures Le(m, r[i], r[j]) {
      assert r[j] == t[j - 1];
      if i > 0 { assert r[i] == t[i - 1]; }
    }
  }

  /** Every element of `Insert(x, s, m)` is `x` or an element of `s`. */
  lemma InsertMembers(x: string, s: seq<string>, m: SortMode, y: string)
    requires y in Insert(x, s, m)
    ensures y == x || y in s
  {
    assert y in multiset(Insert(x, s, m));
  }

  /** A bound below `x` and below all of `s` is below all of `Insert(x, s, m)`. */
  lemma InsertLowerBound(x: string, s: seq<string>, m: SortMode, b: string)
    requires Le(m, b, x)
    requires forall j :: 0 <= j < |s| ==> Le(m, b, s[j])
    ensures forall j :: 0 <= j < |Insert(x, s, m)| ==> Le(m, b, Insert(x, s, m)[j])
  {
    var r := Insert(x, s, m);
    forall j | 0 <= j < |r| ensures Le(m, b, r[j]) {
      InsertMembers(x, s, m, r[j]);
      if r[j] != x {
        var k :| 0 <= k < |s| && s[k] == r[j];
      }
    }
  }

  /** The result is ordered by `m`. */
  lemma {:induction false} SortSorted(s: seq<string>, m: SortMode)
    ensures Sorted(Sort(s, m), m)
  {
    if s != [] {
      SortSorted(s[1..], m);
      InsertSorted(s[0], Sort(s[1..], m), m);
    }
  }

  /** The names of `s` tied with `c`, in their order in `s`. */
  function Ties(s: seq<string>, m: SortMode, c: string): (r: seq<string>)
    ensures forall y :: y in r <==> y in s && Tied(m, y, c)
  {
    if s == [] then []
    else (if Tied(m, s[0], c) then [s[0]] else []) + Ties(s[1..], m, c)
  }

  lemma {:induction false} InsertTies(x: string, s: seq<string>, m: SortMode, c: string)
    ensures Ties(Insert(x, s, m), m, c) == (if Tied(m, x, c) then [x] else []) + Ties(s, m, c)
  {
    if s == [] {
      assert [x] == [x] + s;
      TiesCons(x, s, m, c);
    } else if Le(m, x, s[0]) {
      TiesCons(x, s, m, c);
    } else {
      var rest := s[1..];
      assert s == [s[0]] + rest;
      InsertTies(x, rest, m, c);
      TiesCons(s[0], Insert(x, rest, m), m, c);
      TiesCons(s[0], rest, m, c);
      TiedOrdered(m, x, s[0], c);
    }
  }

  lemma TiesCons(y: string, s: seq<string>, m: SortMode, c: string)
    ensures Ties([y] + s, m, c) == (if Tied(m, y, c) then [y] else []) + Ties(s, m, c)
  {
    assert ([y] + s)[1..] == s;
  }

  /** Two names tied with the same name may precede each other. */
  lemma TiedOrdered(m: SortMode, x: string, y: string, c: string)
    ensures Tied(m, x, c) && Tied(m, y, c) ==> Le(m, x, y)
  {
    if Tied(m, x, c) && Tied(m, y, c) {
      LeTransitive(m, x, c, y);
    }
  }

  /** Stability: names with equal keys come out in the order they went in. */
  lemma {:induction false} SortStable(s: seq<string>, m: SortMode, c: string)
    ensures Ties(Sort(s, m), m, c) == Ties(s, m, c)
  {
    if s != [] {
      SortStable(s[1..], m, c);
      InsertTies(s[0], Sort(s[1..], m), m, c);
    }
  }

  /** Sorting a list without duplicate names gives a list without duplicates. */
  lemma {:induction false} SortNoDup(s: seq<string>, m: SortMode)
    requires NoDup(s)
    ensures NoDup(Sort(s, m))
  {
    if s != [] {
      NoDupTail(s);
      SortNoDup(s[1..], m);
      assert s[0] !in multiset(Sort(s[1..], m));
      InsertNoDup(s[0], Sort(s[1..], m), m);
    }
  }

  lemma {:induction false} InsertNoDup(x: string, s: seq<string>, m: SortMode)
    requires NoDup(s) && x !in s
    ensures NoDup(Insert(x, s, m))
  {
    if s == [] {
    } else if Le(m, x, s[0]) {
      NoDupCons(x, s);
    } else {
      NoDupTail(s);
      InsertNoDup(x, s[1..], m);
      var t := Insert(x, s[1..], m);
      assert s[0] !in multiset(t);
      NoDupCons(s[0], t);
    }
  }
}
