/**
 The order of hardware threads, src/topology.c: a radix sort over nine keys with a
 stable counting sort for each, and the lists of threads that are read off it.
 */
module Topology {

  /** The C type int, of 32 bits. */
  type cint = x: int | -0x8000_0000 <= x < 0x8000_0000

  const INT_MIN: cint := -0x8000_0000
  const INT_MAX: cint := 0x7fff_ffff
  const ENODEV := 19

  datatype Hwthread = Hwthread(
    os: cint, smt: cint, core: cint, die: cint, socket: cint, numa: cint, l1: cint, l2: cint, llc: cint, usable: cint)

  const LEVELS := 9

  /** Nine sort keys, the most significant one first. */
  type Keys = k: seq<cint> | |k| == LEVELS witness [0, 0, 0, 0, 0, 0, 0, 0, 0]

  datatype Sortable = Sortable(data: Hwthread, key: Keys)

  /** By place in the system, or with the SMT id before everything else. */
  function KeysOf(t: Hwthread, closed: bool): Keys {
    if !closed then [t.socket, t.die, t.numa, t.llc, t.l2, t.l1, t.core, t.smt, t.os]
    else [t.smt, t.socket, t.die, t.numa, t.llc, t.l2, t.l1, t.core, t.os]
  }

  // ----- one level: a stable sort by one key

  /** The entries with this value of the key, in order. */
  function With(s: seq<Sortable>, lvl: nat, v: int): seq<Sortable>
    requires lvl < LEVELS
  {
    if s == [] then []
    else With(s[..|s| - 1], lvl, v) + if s[|s| - 1].key[lvl] == v then [s[|s| - 1]] else []
  }

  /** The entries with values from lo to hi: first those with the least value, and so on. */
  function ByValue(s: seq<Sortable>, lvl: nat, lo: int, hi: int): seq<Sortable>
    requires lvl < LEVELS
    decreases hi + 1 - lo
  {
    if hi < lo then [] else ByValue(s, lvl, lo, hi - 1) + With(s, lvl, hi)
  }

  lemma WithNext(s: seq<Sortable>, lvl: nat, v: int, i: nat)
    requires lvl < LEVELS && i < |s|
    ensures With(s[..i + 1], lvl, v) == With(s[..i], lvl, v) + if s[i].key[lvl] == v then [s[i]] else []
  {
    assert s[..i + 1][..i] == s[..i];
  }

  lemma {:induction false} WithPrefix(s: seq<Sortable>, lvl: nat, v: int, i: nat)
    requires lvl < LEVELS && i <= |s|
    ensures With(s[..i], lvl, v) <= With(s, lvl, v)
    decreases |s| - i
  {
    if i == |s| {
      assert s[..i] == s;
    } else {
      WithPrefix(s, lvl, v, i + 1);
      WithNext(s, lvl, v, i);
    }
  }

  /** Where the entry i goes among those with its value. */
  lemma WithAt(s: seq<Sortable>, lvl: nat, i: nat)
    requires lvl < LEVELS && i < |s|
    ensures var f := With(s, lvl, s[i].key[lvl]);
            var m := |With(s[..i], lvl, s[i].key[lvl])|;
            m < |f| && f[m] == s[i]
  {
    WithNext(s, lvl, s[i].key[lvl], i);
    WithPrefix(s, lvl, s[i].key[lvl], i + 1);
  }

  /** How many entries have a value from lo up to, but not including, v. */
  function Before(s: seq<Sortable>, lvl: nat, lo: int, v: int): nat
    requires lvl < LEVELS
  {
    |ByValue(s, lvl, lo, v - 1)|
  }

  lemma {:induction false} BeforeGrows(s: seq<Sortable>, lvl: nat, lo: int, v: int, w: int)
    requires lvl < LEVELS && lo <= v < w
    ensures Before(s, lvl, lo, v) + |With(s, lvl, v)| <= Before(s, lvl, lo, w)
    decreases w - v
  {
    if v + 1 < w {
      BeforeGrows(s, lvl, lo, v, w - 1);
    }
  }

  lemma {:induction false} BeforeAll(s: seq<Sortable>, lvl: nat, lo: int, hi: int)
    requires lvl < LEVELS && forall i :: 0 <= i < |s| ==> lo <= s[i].key[lvl] <= hi
    ensures |ByValue(s, lvl, lo, hi)| == |s|
    decreases |s|
  {
    if s == [] {
      NothingByValue(lvl, lo, hi);
    } else {
      var n := |s| - 1;
      BeforeAll(s[..n], lvl, lo, hi);
      OneMore(s[..n], s[n], lvl, lo, hi);
      assert s[..n] + [s[n]] == s;
    }
  }

  lemma {:induction false} NothingByValue(lvl: nat, lo: int, hi: int)
    requires lvl < LEVELS
    ensures ByValue([], lvl, lo, hi) == []
    decreases hi + 1 - lo
  {
    if lo <= hi {
      NothingByValue(lvl, lo, hi - 1);
    }
  }

  lemma {:induction false} OneMore(s: seq<Sortable>, x: Sortable, lvl: nat, lo: int, hi: int)
    requires lvl < LEVELS
    ensures |ByValue(s + [x], lvl, lo, hi)| == |ByValue(s, lvl, lo, hi)| + if lo <= x.key[lvl] <= hi then 1 else 0
    decreases hi + 1 - lo
  {
    if lo <= hi {
      OneMore(s, x, lvl, lo, hi - 1);
      assert (s + [x])[..|s|] == s;
    }
  }

  // ----- the loops of one level

  /** Every value of the key lies between lo and hi. */
  ghost predicate InRange(s: seq<Sortable>, lvl: nat, lo: int, hi: int)
    requires lvl < LEVELS
  {
    forall i :: 0 <= i < |s| ==> lo <= s[i].key[lvl] <= hi
  }

  /** The number of counters, from the least to the greatest value, is an int. */
  ghost predicate Fits(s: seq<Sortable>, lvl: nat)
    requires lvl < LEVELS
  {
    forall i, j :: 0 <= i < |s| && 0 <= j < |s| ==> s[i].key[lvl] - s[j].key[lvl] + 1 <= INT_MAX
  }

  method Range(a: array<Sortable>, lvl: nat) returns (minVal: cint, maxVal: cint)
    requires lvl < LEVELS && a.Length > 0
    ensures InRange(a[..], lvl, minVal, maxVal) && minVal <= maxVal
    ensures Fits(a[..], lvl) <==> maxVal - minVal + 1 <= INT_MAX
  {
    maxVal, minVal := INT_MIN, INT_MAX;
    ghost var least, greatest := 0, 0;
    for i := 0 to a.Length
      invariant forall j :: 0 <= j < i ==> minVal <= a[j].key[lvl] <= maxVal
      invariant i == 0 ==> minVal == INT_MAX && maxVal == INT_MIN
      invariant i > 0 ==> least < i && greatest < i && a[least].key[lvl] == minVal && a[greatest].key[lvl] == maxVal
    {
      var val := a[i].key[lvl];
      if i == 0 || val < minVal {
        least := i;
      }
      if i == 0 || val > maxVal {
        greatest := i;
      }
      if val < minVal {
        minVal := val;
      }
      if val > maxVal {
        maxVal := val;
      }
    }
    assert a[..][greatest].key[lvl] == maxVal && a[..][least].key[lvl] == minVal;
  }

  lemma WithNextAll(s: seq<Sortable>, lvl: nat, i: nat)
    requires lvl < LEVELS && i < |s|
    ensures forall v :: |With(s[..i + 1], lvl, v)| == |With(s[..i], lvl, v)| + if s[i].key[lvl] == v then 1 else 0
  {
    forall v
      ensures |With(s[..i + 1], lvl, v)| == |With(s[..i], lvl, v)| + if s[i].key[lvl] == v then 1 else 0
    {
      WithNext(s, lvl, v, i);
    }
  }

  /** How many of the first i entries have each value. */
  ghost predicate Counts(counts: seq<int>, s: seq<Sortable>, lvl: nat, lo: int, i: nat)
    requires lvl < LEVELS && i <= |s|
  {
    forall c :: 0 <= c < |counts| ==> counts[c] == |With(s[..i], lvl, lo + c)|
  }

  lemma CountOne(counts: seq<int>, s: seq<Sortable>, lvl: nat, lo: int, i: nat)
    requires lvl < LEVELS && i < |s| && 0 <= s[i].key[lvl] - lo < |counts| && Counts(counts, s, lvl, lo, i)
    ensures var c := s[i].key[lvl] - lo; Counts(counts[c := counts[c] + 1], s, lvl, lo, i + 1)
  {
    WithNextAll(s, lvl, i);
  }

  method CountValues(a: array<Sortable>, lvl: nat, minVal: int, maxVal: int) returns (count: array<int>)
    requires lvl < LEVELS && InRange(a[..], lvl, minVal, maxVal) && minVal <= maxVal
    ensures fresh(count) && count.Length == maxVal - minVal + 1 && Counts(count[..], a[..], lvl, minVal, a.Length)
  {
    ghost var s := a[..];
    count := new int[maxVal - minVal + 1](_ => 0);
    for i := 0 to a.Length
      invariant Counts(count[..], s, lvl, minVal, i)
    {
      CountOne(count[..], s, lvl, minVal, i);
      ghost var was := count[..];
      var c := a[i].key[lvl] - minVal;
      count[c] := count[c] + 1;
      assert count[..] == was[c := was[c] + 1];
    }
  }

  /** Where the part for each value ends, when the entries from i on have been taken out of it. */
  ghost predicate PartEnds(counts: seq<int>, s: seq<Sortable>, lvl: nat, lo: int, i: nat)
    requires lvl < LEVELS && i <= |s|
  {
    forall c :: 0 <= c < |counts| ==> counts[c] == Before(s, lvl, lo, lo + c) + |With(s[..i], lvl, lo + c)|
  }

  lemma TakeOne(counts: seq<int>, s: seq<Sortable>, lvl: nat, lo: int, i: nat)
    requires lvl < LEVELS && i < |s| && 0 <= s[i].key[lvl] - lo < |counts| && PartEnds(counts, s, lvl, lo, i + 1)
    ensures var c := s[i].key[lvl] - lo;
      && counts[c] - 1 == Before(s, lvl, lo, lo + c) + |With(s[..i], lvl, lo + c)|
      && PartEnds(counts[c := counts[c] - 1], s, lvl, lo, i)
  {
    WithNextAll(s, lvl, i);
  }

  method Accumulate(count: array<int>, ghost s: seq<Sortable>, lvl: nat, minVal: int)
    requires lvl < LEVELS && count.Length > 0 && Counts(count[..], s, lvl, minVal, |s|)
    modifies count
    ensures PartEnds(count[..], s, lvl, minVal, |s|)
  {
    assert s[..|s|] == s;
    ghost var counts := count[..];
    for i := 1 to count.Length
      invariant forall c :: 0 <= c < i ==> count[c] == Before(s, lvl, minVal, minVal + c) + |With(s, lvl, minVal + c)|
      invariant forall c :: i <= c < count.Length ==> count[c] == counts[c]
    {
      assert counts[i] == |With(s[..|s|], lvl, minVal + i)|;
      assert count[i - 1] == Before(s, lvl, minVal, minVal + i);
      count[i] := count[i] + count[i - 1];
    }
  }

  /** The entries of s from i on are where they belong in `out`. */
  ghost predicate Placed(s: seq<Sortable>, out: seq<Sortable>, lvl: nat, lo: int, hi: int, i: nat)
    requires lvl < LEVELS && i <= |s| == |out| && InRange(s, lvl, lo, hi)
  {
    forall v, m :: lo <= v <= hi && |With(s[..i], lvl, v)| <= m < |With(s, lvl, v)| ==>
      PlacedAt(s, out, lvl, lo, v, m)
  }

  ghost predicate PlacedAt(s: seq<Sortable>, out: seq<Sortable>, lvl: nat, lo: int, v: int, m: nat)
    requires lvl < LEVELS && m < |With(s, lvl, v)|
  {
    var p := Before(s, lvl, lo, v) + m;
    p < |out| && out[p] == With(s, lvl, v)[m]
  }

  /** Different entries have different places. */
  lemma PlacesDiffer(s: seq<Sortable>, lvl: nat, lo: int, v: int, m: nat, w: int, k: nat)
    requires lvl < LEVELS && lo <= v && lo <= w && m < |With(s, lvl, v)| && k < |With(s, lvl, w)|
    requires Before(s, lvl, lo, v) + m == Before(s, lvl, lo, w) + k
    ensures v == w && m == k
  {
    if v < w {
      BeforeGrows(s, lvl, lo, v, w);
    } else if w < v {
      BeforeGrows(s, lvl, lo, w, v);
    }
  }

  lemma SameBound(s: seq<Sortable>, lvl: nat, lo: int, hi: int)
    requires lvl < LEVELS
    ensures Before(s, lvl, lo, hi + 1) == |ByValue(s, lvl, lo, hi)|
  {
  }

  lemma PlaceInside(s: seq<Sortable>, lvl: nat, lo: int, hi: int, v: int, m: nat)
    requires lvl < LEVELS && InRange(s, lvl, lo, hi) && lo <= v <= hi && m < |With(s, lvl, v)|
    ensures Before(s, lvl, lo, v) + m < |s|
  {
    var n, f, all := Before(s, lvl, lo, v), |With(s, lvl, v)|, Before(s, lvl, lo, hi + 1);
    assert n + f <= all by {
      BeforeGrows(s, lvl, lo, v, hi + 1);
    }
    assert all == |s| by {
      BeforeAll(s, lvl, lo, hi);
      SameBound(s, lvl, lo, hi);
    }
  }

  /** One more entry, the one at i, is put in its place. */
  lemma PlaceOne(s: seq<Sortable>, out: seq<Sortable>, lvl: nat, lo: int, hi: int, i: nat)
    requires lvl < LEVELS && i < |s| == |out| && InRange(s, lvl, lo, hi) && Placed(s, out, lvl, lo, hi, i + 1)
    ensures var v := s[i].key[lvl];
            var p := Before(s, lvl, lo, v) + |With(s[..i], lvl, v)|;
            p < |out| && Placed(s, out[p := s[i]], lvl, lo, hi, i)
  {
    var v := s[i].key[lvl];
    var m := |With(s[..i], lvl, v)|;
    WithAt(s, lvl, i);
    PlaceInside(s, lvl, lo, hi, v, m);
    var p := Before(s, lvl, lo, v) + m;
    var out' := out[p := s[i]];
    forall w, k | lo <= w <= hi && |With(s[..i], lvl, w)| <= k < |With(s, lvl, w)|
      ensures PlacedAt(s, out', lvl, lo, w, k)
    {
      WithNext(s, lvl, w, i);
      if w != v || k != m {
        assert PlacedAt(s, out, lvl, lo, w, k);
        if Before(s, lvl, lo, w) + k == p {
          PlacesDiffer(s, lvl, lo, v, m, w, k);
        }
      }
    }
  }

  /** When all entries are placed, the array is sorted by the key. */
  lemma {:induction false} AllPlaced(s: seq<Sortable>, out: seq<Sortable>, lvl: nat, lo: int, hi: int, v: int)
    requires lvl < LEVELS && |s| == |out| && InRange(s, lvl, lo, hi) && Placed(s, out, lvl, lo, hi, 0)
    requires lo - 1 <= v <= hi
    ensures |ByValue(s, lvl, lo, v)| <= |out| && out[..|ByValue(s, lvl, lo, v)|] == ByValue(s, lvl, lo, v)
    decreases v - lo + 1
  {
    if v >= lo {
      AllPlaced(s, out, lvl, lo, hi, v - 1);
      var n, f := Before(s, lvl, lo, v), With(s, lvl, v);
      BeforeAll(s, lvl, lo, hi);
      BeforeGrows(s, lvl, lo, v, hi + 1);
      forall m | 0 <= m < |f|
        ensures out[n + m] == f[m]
      {
        assert s[..0] == [];
        assert PlacedAt(s, out, lvl, lo, v, m);
      }
      assert out[..n + |f|] == out[..n] + f;
    }
  }

  lemma AllSorted(s: seq<Sortable>, out: seq<Sortable>, lvl: nat, lo: int, hi: int)
    requires lvl < LEVELS && |s| == |out| && InRange(s, lvl, lo, hi) && Placed(s, out, lvl, lo, hi, 0) && lo <= hi
    ensures out == ByValue(s, lvl, lo, hi)
  {
    AllPlaced(s, out, lvl, lo, hi, hi);
    BeforeAll(s, lvl, lo, hi);
    assert out[..|out|] == out;
  }

  /** Puts the entry i at the end of what is left of the part for its value. */
  method DistributeOne(
    a: array<Sortable>, out: array<Sortable>, count: array<int>, lvl: nat, minVal: int, ghost maxVal: int, i: nat)
    requires lvl < LEVELS && a != out && i < a.Length == out.Length && InRange(a[..], lvl, minVal, maxVal)
    requires minVal <= maxVal && count.Length == maxVal - minVal + 1
    requires PartEnds(count[..], a[..], lvl, minVal, i + 1) && Placed(a[..], out[..], lvl, minVal, maxVal, i + 1)
    modifies out, count
    ensures PartEnds(count[..], a[..], lvl, minVal, i) && Placed(a[..], out[..], lvl, minVal, maxVal, i)
  {
    ghost var s, was, counts := a[..], out[..], count[..];
    PlaceOne(s, was, lvl, minVal, maxVal, i);
    TakeOne(counts, s, lvl, minVal, i);
    assert a[i] == s[i];
    var c := a[i].key[lvl] - minVal;
    count[c] := count[c] - 1;
    out[count[c]] := a[i];
    assert count[..] == counts[c := counts[c] - 1];
    assert out[..] == was[counts[c] - 1 := s[i]];
    assert a[..] == s;
  }

  method Distribute(
    a: array<Sortable>, out: array<Sortable>, count: array<int>, lvl: nat, minVal: int, ghost maxVal: int)
    requires lvl < LEVELS && a != out && a.Length == out.Length && InRange(a[..], lvl, minVal, maxVal)
    requires minVal <= maxVal && count.Length == maxVal - minVal + 1
    requires PartEnds(count[..], a[..], lvl, minVal, a.Length)
    modifies out, count
    ensures out[..] == ByValue(a[..], lvl, minVal, maxVal)
  {
    ghost var s := a[..];
    assert s[..a.Length] == s;
    for i := a.Length downto 0
      invariant a[..] == s && PartEnds(count[..], s, lvl, minVal, i)
      invariant Placed(s, out[..], lvl, minVal, maxVal, i)
    {
      DistributeOne(a, out, count, lvl, minVal, maxVal, i);
      assert a[..] == s;
    }
    AllSorted(s, out[..], lvl, minVal, maxVal);
  }

  /**
   One level of the radix sort, from one buffer to the other. `overflow` tells
   that the number of counters is no int, so that what the source does is not
   defined; the model then leaves off.
   */
  method SortLevel(a: array<Sortable>, out: array<Sortable>, lvl: nat)
    returns (overflow: bool, minVal: int, maxVal: int)
    requires lvl < LEVELS && a != out && a.Length == out.Length > 0
    modifies out
    ensures overflow <==> !Fits(a[..], lvl)
    ensures InRange(a[..], lvl, minVal, maxVal)
    ensures !overflow ==> out[..] == ByValue(a[..], lvl, minVal, maxVal)
  {
    minVal, maxVal := Range(a, lvl);
    overflow := maxVal - minVal + 1 > INT_MAX;
    if overflow {
      return;
    }
    var count := CountValues(a, lvl, minVal, maxVal);
    Accumulate(count, a[..], lvl, minVal);
    Distribute(a, out, count, lvl, minVal, maxVal);
  }

  // ----- all levels

  /** x comes before y by the keys from lvl on. */
  predicate Precedes(x: Keys, y: Keys, lvl: nat)
    decreases LEVELS - lvl
  {
    lvl < LEVELS && (x[lvl] < y[lvl] || (x[lvl] == y[lvl] && Precedes(x, y, lvl + 1)))
  }

  /** No entry comes before one that stands to its left. */
  ghost predicate SortedFrom(s: seq<Sortable>, lvl: nat) {
    forall i, j :: 0 <= i < j < |s| ==> !Precedes(s[j].key, s[i].key, lvl)
  }

  lemma {:induction false} WithSorted(s: seq<Sortable>, lvl: nat, v: int)
    requires lvl < LEVELS && SortedFrom(s, lvl + 1)
    ensures SortedFrom(With(s, lvl, v), lvl)
    ensures forall x :: x in With(s, lvl, v) ==> x in s && x.key[lvl] == v
  {
    if s != [] {
      var n := |s| - 1;
      WithSorted(s[..n], lvl, v);
      var f := With(s[..n], lvl, v);
      forall i | 0 <= i < |f| && s[n].key[lvl] == v
        ensures !Precedes(s[n].key, f[i].key, lvl)
      {
        assert f[i] in s[..n];
        var k :| 0 <= k < n && s[..n][k] == f[i];
        assert s[k] == f[i];
      }
    }
  }

  /** A stable sort by one key, of what is sorted by the keys after it. */
  lemma {:induction false} ByValueSorted(s: seq<Sortable>, lvl: nat, lo: int, hi: int)
    requires lvl < LEVELS && SortedFrom(s, lvl + 1)
    ensures SortedFrom(ByValue(s, lvl, lo, hi), lvl)
    ensures forall x :: x in ByValue(s, lvl, lo, hi) ==> x in s && lo <= x.key[lvl] <= hi
    decreases hi + 1 - lo
  {
    if lo <= hi {
      ByValueSorted(s, lvl, lo, hi - 1);
      WithSorted(s, lvl, hi);
      var a, b := ByValue(s, lvl, lo, hi - 1), With(s, lvl, hi);
      forall i, j | 0 <= i < |a| && 0 <= j < |b|
        ensures !Precedes(b[j].key, a[i].key, lvl)
      {
        assert a[i] in a && b[j] in b;
      }
    }
  }

  /** The entries with all nine keys equal to k, in order: what a stable sort does not change. */
  function Like(s: seq<Sortable>, k: Keys): seq<Sortable> {
    if s == [] then [] else Like(s[..|s| - 1], k) + if s[|s| - 1].key == k then [s[|s| - 1]] else []
  }

  lemma {:induction false} LikeSum(s: seq<Sortable>, t: seq<Sortable>, k: Keys)
    ensures Like(s + t, k) == Like(s, k) + Like(t, k)
  {
    if t == [] {
      assert s + t == s;
    } else {
      assert (s + t)[..|s + t| - 1] == s + t[..|t| - 1];
      LikeSum(s, t[..|t| - 1], k);
    }
  }

  lemma {:induction false} LikeWith(s: seq<Sortable>, lvl: nat, v: int, k: Keys)
    requires lvl < LEVELS
    ensures Like(With(s, lvl, v), k) == if k[lvl] == v then Like(s, k) else []
  {
    if s != [] {
      var n := |s| - 1;
      LikeWith(s[..n], lvl, v, k);
      LikeSum(With(s[..n], lvl, v), if s[n].key[lvl] == v then [s[n]] else [], k);
      assert [s[n]][..0] == [];
      assert Like([s[n]], k) == if s[n].key == k then [s[n]] else [];
      assert Like([], k) == [];
    }
  }

  lemma {:induction false} LikeByValue(s: seq<Sortable>, lvl: nat, lo: int, hi: int, k: Keys)
    requires lvl < LEVELS
    ensures Like(ByValue(s, lvl, lo, hi), k) == if lo <= k[lvl] <= hi then Like(s, k) else []
    decreases hi + 1 - lo
  {
    if lo <= hi {
      LikeByValue(s, lvl, lo, hi - 1, k);
      LikeSum(ByValue(s, lvl, lo, hi - 1), With(s, lvl, hi), k);
      LikeWith(s, lvl, hi, k);
    }
  }

  lemma {:induction false} LikeAbsent(s: seq<Sortable>, lvl: nat, lo: int, hi: int, k: Keys)
    requires lvl < LEVELS && InRange(s, lvl, lo, hi) && !(lo <= k[lvl] <= hi)
    ensures Like(s, k) == []
  {
    if s != [] {
      LikeAbsent(s[..|s| - 1], lvl, lo, hi, k);
    }
  }

  /** The two lists have the same entries, those with equal keys in the same order. */
  ghost predicate SameEntries(s: seq<Sortable>, t: seq<Sortable>) {
    |s| == |t| && forall k: Keys :: Like(s, k) == Like(t, k)
  }

  lemma LevelKeepsEntries(s: seq<Sortable>, lvl: nat, lo: int, hi: int)
    requires lvl < LEVELS && InRange(s, lvl, lo, hi)
    ensures SameEntries(s, ByValue(s, lvl, lo, hi))
  {
    BeforeAll(s, lvl, lo, hi);
    forall k: Keys
      ensures Like(s, k) == Like(ByValue(s, lvl, lo, hi), k)
    {
      LikeByValue(s, lvl, lo, hi, k);
      if !(lo <= k[lvl] <= hi) {
        LikeAbsent(s, lvl, lo, hi, k);
      }
    }
  }

  /** The values of every key are close enough to one another. */
  ghost predicate AllFit(s: seq<Sortable>) {
    forall lvl :: 0 <= lvl < LEVELS ==> Fits(s, lvl)
  }

  lemma SameFits(s: seq<Sortable>, t: seq<Sortable>, lvl: nat)
    requires lvl < LEVELS && SameEntries(s, t)
    ensures Fits(s, lvl) <==> Fits(t, lvl)
  {
    EntriesPermuted(s, t);
    if Fits(t, lvl) {
      PermutedFits(s, t, lvl);
    }
    if Fits(s, lvl) {
      PermutedFits(t, s, lvl);
    }
  }

  lemma PermutedFits(s: seq<Sortable>, t: seq<Sortable>, lvl: nat)
    requires lvl < LEVELS && multiset(s) == multiset(t) && Fits(t, lvl)
    ensures Fits(s, lvl)
  {
    forall i, j | 0 <= i < |s| && 0 <= j < |s|
      ensures s[i].key[lvl] - s[j].key[lvl] + 1 <= INT_MAX
    {
      var x := Position(s, t, i);
      var y := Position(s, t, j);
      assert t[x].key[lvl] - t[y].key[lvl] + 1 <= INT_MAX;
    }
  }

  lemma Position(s: seq<Sortable>, t: seq<Sortable>, i: nat) returns (x: nat)
    requires multiset(s) == multiset(t) && i < |s|
    ensures x < |t| && t[x] == s[i]
  {
    assert s[i] in multiset(s);
    assert s[i] in t;
    x :| x < |t| && t[x] == s[i];
  }

  /** The least significant key first, with the buffers changing places after each level. */
  method RadixSort(buffA: array<Sortable>, buffB: array<Sortable>) returns (overflow: bool, result: array<Sortable>)
    requires buffA != buffB && buffA.Length == buffB.Length > 0
    modifies buffA, buffB
    ensures overflow <==> !AllFit(old(buffA[..]))
    ensures result == buffA || result == buffB
    ensures !overflow ==> SortedFrom(result[..], 0) && SameEntries(old(buffA[..]), result[..])
  {
    ghost var s := buffA[..];
    var from, to := buffA, buffB;
    for lvl := LEVELS downto 0
      invariant {from, to} == {buffA, buffB} && from != to
      invariant SortedFrom(from[..], lvl) && SameEntries(s, from[..])
      invariant forall l :: lvl <= l < LEVELS ==> Fits(s, l)
    {
      ghost var was := from[..];
      var lo, hi;
      overflow, lo, hi := SortLevel(from, to, lvl);
      SameFits(s, was, lvl);
      if overflow {
        return overflow, from;
      }
      ByValueSorted(was, lvl, lo, hi);
      LevelKeepsEntries(was, lvl, lo, hi);
      from, to := to, from;
    }
    overflow, result := false, from;
  }

  // ----- the list of hardware threads, sorted

  function Sortables(ts: seq<Hwthread>, closed: bool): (r: seq<Sortable>)
    ensures |r| == |ts|
  {
    seq(|ts|, i requires 0 <= i < |ts| => Sortable(ts[i], KeysOf(ts[i], closed)))
  }

  function Threads(s: seq<Sortable>): (r: seq<Hwthread>)
    ensures |r| == |s|
  {
    seq(|s|, i requires 0 <= i < |s| => s[i].data)
  }

  lemma {:induction false} LikeCounts(s: seq<Sortable>, x: Sortable)
    ensures multiset(Like(s, x.key))[x] == multiset(s)[x]
  {
    if s != [] {
      var a, y := s[..|s| - 1], s[|s| - 1];
      LikeCounts(a, x);
      CountSnoc(a, y, x);
      assert s == a + [y];
      if y.key == x.key {
        CountSnoc(Like(a, x.key), y, x);
      } else {
        assert Like(s, x.key) == Like(a, x.key);
      }
    }
  }

  lemma CountSnoc<T>(a: seq<T>, y: T, x: T)
    ensures multiset(a + [y])[x] == multiset(a)[x] + if y == x then 1 else 0
  {
  }

  /** A list with the same entries is a permutation. */
  lemma EntriesPermuted(s: seq<Sortable>, t: seq<Sortable>)
    requires SameEntries(s, t)
    ensures multiset(s) == multiset(t)
  {
    forall x: Sortable
      ensures multiset(s)[x] == multiset(t)[x]
    {
      LikeCounts(s, x);
      LikeCounts(t, x);
    }
  }

  /** out is the list ts in the order of the nine keys, threads with equal keys in their old order. */
  ghost predicate IsOrder(ts: seq<Hwthread>, out: seq<Hwthread>, closed: bool) {
    && SortedFrom(Sortables(out, closed), 0)
    && SameEntries(Sortables(ts, closed), Sortables(out, closed))
    && multiset(Sortables(ts, closed)) == multiset(Sortables(out, closed))
  }

  lemma OrderOfData(ts: seq<Hwthread>, closed: bool, s: seq<Sortable>)
    requires SortedFrom(s, 0) && SameEntries(Sortables(ts, closed), s)
    ensures IsOrder(ts, Threads(s), closed) && Sortables(Threads(s), closed) == s
  {
    EntriesPermuted(Sortables(ts, closed), s);
    forall i | 0 <= i < |s|
      ensures Sortables(Threads(s), closed)[i] == s[i]
    {
      assert s[i] in multiset(Sortables(ts, closed));
    }
    assert Sortables(Threads(s), closed) == s;
  }

  /** One key and, where it is equal, what comes behind it. */
  predicate Then(a: int, b: int, rest: bool) {
    a < b || (a == b && rest)
  }

  /**
   x may stand before y: by its place in the system, from the socket down to the
   core, then by its SMT id, then by its number; with the SMT id before everything
   else if `closed`.
   */
  predicate MayPrecede(x: Hwthread, y: Hwthread, closed: bool) {
    if closed then Then(x.smt, y.smt, Outer(x, y, x.os <= y.os))
    else Outer(x, y, Then(x.smt, y.smt, x.os <= y.os))
  }

  predicate Outer(x: Hwthread, y: Hwthread, rest: bool) {
    Then(x.socket, y.socket, Then(x.die, y.die, Then(x.numa, y.numa, Inner(x, y, rest))))
  }

  predicate Inner(x: Hwthread, y: Hwthread, rest: bool) {
    Then(x.llc, y.llc, Then(x.l2, y.l2, Then(x.l1, y.l1, Then(x.core, y.core, rest))))
  }

  /** Every thread may stand before all those that stand behind it. */
  ghost predicate InOrder(ts: seq<Hwthread>, closed: bool) {
    forall i, j :: 0 <= i < j < |ts| ==> MayPrecede(ts[i], ts[j], closed)
  }

  lemma KeyThen(x: Keys, y: Keys, lvl: nat, rest: bool)
    requires lvl < LEVELS && (!Precedes(y, x, lvl + 1) ==> rest)
    ensures !Precedes(y, x, lvl) ==> Then(x[lvl], y[lvl], rest)
  {
  }

  /** The keys give this order. */
  lemma KeysInOrder(x: Hwthread, y: Hwthread, closed: bool)
    requires !Precedes(KeysOf(y, closed), KeysOf(x, closed), 0)
    ensures MayPrecede(x, y, closed)
  {
    var k, l := KeysOf(x, closed), KeysOf(y, closed);
    var r := x.os <= y.os;
    assert k[8] == x.os && l[8] == y.os && (l[8] < k[8] ==> Precedes(l, k, 8));
    if !closed {
      var s := Then(x.smt, y.smt, r);
      KeyThen(k, l, 7, r);
      InnerKeys(x, y, k, l, 3, s);
      OuterKeys(x, y, k, l, 0, s);
    } else {
      InnerKeys(x, y, k, l, 4, r);
      OuterKeys(x, y, k, l, 1, r);
      KeyThen(k, l, 0, Outer(x, y, r));
    }
  }

  lemma InnerKeys(x: Hwthread, y: Hwthread, k: Keys, l: Keys, lvl: nat, rest: bool)
    requires lvl + 4 < LEVELS && (!Precedes(l, k, lvl + 4) ==> rest)
    requires k[lvl..lvl + 4] == [x.llc, x.l2, x.l1, x.core] && l[lvl..lvl + 4] == [y.llc, y.l2, y.l1, y.core]
    ensures !Precedes(l, k, lvl) ==> Inner(x, y, rest)
  {
    FourOf(k, lvl);
    FourOf(l, lvl);
    KeyThen(k, l, lvl + 3, rest);
    KeyThen(k, l, lvl + 2, Then(x.core, y.core, rest));
    KeyThen(k, l, lvl + 1, Then(x.l1, y.l1, Then(x.core, y.core, rest)));
    KeyThen(k, l, lvl, Then(x.l2, y.l2, Then(x.l1, y.l1, Then(x.core, y.core, rest))));
  }

  lemma FourOf(k: Keys, lvl: nat)
    requires lvl + 4 <= LEVELS
    ensures var s := k[lvl..lvl + 4];
      s[0] == k[lvl] && s[1] == k[lvl + 1] && s[2] == k[lvl + 2] && s[3] == k[lvl + 3]
  {
  }

  lemma OuterKeys(x: Hwthread, y: Hwthread, k: Keys, l: Keys, lvl: nat, rest: bool)
    requires lvl + 3 < LEVELS && (!Precedes(l, k, lvl + 3) ==> Inner(x, y, rest))
    requires k[lvl..lvl + 3] == [x.socket, x.die, x.numa] && l[lvl..lvl + 3] == [y.socket, y.die, y.numa]
    ensures !Precedes(l, k, lvl) ==> Outer(x, y, rest)
  {
    assert k[lvl] == k[lvl..lvl + 3][0] && k[lvl + 1] == k[lvl..lvl + 3][1] && k[lvl + 2] == k[lvl..lvl + 3][2];
    assert l[lvl] == l[lvl..lvl + 3][0] && l[lvl + 1] == l[lvl..lvl + 3][1] && l[lvl + 2] == l[lvl..lvl + 3][2];
    KeyThen(k, l, lvl + 2, Inner(x, y, rest));
    KeyThen(k, l, lvl + 1, Then(x.numa, y.numa, Inner(x, y, rest)));
    KeyThen(k, l, lvl, Then(x.die, y.die, Then(x.numa, y.numa, Inner(x, y, rest))));
  }

  /** What sorting means, in terms of the threads themselves. */
  lemma OrderOfFields(ts: seq<Hwthread>, out: seq<Hwthread>, closed: bool)
    requires IsOrder(ts, out, closed)
    ensures InOrder(out, closed) && multiset(out) == multiset(ts)
  {
    forall i, j | 0 <= i < j < |out|
      ensures MayPrecede(out[i], out[j], closed)
    {
      var s := Sortables(out, closed);
      assert !Precedes(s[j].key, s[i].key, 0);
      KeysInOrder(out[i], out[j], closed);
    }
    forall t: Hwthread
      ensures multiset(out)[t] == multiset(ts)[t]
    {
      SortablesCount(ts, closed, t);
      SortablesCount(out, closed, t);
    }
  }

  lemma {:induction false} SortablesCount(ts: seq<Hwthread>, closed: bool, t: Hwthread)
    ensures multiset(Sortables(ts, closed))[Sortable(t, KeysOf(t, closed))] == multiset(ts)[t]
  {
    if ts != [] {
      var n := |ts| - 1;
      SortablesCount(ts[..n], closed, t);
      assert ts == ts[..n] + [ts[n]];
      assert Sortables(ts, closed) == Sortables(ts[..n], closed) + [Sortable(ts[n], KeysOf(ts[n], closed))];
    }
  }

  /** _hwthreads_sort */
  method HwthreadsSort(inlist: array<Hwthread>, outlist: array<Hwthread>, closed: bool)
    returns (overflow: bool, ret: int)
    requires inlist.Length == outlist.Length && inlist != outlist
    modifies outlist
    ensures overflow <==> !AllFit(Sortables(inlist[..], closed))
    ensures !overflow ==> ret == if inlist.Length == 0 then -1 else inlist.Length
    ensures !overflow && ret > 0 ==> IsOrder(inlist[..], outlist[..], closed)
    ensures !overflow && ret > 0 ==> InOrder(outlist[..], closed) && multiset(outlist[..]) == multiset(inlist[..])
  {
    var n := inlist.Length;
    if n <= 0 {
      return false, -1;
    }
    var buffA := new Sortable[n](i requires 0 <= i < n reads inlist => Sortable(inlist[i], KeysOf(inlist[i], closed)));
    var buffB := new Sortable[n](i requires 0 <= i < n reads inlist => Sortable(inlist[i], KeysOf(inlist[i], closed)));
    assert buffA[..] == Sortables(inlist[..], closed);
    var result;
    overflow, result := RadixSort(buffA, buffB);
    if overflow {
      return overflow, -1;
    }
    ghost var s := result[..];
    for i := 0 to n
      invariant outlist[..i] == Threads(s)[..i] && result[..] == s
      modifies outlist
    {
      outlist[i] := result[i].data;
      assert outlist[..i + 1] == outlist[..i] + [outlist[i]];
    }
    assert outlist[..] == Threads(s);
    OrderOfData(inlist[..], closed, s);
    OrderOfFields(inlist[..], outlist[..], closed);
    return false, n;
  }

  // ----- the threads of a domain

  /** The os ids of the usable threads with this id, in order; the id is that of the socket, NUMA domain or die. */
  function Selected(ts: seq<Hwthread>, idOf: Hwthread -> cint, id: cint): seq<cint>
    decreases |ts|
  {
    if ts == [] then []
    else Selected(ts[..|ts| - 1], idOf, id) + if Usable(ts[|ts| - 1], idOf, id) then [ts[|ts| - 1].os] else []
  }

  predicate Usable(t: Hwthread, idOf: Hwthread -> cint, id: cint) {
    idOf(t) == id && t.usable == 1
  }

  lemma SelectedNext(ts: seq<Hwthread>, idOf: Hwthread -> cint, id: cint, i: nat)
    requires i < |ts|
    ensures Selected(ts[..i + 1], idOf, id)
         == Selected(ts[..i], idOf, id) + if Usable(ts[i], idOf, id) then [ts[i].os] else []
  {
    assert ts[..i + 1][..i] == ts[..i];
  }

  lemma {:induction false} SelectedSize(ts: seq<Hwthread>, idOf: Hwthread -> cint, id: cint)
    ensures |Selected(ts, idOf, id)| <= |ts|
    ensures Selected(ts, idOf, id) == [] <==> forall i :: 0 <= i < |ts| ==> !Usable(ts[i], idOf, id)
    decreases |ts|
  {
    if ts != [] {
      SelectedSize(ts[..|ts| - 1], idOf, id);
      assert forall i :: 0 <= i < |ts| - 1 ==> ts[..|ts| - 1][i] == ts[i];
    }
  }

  /** The positions of all chosen entries and no others, in order. */
  ghost predicate Positions<T>(s: seq<T>, chosen: T -> bool, p: seq<nat>) {
    && (forall j, k :: 0 <= j < k < |p| ==> p[j] < p[k])
    && (forall k :: 0 <= k < |p| ==> p[k] < |s| && chosen(s[p[k]]))
    && (forall i :: 0 <= i < |s| && chosen(s[i]) ==> i in p)
  }

  lemma PositionsNext<T>(s: seq<T>, t: T, chosen: T -> bool, p: seq<nat>)
    requires Positions(s, chosen, p)
    ensures Positions(s + [t], chosen, if chosen(t) then p + [|s|] else p)
  {
    var q := if chosen(t) then p + [|s|] else p;
    forall i | 0 <= i < |s + [t]| && chosen((s + [t])[i])
      ensures i in q
    {
      if i < |s| {
        assert i in p;
      } else {
        assert q[|p|] == i;
      }
    }
  }

  /** The ids at these positions. */
  function IdsAt(ts: seq<Hwthread>, p: seq<nat>): seq<cint>
    requires forall k :: 0 <= k < |p| ==> p[k] < |ts|
  {
    seq(|p|, k requires 0 <= k < |p| => ts[p[k]].os)
  }

  function OfDomain(idOf: Hwthread -> cint, id: cint): Hwthread -> bool {
    (t: Hwthread) => t.usable == 1 && idOf(t) == id
  }

  lemma SelectedSnoc(s: seq<Hwthread>, t: Hwthread, idOf: Hwthread -> cint, id: cint)
    ensures Selected(s + [t], idOf, id)
         == Selected(s, idOf, id) + if OfDomain(idOf, id)(t) then [t.os] else []
  {
    assert (s + [t])[..|s|] == s;
  }

  lemma IdsNext(s: seq<Hwthread>, t: Hwthread, p: seq<nat>)
    requires forall k :: 0 <= k < |p| ==> p[k] < |s|
    ensures IdsAt(s + [t], p) == IdsAt(s, p)
    ensures IdsAt(s + [t], p + [|s|]) == IdsAt(s, p) + [t.os]
  {
  }

  ghost predicate SelectedAt(ts: seq<Hwthread>, idOf: Hwthread -> cint, id: cint, p: seq<nat>) {
    Positions(ts, OfDomain(idOf, id), p) && Selected(ts, idOf, id) == IdsAt(ts, p)
  }

  lemma SelectedAtNext(s: seq<Hwthread>, t: Hwthread, idOf: Hwthread -> cint, id: cint, p: seq<nat>)
    requires SelectedAt(s, idOf, id, p)
    ensures SelectedAt(s + [t], idOf, id, if OfDomain(idOf, id)(t) then p + [|s|] else p)
  {
    PositionsNext(s, t, OfDomain(idOf, id), p);
    SelectedSnoc(s, t, idOf, id);
    IdsNext(s, t, p);
  }

  /** The threads of a domain: all that are usable and have its id, and no others, in the order of the list. */
  lemma {:induction false} SelectedAre(ts: seq<Hwthread>, idOf: Hwthread -> cint, id: cint) returns (p: seq<nat>)
    ensures Positions(ts, OfDomain(idOf, id), p)
    ensures Selected(ts, idOf, id) == IdsAt(ts, p)
    decreases |ts|
  {
    p := [];
    if ts != [] {
      var n := |ts| - 1;
      var q := SelectedAre(ts[..n], idOf, id);
      SelectedAtNext(ts[..n], ts[n], idOf, id, q);
      assert ts[..n] + [ts[n]] == ts;
      p := if OfDomain(idOf, id)(ts[n]) then q + [n] else q;
    }
  }

  method CollectUsable(tmpList: array<Hwthread>, idOf: Hwthread -> cint, id: cint, list: array<cint>)
    returns (numEntries: nat)
    requires tmpList.Length == list.Length
    modifies list
    ensures numEntries <= list.Length && list[..numEntries] == Selected(tmpList[..], idOf, id)
  {
    ghost var sorted := tmpList[..];
    numEntries := 0;
    for i := 0 to tmpList.Length
      invariant numEntries <= i && list[..numEntries] == Selected(sorted[..i], idOf, id)
    {
      SelectedNext(sorted, idOf, id, i);
      if idOf(tmpList[i]) == id && tmpList[i].usable == 1 && numEntries < list.Length {
        list[numEntries] := tmpList[i].os;
        numEntries := numEntries + 1;
        assert list[..numEntries] == list[..numEntries - 1] + [sorted[i].os];
      }
    }
    assert sorted[..tmpList.Length] == sorted;
  }

  /** _hwthread_list_for_socket, _hwthread_list_for_numa_domain and _hwthread_list_for_cpu_die */
  method HwthreadList(hwthreads: array<Hwthread>, idOf: Hwthread -> cint, id: cint, closed: bool)
    returns (overflow: bool, ret: int, numEntries: nat, list: array<cint>, ghost sorted: seq<Hwthread>)
    ensures overflow <==>
      !AllFit(Sortables(hwthreads[..], closed)) && exists t :: t in hwthreads[..] && Usable(t, idOf, id)
    ensures !overflow ==> ret == if exists t :: t in hwthreads[..] && Usable(t, idOf, id) then 0 else -ENODEV
    ensures !overflow && ret == 0 ==>
      && IsOrder(hwthreads[..], sorted, closed) && InOrder(sorted, closed)
      && multiset(sorted) == multiset(hwthreads[..]) && numEntries <= list.Length
      && list[..numEntries] == Selected(sorted, idOf, id)
  {
    var n := hwthreads.Length;
    var avail := 0;
    ghost var ts := hwthreads[..];
    for i := 0 to n
      invariant avail == |Selected(ts[..i], idOf, id)|
    {
      SelectedNext(ts, idOf, id, i);
      if idOf(hwthreads[i]) == id && hwthreads[i].usable == 1 {
        avail := avail + 1;
      }
    }
    assert ts[..n] == ts;
    SelectedSize(ts, idOf, id);
    numEntries, sorted := 0, [];
    list := new cint[n](_ => 0);
    if avail == 0 {
      return false, -ENODEV, numEntries, list, sorted;
    }
    assert exists t :: t in ts && Usable(t, idOf, id) by {
      var i :| 0 <= i < n && Usable(ts[i], idOf, id);
      assert ts[i] in ts;
    }
    var tmpList := new Hwthread[n](_ => Hwthread(0, 0, 0, 0, 0, 0, 0, 0, 0, 0));
    var sortedCount;
    overflow, sortedCount := HwthreadsSort(hwthreads, tmpList, closed);
    if overflow {
      return overflow, -ENODEV, numEntries, list, sorted;
    }
    sorted := tmpList[..];
    numEntries := CollectUsable(tmpList, idOf, id, list);
    return false, 0, numEntries, list, sorted;
  }

  // ----- the threads of the node

  function Ids(s: seq<Sortable>): (r: seq<cint>)
    ensures |r| == |s|
  {
    seq(|s|, i requires 0 <= i < |s| => s[i].data.os)
  }

  lemma IdsSum(s: seq<Sortable>, t: seq<Sortable>)
    ensures Ids(s + t) == Ids(s) + Ids(t)
  {
  }

  lemma {:induction false} ByValueFits(s: seq<Sortable>, lvl: nat, lo: int, hi: int)
    requires lvl < LEVELS
    ensures |ByValue(s, lvl, lo, hi)| <= |s|
    decreases |s|
  {
    if s == [] {
      NothingByValue(lvl, lo, hi);
    } else {
      var n := |s| - 1;
      ByValueFits(s[..n], lvl, lo, hi);
      OneMore(s[..n], s[n], lvl, lo, hi);
      assert s[..n] + [s[n]] == s;
    }
  }

  /** The largest entry of a list, standing last, is also last when the list is taken value by value. */
  lemma {:induction false} LastByValue(s: seq<Sortable>, x: Sortable, lvl: nat, lo: int, hi: int)
    requires lvl < LEVELS && lo <= x.key[lvl] && forall i :: 0 <= i < |s| ==> s[i].key[lvl] <= x.key[lvl]
    ensures ByValue(s + [x], lvl, lo, hi) == ByValue(s, lvl, lo, hi) + if x.key[lvl] <= hi then [x] else []
    decreases hi + 1 - lo
  {
    if lo <= hi {
      LastByValue(s, x, lvl, lo, hi - 1);
      WithSnoc(s, x, lvl, hi);
      if x.key[lvl] < hi {
        NoneWith(s, lvl, hi);
      }
      LastInParts(ByValue(s, lvl, lo, hi - 1), With(s, lvl, hi), x, x.key[lvl] < hi, x.key[lvl] == hi);
    }
  }

  lemma LastInParts<T>(a: seq<T>, b: seq<T>, x: T, inA: bool, inB: bool)
    requires !(inA && inB) && (inA ==> b == [])
    ensures a + (if inA then [x] else []) + (b + if inB then [x] else [])
         == a + b + if inA || inB then [x] else []
  {
    assert a + [x] + ([] + []) == a + [] + [x];
    assert a + [] + (b + []) == a + b + [];
  }

  lemma WithSnoc(s: seq<Sortable>, x: Sortable, lvl: nat, v: int)
    requires lvl < LEVELS
    ensures With(s + [x], lvl, v) == With(s, lvl, v) + if x.key[lvl] == v then [x] else []
  {
    assert (s + [x])[..|s|] == s;
  }

  lemma {:induction false} NoneWith(s: seq<Sortable>, lvl: nat, v: int)
    requires lvl < LEVELS && forall i :: 0 <= i < |s| ==> s[i].key[lvl] != v
    ensures With(s, lvl, v) == []
  {
    if s != [] {
      NoneWith(s[..|s| - 1], lvl, v);
    }
  }

  /** Taking a list that is sorted by its first key value by value changes nothing. */
  lemma {:induction false} SortedByValue(s: seq<Sortable>, lo: int, hi: int)
    requires SortedFrom(s, 0) && InRange(s, 0, lo, hi)
    ensures ByValue(s, 0, lo, hi) == s
    decreases |s|
  {
    if s == [] {
      NothingByValue(0, lo, hi);
    } else {
      var n := |s| - 1;
      SortedByValue(s[..n], lo, hi);
      forall i | 0 <= i < n
        ensures s[i].key[0] <= s[n].key[0]
      {
        assert !Precedes(s[n].key, s[i].key, 0);
      }
      LastByValue(s[..n], s[n], 0, lo, hi);
      assert s[..n] + [s[n]] == s;
    }
  }

  lemma {:induction false} DroppedByValue(s: seq<Sortable>, lvl: nat, lo: int, hi: int, i: nat)
    requires lvl < LEVELS && i < |s| && s[i].key[lvl] < lo
    ensures |ByValue(s, lvl, lo, hi)| < |s|
    decreases |s|
  {
    var n := |s| - 1;
    OneMore(s[..n], s[n], lvl, lo, hi);
    assert s[..n] + [s[n]] == s;
    if i < n {
      DroppedByValue(s[..n], lvl, lo, hi, i);
    } else {
      ByValueFits(s[..n], lvl, lo, hi);
    }
  }

  /**
   The list for the whole node: with the SMT id as the first key the threads are
   collected SMT id by SMT id. That gives the sorted list again, exactly when no
   SMT id is negative.
   */
  method NodeList(hwthreads: array<Hwthread>)
    returns (overflow: bool, tmpCount: nat, tmpList: array<cint>, ghost sorted: seq<Hwthread>)
    requires hwthreads.Length > 0
    ensures overflow <==> !AllFit(Sortables(hwthreads[..], true))
    ensures tmpCount <= tmpList.Length && (!overflow ==> IsOrder(hwthreads[..], sorted, true))
    ensures !overflow ==> InOrder(sorted, true) && multiset(sorted) == multiset(hwthreads[..])
    ensures !overflow ==>
      (tmpList[..tmpCount] == Ids(Sortables(sorted, true))
       <==> forall i :: 0 <= i < hwthreads.Length ==> hwthreads[i].smt >= 0)
  {
    var n := hwthreads.Length;
    var maxSmtId: cint := 0;
    for i := 0 to n
      invariant maxSmtId >= 0 && forall j :: 0 <= j < i ==> hwthreads[j].smt <= maxSmtId
    {
      if hwthreads[i].smt > maxSmtId {
        maxSmtId := hwthreads[i].smt;
      }
    }
    var list := new Hwthread[n](_ => Hwthread(0, 0, 0, 0, 0, 0, 0, 0, 0, 0));
    var count;
    overflow, count := HwthreadsSort(hwthreads, list, true);
    sorted := list[..];
    tmpList := new cint[n](_ => 0);
    if overflow {
      return overflow, 0, tmpList, sorted;
    }
    tmpCount := CollectSmt(list, tmpList, maxSmtId);
    SmtOrder(hwthreads[..], sorted, maxSmtId);
  }

  /** The first n ids in tmp are those of the threads with SMT ids below t, and with t among the first i threads. */
  ghost predicate Collected(list: seq<Hwthread>, tmp: seq<cint>, n: nat, t: int, i: nat)
    requires i <= |list|
  {
    var s := Sortables(list, true);
    && n <= |tmp| && n == |ByValue(s, 0, 0, t - 1)| + |With(s[..i], 0, t)|
    && tmp[..n] == Ids(ByValue(s, 0, 0, t - 1)) + Ids(With(s[..i], 0, t))
  }

  lemma CollectedNext(list: seq<Hwthread>, tmp: seq<cint>, n: nat, t: int, i: nat)
    requires t >= 0 && i < |list| == |tmp| && Collected(list, tmp, n, t, i)
    ensures if list[i].smt == t then n < |tmp| && Collected(list, tmp[n := list[i].os], n + 1, t, i + 1)
            else Collected(list, tmp, n, t, i + 1)
  {
    var s := Sortables(list, true);
    WithNext(s, 0, t, i);
    WithPrefix(s, 0, t, i + 1);
    ByValueFits(s, 0, 0, t);
    if list[i].smt == t {
      IdsSum(With(s[..i], 0, t), [s[i]]);
      assert tmp[n := list[i].os][..n + 1] == tmp[..n] + [list[i].os];
    }
  }

  lemma CollectedAll(list: seq<Hwthread>, tmp: seq<cint>, n: nat, t: int)
    requires t >= 0 && Collected(list, tmp, n, t, |list|)
    ensures tmp[..n] == Ids(ByValue(Sortables(list, true), 0, 0, t))
    ensures Collected(list, tmp, n, t + 1, 0)
  {
    var s := Sortables(list, true);
    assert s[..|list|] == s;
    IdsSum(ByValue(s, 0, 0, t - 1), With(s, 0, t));
  }

  /** The inner loop: the threads with one SMT id. */
  method CollectId(list: array<Hwthread>, tmpList: array<cint>, count: nat, t: nat) returns (tmpCount: nat)
    requires tmpList.Length == list.Length && Collected(list[..], tmpList[..], count, t, 0)
    modifies tmpList
    ensures Collected(list[..], tmpList[..], tmpCount, t, list.Length)
  {
    ghost var s := list[..];
    tmpCount := count;
    for i := 0 to list.Length
      invariant Collected(s, tmpList[..], tmpCount, t, i)
    {
      ghost var was := tmpList[..];
      CollectedNext(s, was, tmpCount, t, i);
      if list[i].smt == t {
        tmpList[tmpCount] := list[i].os;
        assert tmpList[..] == was[tmpCount := s[i].os];
        tmpCount := tmpCount + 1;
      }
    }
  }

  method CollectSmt(list: array<Hwthread>, tmpList: array<cint>, maxSmtId: cint) returns (tmpCount: nat)
    requires tmpList.Length == list.Length && maxSmtId >= 0
    modifies tmpList
    ensures tmpCount <= tmpList.Length
    ensures tmpList[..tmpCount] == Ids(ByValue(Sortables(list[..], true), 0, 0, maxSmtId))
  {
    ghost var s := list[..];
    tmpCount := 0;
    for t := 0 to maxSmtId as int + 1
      invariant Collected(s, tmpList[..], tmpCount, t, 0)
      invariant tmpCount <= tmpList.Length
      invariant t > 0 ==> tmpList[..tmpCount] == Ids(ByValue(Sortables(s, true), 0, 0, t - 1))
    {
      tmpCount := CollectId(list, tmpList, tmpCount, t);
      CollectedAll(s, tmpList[..], tmpCount, t);
      assert tmpList[..][..tmpCount] == tmpList[..tmpCount];
    }
  }

  lemma SmtOrder(ts: seq<Hwthread>, sorted: seq<Hwthread>, maxSmtId: cint)
    requires IsOrder(ts, sorted, true) && forall i :: 0 <= i < |ts| ==> ts[i].smt <= maxSmtId
    ensures Ids(ByValue(Sortables(sorted, true), 0, 0, maxSmtId)) == Ids(Sortables(sorted, true))
       <==> forall i :: 0 <= i < |ts| ==> ts[i].smt >= 0
  {
    var s, u := Sortables(ts, true), Sortables(sorted, true);
    forall i | 0 <= i < |u|
      ensures u[i] in s && u[i].key[0] <= maxSmtId
    {
      assert u[i] in multiset(s);
      var j :| 0 <= j < |s| && s[j] == u[i];
      assert ts[j].smt <= maxSmtId;
    }
    if forall i :: 0 <= i < |ts| ==> ts[i].smt >= 0 {
      forall i | 0 <= i < |u|
        ensures 0 <= u[i].key[0]
      {
        var j :| 0 <= j < |s| && s[j] == u[i];
        assert ts[j].smt >= 0;
      }
      SortedByValue(u, 0, maxSmtId);
    } else {
      var i :| 0 <= i < |ts| && ts[i].smt < 0;
      assert s[i] in multiset(u);
      var j :| 0 <= j < |u| && u[j] == s[i];
      DroppedByValue(u, 0, 0, maxSmtId, j);
    }
  }
}
