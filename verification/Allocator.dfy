/**
 The arrays of the streams, src/allocator.c: one block per stream, laid out in up to
 three dimensions with an offset in each, and the linear offsets of src/threads.c.
 Positions are counted in elements.
 */
module Allocator {

  const EINVAL := 22

  // ----- layouts

  function Product(n: seq<nat>): nat {
    if n == [] then 1 else n[0] * Product(n[1..])
  }

  /** The position of an index in an array of these sizes, the last dimension running fastest. */
  function Linear(index: seq<int>, sizes: seq<nat>): (r: int)
    requires |index| == |sizes|
    ensures (forall d :: 0 <= d < |index| ==> index[d] >= 0) ==> r >= 0
  {
    if index == [] then 0 else index[0] * Product(sizes[1..]) + Linear(index[1..], sizes[1..])
  }

  ghost predicate Inside(index: seq<nat>, sizes: seq<nat>) {
    |index| == |sizes| && forall d :: 0 <= d < |sizes| ==> index[d] < sizes[d]
  }

  lemma {:induction false} LinearInside(index: seq<nat>, sizes: seq<nat>)
    requires Inside(index, sizes)
    ensures Linear(index, sizes) < Product(sizes)
  {
    if sizes != [] {
      LinearInside(index[1..], sizes[1..]);
      RowFits(index[0], sizes[0], Product(sizes[1..]));
    }
  }

  lemma RowFits(i: nat, n: nat, p: nat)
    requires i < n
    ensures i * p + p <= n * p
  {
    Monotonic(i + 1, n, p);
    assert (i + 1) * p == i * p + p;
  }

  lemma Monotonic(a: nat, b: nat, p: nat)
    requires a <= b
    ensures a * p <= b * p
  {
  }

  /** Different indices have different positions. */
  lemma {:induction false} LinearInjective(i: seq<nat>, j: seq<nat>, sizes: seq<nat>)
    requires Inside(i, sizes) && Inside(j, sizes) && Linear(i, sizes) == Linear(j, sizes)
    ensures i == j
  {
    if sizes != [] {
      var p := Product(sizes[1..]);
      LinearInside(i[1..], sizes[1..]);
      LinearInside(j[1..], sizes[1..]);
      if i[0] < j[0] {
        RowFits(i[0], j[0], p);
      } else if j[0] < i[0] {
        RowFits(j[0], i[0], p);
      }
      LinearInjective(i[1..], j[1..], sizes[1..]);
    }
  }

  /** _linear_offset: from the last dimension to the first. */
  method LinearOffset(offsets: seq<int>, dimsizes: seq<nat>, size: nat) returns (r: int)
    requires |offsets| == |dimsizes|
    ensures r == Linear(offsets, dimsizes) * size
  {
    var off, stride := 0, 1;
    var n := |dimsizes|;
    for d := n downto 0
      invariant off == Linear(offsets[d..], dimsizes[d..]) && stride == Product(dimsizes[d..])
    {
      assert offsets[d..][1..] == offsets[d + 1..] && dimsizes[d..][1..] == dimsizes[d + 1..];
      off := off + offsets[d] * stride;
      stride := dimsizes[d] * stride;
    }
    assert offsets[0..] == offsets && dimsizes[0..] == dimsizes;
    return off * size;
  }

  // ----- the block and the first element

  function Sums(n: seq<nat>, o: seq<nat>): (s: seq<nat>)
    requires |n| == |o|
    ensures |s| == |n| && forall d :: 0 <= d < |n| ==> s[d] == n[d] + o[d]
  {
    if n == [] then [] else [n[0] + o[0]] + Sums(n[1..], o[1..])
  }

  /** From the first element on there is room for all of them. */
  lemma {:induction false} RoomForAll(n: seq<nat>, o: seq<nat>)
    requires |n| == |o| && forall d :: 0 <= d < |n| ==> n[d] > 0
    ensures Linear(o, Sums(n, o)) + Product(n) <= Product(Sums(n, o))
  {
    if n != [] {
      var s := Sums(n, o);
      assert s[1..] == Sums(n[1..], o[1..]);
      RoomForAll(n[1..], o[1..]);
      var l, p, q := Linear(o[1..], s[1..]), Product(n[1..]), Product(s[1..]);
      OneDimensionMore(n[0], o[0], l, p, q);
    }
  }

  lemma OneDimensionMore(n: nat, o: nat, l: nat, p: nat, q: nat)
    requires n > 0 && l + p <= q
    ensures o * q + l + n * p <= (n + o) * q
  {
    Monotonic(p, q, n - 1);
    assert (n - 1) * p == n * p - p && (n - 1) * q == n * q - q by {
      Less(n, p);
      Less(n, q);
    }
    assert (n + o) * q == n * q + o * q;
  }

  lemma Less(n: nat, p: nat)
    requires n > 0
    ensures (n - 1) * p == n * p - p
  {
  }

  lemma {:induction false} ZeroProduct(n: seq<nat>, d: nat)
    requires d < |n| && n[d] == 0
    ensures Product(n) == 0
  {
    if d > 0 {
      ZeroProduct(n[1..], d - 1);
    }
  }

  class Stream<T(0)> {
    const dims: nat
    /** In bytes; `elem` is the size of an element. */
    const dimsizes: seq<nat>
    const offsets: seq<int>
    const elem: nat
    var base: array<T>
    var ptr: nat

    constructor (dimsizes: seq<nat>, offsets: seq<int>, elem: nat)
      requires 1 <= |dimsizes| <= 3 && |offsets| == |dimsizes| && elem > 0
      ensures this.dimsizes == dimsizes && this.offsets == offsets && this.elem == elem && Sized()
    {
      this.dims, this.dimsizes, this.offsets, this.elem := |dimsizes|, dimsizes, offsets, elem;
      base, ptr := new T[0], 0;
    }

    ghost predicate Sized() {
      1 <= dims <= 3 && |dimsizes| == |offsets| == dims && elem > 0
    }

    function Size(d: nat): nat
      requires Sized() && d < dims
    {
      dimsizes[d] / elem
    }

    /** The sizes in elements. */
    function Sizes(): (n: seq<nat>)
      requires Sized()
      ensures |n| == dims && forall d :: 0 <= d < dims ==> n[d] == Size(d)
    {
      if dims == 1 then [Size(0)] else if dims == 2 then [Size(0), Size(1)] else [Size(0), Size(1), Size(2)]
    }

    /** A dimension that allocation accepts: not empty, and with an offset that is neither negative nor beyond it. */
    predicate Accepted(d: nat)
      requires Sized() && d < dims
    {
      dimsizes[d] > 0 && 0 <= offsets[d] < dimsizes[d]
    }

    ghost predicate AllAccepted()
      requires Sized()
    {
      forall d :: 0 <= d < dims ==> Accepted(d)
    }

    ghost function Offsets(): (o: seq<nat>)
      requires Sized() && AllAccepted()
      ensures |o| == dims
    {
      assert Accepted(0) && (dims > 1 ==> Accepted(1)) && (dims > 2 ==> Accepted(2));
      if dims == 1 then [offsets[0]] else if dims == 2 then [offsets[0], offsets[1]]
      else [offsets[0], offsets[1], offsets[2]]
    }

    /** What allocation establishes: all elements, counted from ptr, lie in the block. */
    ghost predicate Allocated()
      requires Sized()
      reads this
    {
      Product(Sizes()) > 0 ==> ptr + Product(Sizes()) <= base.Length
    }

    /** _allocate_arrays_1dim, _allocate_arrays_2dim and _allocate_arrays_3dim */
    method Allocate() returns (ret: int)
      requires Sized()
      modifies this
      ensures ret == 0 <==> AllAccepted() && Product(Sums(Sizes(), Offsets())) > 0
      ensures ret == 0 || (ret == -EINVAL && base == old(base) && ptr == old(ptr))
      ensures ret == 0 ==>
        && fresh(base) && base.Length == Product(Sums(Sizes(), Offsets()))
        && ptr == Linear(Offsets(), Sums(Sizes(), Offsets())) && Allocated()
    {
      if dimsizes[0] <= 0 || (dims > 1 && dimsizes[1] <= 0) || (dims > 2 && dimsizes[2] <= 0) {
        assert !AllAccepted() by {
          assert !Accepted(0) || (dims > 1 && !Accepted(1)) || (dims > 2 && !Accepted(2));
        }
        return -EINVAL;
      }
      if !Accepted(0) || (dims > 1 && !Accepted(1)) || (dims > 2 && !Accepted(2)) {
        return -EINVAL;
      }
      var msize, first := Measure();
      if msize <= 0 {
        return -EINVAL;
      }
      FirstFits();
      base := new T[msize];
      ptr := first;
      return 0;
    }

    /** The size of the block and the position of the first element in it. */
    method Measure() returns (msize: nat, first: nat)
      requires Sized() && AllAccepted()
      ensures msize == Product(Sums(Sizes(), Offsets())) && first == Linear(Offsets(), Sums(Sizes(), Offsets()))
    {
      assert Accepted(0) && (dims > 1 ==> Accepted(1)) && (dims > 2 ==> Accepted(2));
      ghost var s, o := Sums(Sizes(), Offsets()), Offsets();
      var s1, o1 := Size(0) + offsets[0], offsets[0];
      if dims == 1 {
        assert s == [s1] && o == [o1];
        Product1(s1);
        Linear1(o1, s1);
        return s1, o1;
      }
      var s2, o2 := Size(1) + offsets[1], offsets[1];
      if dims == 2 {
        assert s == [s1, s2] && o == [o1, o2];
        Layout2(s1, s2, o1, o2);
        return s1 * s2, o1 * s2 + o2;
      }
      var s3, o3 := Size(2) + offsets[2], offsets[2];
      assert s == [s1, s2, s3] && o == [o1, o2, o3];
      Layout3(s1, s2, s3, o1, o2, o3);
      return s1 * s2 * s3, o1 * s2 * s3 + o2 * s3 + o3;
    }

    lemma FirstFits()
      requires Sized() && AllAccepted()
      ensures var n, o := Sizes(), Offsets();
        Product(n) > 0 ==> Linear(o, Sums(n, o)) + Product(n) <= Product(Sums(n, o))
    {
      var n := Sizes();
      if d :| 0 <= d < |n| && n[d] == 0 {
        ZeroProduct(n, d);
      } else {
        RoomForAll(n, Offsets());
      }
    }

    /** _initialize_arrays_1dim, 2dim and 3dim with init_function: the cells in the order of the loops. */
    method Initialize(initVal: T) returns (state: nat)
      requires Sized() && Allocated()
      modifies base
      ensures state == Product(Sizes())
      ensures forall p :: 0 <= p < base.Length ==>
        base[p] == if ptr <= p < ptr + state then initVal else old(base[p])
    {
      var size1 := Size(0);
      var size2, size3 := Extent(1), Extent(2);
      Layout0(Sizes());
      assert Product(Sizes()) == size1 * (size2 * size3);
      state := 0;
      for i := 0 to size1
        invariant state == i * (size2 * size3)
        invariant forall p :: 0 <= p < base.Length ==>
          base[p] == if ptr <= p < ptr + state then initVal else old(base[p])
      {
        RowFits(i, size1, size2 * size3);
        for j := 0 to size2
          invariant state == i * (size2 * size3) + j * size3
          invariant forall p :: 0 <= p < base.Length ==>
            base[p] == if ptr <= p < ptr + state then initVal else old(base[p])
        {
          RowFits(j, size2, size3);
          for k := 0 to size3
            invariant state == i * (size2 * size3) + j * size3 + k
            invariant forall p :: 0 <= p < base.Length ==>
              base[p] == if ptr <= p < ptr + state then initVal else old(base[p])
          {
            InitFunction(initVal, i, j, k);
            state := state + 1;
          }
          assert (j + 1) * size3 == j * size3 + size3;
        }
        assert (i + 1) * (size2 * size3) == i * (size2 * size3) + size2 * size3;
      }
    }

    /** The extent of a dimension, 1 where there is no such dimension. */
    function Extent(d: nat): nat
      requires Sized()
    {
      if d < dims then Size(d) else 1
    }

    /** INIT_ARRAY: the cell with these indices. */
    method InitFunction(initVal: T, i: nat, j: nat, k: nat)
      requires Sized() && (dims < 3 ==> k == 0) && (dims < 2 ==> j == 0)
      requires ptr + (i * (Extent(1) * Extent(2)) + j * Extent(2) + k) < base.Length
      modifies base
      ensures base[..] == old(base[..])[ptr + (i * (Extent(1) * Extent(2)) + j * Extent(2) + k) := initVal]
    {
      var at := Place(i, j, k);
      base[ptr + at] := initVal;
    }

    /** The place of a cell, as the macros compute it for one, two and three dimensions. */
    method Place(i: nat, j: nat, k: nat) returns (at: nat)
      requires Sized() && (dims < 3 ==> k == 0) && (dims < 2 ==> j == 0)
      ensures at == i * (Extent(1) * Extent(2)) + j * Extent(2) + k
    {
      if dims == 1 {
        at := i;
      } else if dims == 2 {
        var stride1 := Size(1);
        at := i * stride1 + j;
      } else {
        var stride2 := Size(2);
        var stride1 := Size(1) * stride2;
        at := i * stride1 + j * stride2 + k;
      }
      Strides(i, j, Extent(1), Extent(2));
    }
  }

  // ----- one to three dimensions, written out

  lemma Product1(a: nat)
    ensures Product([a]) == a
  {
    assert [a][1..] == [];
  }

  lemma Product2(a: nat, b: nat)
    ensures Product([a, b]) == a * b
  {
    assert [a, b][1..] == [b];
    Product1(b);
  }

  lemma Product3(a: nat, b: nat, c: nat)
    ensures Product([a, b, c]) == a * (b * c)
  {
    assert [a, b, c][1..] == [b, c];
    Product2(b, c);
  }

  lemma Linear1(i: nat, a: nat)
    ensures Linear([i], [a]) == i
  {
    assert [i][1..] == [] && [a][1..] == [];
    assert Linear([], []) == 0 && Product([]) == 1;
  }

  lemma Linear2(i: nat, j: nat, a: nat, b: nat)
    ensures Linear([i, j], [a, b]) == i * b + j
  {
    assert [i, j][1..] == [j] && [a, b][1..] == [b];
    Product1(b);
    Linear1(j, b);
  }

  /** The cell that is written for an index is the one that LinearOffset gives. */
  lemma Linear3(i: nat, j: nat, k: nat, a: nat, b: nat, c: nat)
    ensures Linear([i, j, k], [a, b, c]) == i * (b * c) + j * c + k
  {
    assert [i, j, k][1..] == [j, k] && [a, b, c][1..] == [b, c];
    Product2(b, c);
    Linear2(j, k, b, c);
  }

  lemma Strides(i: nat, j: nat, p: nat, q: nat)
    ensures q == 1 ==> i * (p * q) == i * p && j * q == j
    ensures p == 1 && q == 1 ==> i * (p * q) == i
  {
  }

  lemma Layout0(n: seq<nat>)
    requires 1 <= |n| <= 3
    ensures Product(n) == n[0] * ((if |n| > 1 then n[1] else 1) * (if |n| > 2 then n[2] else 1))
  {
    if |n| == 1 {
      assert n == [n[0]];
      Product1(n[0]);
    } else if |n| == 2 {
      assert n == [n[0], n[1]];
      Product2(n[0], n[1]);
      Strides(n[0], 0, n[1], 1);
    } else {
      assert n == [n[0], n[1], n[2]];
      Product3(n[0], n[1], n[2]);
    }
  }

  lemma Layout2(a: nat, b: nat, i: nat, j: nat)
    ensures Product([a, b]) == a * b && Linear([i, j], [a, b]) == i * b + j
  {
    Product2(a, b);
    Linear2(i, j, a, b);
  }

  lemma Layout3(a: nat, b: nat, c: nat, i: nat, j: nat, k: nat)
    ensures Product([a, b, c]) == a * b * c && Linear([i, j, k], [a, b, c]) == i * b * c + j * c + k
  {
    Product3(a, b, c);
    Linear3(i, j, k, a, b, c);
    Associative(a, b, c);
    Associative(i, b, c);
  }

  lemma Associative(a: nat, b: nat, c: nat)
    ensures a * (b * c) == a * b * c
  {
  }
}
