/**
 What the calculator computes, in terms of real numbers: if floating-point
 arithmetic is exact, then what a tree leaves on the stack is the number that the
 operators and functions in it stand for in arithmetic.
 */
module Meanings {
  import opened Wrappers
  import opened Calculator
  import opened Expressions

  // ----- arithmetic

  function IntPow(x: real, n: nat): real {
    if n == 0 then 1.0 else x * IntPow(x, n - 1)
  }

  /** The conversion of C, towards zero. */
  function Trunc(x: real): int {
    if x >= 0.0 then x.Floor else -((-x).Floor)
  }

  function SumOf(xs: seq<real>): real {
    if xs == [] then 0.0 else xs[0] + SumOf(xs[1..])
  }

  function SquaredDistances(xs: seq<real>, mean: real): real {
    if xs == [] then 0.0 else (xs[0] - mean) * (xs[0] - mean) + SquaredDistances(xs[1..], mean)
  }

  /** How many of the numbers are less than x, and how many are not greater. */
  function LessThan(xs: seq<real>, x: real): nat {
    if xs == [] then 0 else (if xs[0] < x then 1 else 0) + LessThan(xs[1..], x)
  }

  function UpTo(xs: seq<real>, x: real): nat {
    if xs == [] then 0 else (if xs[0] <= x then 1 else 0) + UpTo(xs[1..], x)
  }

  // ----- what a tree means

  /**
   The number that a double stands for, and the functions that are not defined
   here: powers with exponents that are no natural numbers, and the functions of
   one argument.
   */
  datatype Reading = Reading(v: number -> real, pow: (real, real) -> real, unary: (string, real) -> real)

  ghost predicate OpMeans(m: Reading, op: Op, a: real, b: real, x: real) {
    match op
    case Plus => x == a + b
    case Minus => x == a - b
    case Times => x == a * b
    case Divide => b != 0.0 && x == a / b
    case Modulo => b != 0.0 && x == a - Trunc(a / b) as real * b
    case Power => x == m.pow(a, b)
  }

  ghost predicate CallMeans(m: Reading, f: Func, xs: seq<real>, x: real) {
    match f
    case Min => x in xs && forall y :: y in xs ==> x <= y
    case Max => x in xs && forall y :: y in xs ==> y <= x
    case Sum => x == SumOf(xs)
    case Avg => IsMean(xs, x)
    case Mean => IsMean(xs, x)
    case Median => x in xs && LessThan(xs, x) < (|xs| + 1) / 2 <= UpTo(xs, x)
    case Var => exists mean :: IsMean(xs, mean) && IsMeanSquare(xs, mean, x)
    case Unary(name) => |xs| == 1 && x == m.unary(name, xs[0])
  }

  ghost predicate IsMean(xs: seq<real>, mean: real) {
    mean * |xs| as real == SumOf(xs)
  }

  ghost predicate IsMeanSquare(xs: seq<real>, mean: real, x: real) {
    x * |xs| as real == SquaredDistances(xs, mean)
  }

  /** The tree stands for the number x. */
  ghost predicate Means(m: Reading, e: Expr, x: real) {
    match e
    case Literal(n) => x == m.v(n)
    case Paren(e') => Means(m, e', x)
    case Binary(op, l, r) => exists a, b :: Means(m, l, a) && Means(m, r, b) && OpMeans(m, op, a, b, x)
    case Call(f, args) => exists xs :: ArgsMean(m, args, xs) && CallMeans(m, f, xs, x)
  }

  ghost predicate ArgsMean(m: Reading, args: Args, xs: seq<real>) {
    match args
    case Last(e) => |xs| == 1 && Means(m, e, xs[0])
    case More(e, rest) => xs != [] && Means(m, e, xs[0]) && ArgsMean(m, rest, xs[1..])
  }

  // ----- exact arithmetic

  ghost predicate ExactSums(fpu: Fpu, m: Reading) {
    && (forall a, b {:trigger fpu.add(a, b)} :: m.v(fpu.add(a, b)) == m.v(a) + m.v(b))
    && (forall a, b {:trigger fpu.sub(a, b)} :: m.v(fpu.sub(a, b)) == m.v(a) - m.v(b))
  }

  ghost predicate ExactProducts(fpu: Fpu, m: Reading) {
    && (forall a, b {:trigger fpu.mul(a, b)} :: m.v(fpu.mul(a, b)) == m.v(a) * m.v(b))
    && (forall a, b {:trigger fpu.div(a, b)} :: m.v(b) != 0.0 ==> m.v(fpu.div(a, b)) == m.v(a) / m.v(b))
  }

  ghost predicate ExactPowers(fpu: Fpu, m: Reading) {
    && (forall a, b {:trigger fpu.pow(a, b)} :: m.v(fpu.pow(a, b)) == m.pow(m.v(a), m.v(b)))
    && (forall x, n: nat {:trigger IntPow(x, n)} :: m.pow(x, n as real) == IntPow(x, n))
  }

  ghost predicate ExactRest(fpu: Fpu, m: Reading) {
    && (forall a {:trigger fpu.toInt(a)} :: m.v(fpu.toInt(a)) == Trunc(m.v(a)) as real)
    && (forall a {:trigger fpu.isZero(a)} :: fpu.isZero(a) <==> m.v(a) == 0.0)
    && (forall a, b {:trigger fpu.less(a, b)} :: fpu.less(a, b) <==> m.v(a) < m.v(b))
    && (forall k: nat {:trigger fpu.ofInt(k)} :: m.v(fpu.ofInt(k)) == k as real)
    && (forall a {:trigger fpu.round(a)} :: m.v(fpu.round(a)) == m.v(a))
    && (forall name, a {:trigger fpu.unary(name, a)} :: m.v(fpu.unary(name, a)) == m.unary(name, m.v(a)))
  }

  ghost predicate Exact(fpu: Fpu, m: Reading) {
    ExactSums(fpu, m) && ExactProducts(fpu, m) && ExactPowers(fpu, m) && ExactRest(fpu, m)
  }

  // ----- operators

  /** An operator computes what it means, and refuses what has no meaning. */
  lemma OperatorMeans(fpu: Fpu, m: Reading, op: Op, l: number, r: number, x: real)
    requires Exact(fpu, m)
    ensures OpMeans(m, op, m.v(l), m.v(r), x)
       <==> ApplyRounded(fpu, op, l, r).Some? && x == m.v(ApplyRounded(fpu, op, l, r).value)
  {
    if op == Modulo && !fpu.isZero(r) {
      RemainderMeans(fpu, m, l, r);
    }
  }

  lemma RemainderMeans(fpu: Fpu, m: Reading, l: number, r: number)
    requires Exact(fpu, m) && m.v(r) != 0.0
    ensures m.v(fpu.sub(l, fpu.mul(fpu.toInt(fpu.div(l, r)), r)))
         == m.v(l) - Trunc(m.v(l) / m.v(r)) as real * m.v(r)
  {
    var q := fpu.toInt(fpu.div(l, r));
    assert m.v(q) == Trunc(m.v(l) / m.v(r)) as real;
    assert m.v(fpu.mul(q, r)) == m.v(q) * m.v(r);
  }

  // ----- sums

  function Read(m: Reading, ns: seq<number>): (xs: seq<real>)
    ensures |xs| == |ns| && forall i :: 0 <= i < |ns| ==> xs[i] == m.v(ns[i])
  {
    seq(|ns|, i requires 0 <= i < |ns| => m.v(ns[i]))
  }

  lemma ReadRest(m: Reading, ns: seq<number>)
    requires ns != []
    ensures Read(m, ns)[1..] == Read(m, ns[1..])
  {
  }

  lemma {:induction false} TotalIsSum(fpu: Fpu, m: Reading, acc: number, rest: seq<number>)
    requires Exact(fpu, m)
    ensures m.v(Total(fpu, acc, rest)) == m.v(acc) + SumOf(Read(m, rest))
    decreases rest
  {
    if rest != [] {
      TotalIsSum(fpu, m, fpu.add(acc, rest[0]), rest[1..]);
      ReadRest(m, rest);
      assert m.v(fpu.add(acc, rest[0])) == m.v(acc) + m.v(rest[0]);
    }
  }

  lemma {:induction false} SumSnoc(xs: seq<real>, x: real)
    ensures SumOf(xs + [x]) == SumOf(xs) + x
  {
    if xs == [] {
      assert [] + [x] == [x] && [x][1..] == [];
    } else {
      assert (xs + [x])[1..] == xs[1..] + [x];
      SumSnoc(xs[1..], x);
    }
  }

  lemma {:induction false} DistancesSnoc(xs: seq<real>, x: real, mean: real)
    ensures SquaredDistances(xs + [x], mean) == SquaredDistances(xs, mean) + (x - mean) * (x - mean)
  {
    if xs == [] {
      assert [] + [x] == [x] && [x][1..] == [];
      assert SquaredDistances([x][1..], mean) == 0.0;
    } else {
      assert (xs + [x])[1..] == xs[1..] + [x];
      DistancesSnoc(xs[1..], x, mean);
    }
  }

  lemma Square(x: real)
    ensures IntPow(x, 2) == x * x
  {
    assert IntPow(x, 0) == 1.0;
    assert IntPow(x, 1) == x * 1.0;
  }

  lemma SquareOf(fpu: Fpu, m: Reading, n: number, mean: number)
    requires Exact(fpu, m)
    ensures m.v(fpu.pow(fpu.sub(n, mean), fpu.ofInt(2))) == (m.v(n) - m.v(mean)) * (m.v(n) - m.v(mean))
  {
    var d := m.v(n) - m.v(mean);
    Square(d);
    assert m.pow(d, 2 as real) == IntPow(d, 2);
    assert m.v(fpu.ofInt(2)) == 2 as real;
  }

  lemma {:induction false} SquaresAreDistances(fpu: Fpu, m: Reading, mean: number, acc: number, args: seq<number>)
    requires Exact(fpu, m)
    ensures m.v(Squares(fpu, mean, acc, args)) == m.v(acc) + SquaredDistances(Read(m, args), m.v(mean))
    decreases args
  {
    if args != [] {
      var last := |args| - 1;
      var square := fpu.pow(fpu.sub(args[last], mean), fpu.ofInt(2));
      SquareOf(fpu, m, args[last], mean);
      SquaresAreDistances(fpu, m, mean, fpu.add(acc, square), args[..last]);
      assert Read(m, args) == Read(m, args[..last]) + [m.v(args[last])];
      DistancesSnoc(Read(m, args[..last]), m.v(args[last]), m.v(mean));
      assert m.v(fpu.add(acc, square)) == m.v(acc) + m.v(square);
    }
  }

  /** Neither the sum nor the squared distances depend on the order from the first to the last. */
  lemma {:induction false} SumReversed(m: Reading, vs: seq<number>, mean: real)
    ensures SumOf(Read(m, Reverse(vs))) == SumOf(Read(m, vs))
    ensures SquaredDistances(Read(m, Reverse(vs)), mean) == SquaredDistances(Read(m, vs), mean)
  {
    if vs != [] {
      SumReversed(m, vs[1..], mean);
      assert Read(m, Reverse(vs)) == Read(m, Reverse(vs[1..])) + [m.v(vs[0])];
      SumSnoc(Read(m, Reverse(vs[1..])), m.v(vs[0]));
      DistancesSnoc(Read(m, Reverse(vs[1..])), m.v(vs[0]), mean);
      ReadRest(m, vs);
    }
  }

  // ----- means and variances

  lemma Cancel(a: real, b: real, n: nat)
    requires n > 0 && a * n as real == b * n as real
    ensures a == b
  {
    var r := n as real;
    assert (a - b) * r == 0.0;
  }

  lemma QuotientBack(a: real, n: nat)
    requires n > 0
    ensures a / n as real * n as real == a
  {
  }

  lemma AverageIsMean(fpu: Fpu, m: Reading, args: seq<number>)
    requires Exact(fpu, m) && args != []
    ensures IsMean(Read(m, args), m.v(Average(fpu, args)))
  {
    var total := Total(fpu, args[0], args[1..]);
    TotalIsSum(fpu, m, args[0], args[1..]);
    ReadRest(m, args);
    assert m.v(total) == SumOf(Read(m, args));
    var n := |args|;
    assert m.v(fpu.ofInt(n)) == n as real;
    assert m.v(fpu.div(total, fpu.ofInt(n))) == m.v(total) / n as real;
    QuotientBack(m.v(total), n);
  }

  lemma VarianceIsMeanSquare(fpu: Fpu, m: Reading, args: seq<number>)
    requires Exact(fpu, m) && args != []
    ensures IsMeanSquare(Read(m, args), m.v(Average(fpu, args)), m.v(VarianceOf(fpu, args)))
  {
    var n, mean := |args|, Average(fpu, args);
    var squares := Squares(fpu, mean, fpu.ofInt(0), args);
    SquaresAreDistances(fpu, m, mean, fpu.ofInt(0), args);
    assert m.v(fpu.ofInt(0)) == 0 as real;
    assert m.v(fpu.ofInt(n)) == n as real;
    assert m.v(fpu.div(squares, fpu.ofInt(n))) == m.v(squares) / n as real;
    QuotientBack(m.v(squares), n);
  }

  // ----- extremes

  lemma ExactOrder(fpu: Fpu, m: Reading)
    requires Exact(fpu, m)
    ensures IsOrder(fpu.less)
  {
  }

  lemma SameElements(vs: seq<number>)
    ensures forall x :: x in Reverse(vs) <==> x in vs
  {
    forall x | x in vs
      ensures x in Reverse(vs)
    {
      var i :| 0 <= i < |vs| && vs[i] == x;
      assert Reverse(vs)[|vs| - 1 - i] == x;
    }
  }

  /** min and max give an argument that no argument is less than, or greater than. */
  lemma ExtremeCall(fpu: Fpu, vs: seq<number>) returns (low: number, high: number)
    requires IsOrder(fpu.less) && vs != []
    ensures CallValue(fpu, Min, vs) == Some(fpu.round(low)) && low in vs
    ensures forall x :: x in vs ==> !fpu.less(x, low)
    ensures CallValue(fpu, Max, vs) == Some(fpu.round(high)) && high in vs
    ensures forall x :: x in vs ==> !fpu.less(high, x)
  {
    var args := Reverse(vs);
    low, high := Least(fpu, args[0], args[1..]), Greatest(fpu, args[0], args[1..]);
    ExtremesAreExtreme(fpu, args[0], args[1..]);
    assert args == [args[0]] + args[1..];
    SameElements(vs);
  }

  lemma ReadIn(m: Reading, vs: seq<number>)
    ensures forall n :: n in vs ==> m.v(n) in Read(m, vs)
    ensures forall y :: y in Read(m, vs) ==> exists n :: n in vs && y == m.v(n)
  {
    forall n | n in vs
      ensures m.v(n) in Read(m, vs)
    {
      var i :| 0 <= i < |vs| && vs[i] == n;
      assert Read(m, vs)[i] == m.v(n);
    }
    forall y | y in Read(m, vs)
      ensures exists n :: n in vs && y == m.v(n)
    {
      var i :| 0 <= i < |vs| && Read(m, vs)[i] == y;
      assert vs[i] in vs;
    }
  }

  lemma ExtremeMeans(fpu: Fpu, m: Reading, vs: seq<number>)
    requires Exact(fpu, m) && vs != []
    ensures CallMeans(m, Min, Read(m, vs), m.v(CallValue(fpu, Min, vs).value))
    ensures CallMeans(m, Max, Read(m, vs), m.v(CallValue(fpu, Max, vs).value))
  {
    ExactOrder(fpu, m);
    var low, high := ExtremeCall(fpu, vs);
    ReadIn(m, vs);
    assert m.v(fpu.round(low)) == m.v(low) && m.v(fpu.round(high)) == m.v(high);
    forall y | y in Read(m, vs)
      ensures m.v(low) <= y <= m.v(high)
    {
      var n :| n in vs && y == m.v(n);
      assert !fpu.less(n, low) && !fpu.less(high, n);
    }
  }

  // ----- the median

  lemma {:induction false} CountsSum(xs: seq<real>, ys: seq<real>, x: real)
    ensures LessThan(xs + ys, x) == LessThan(xs, x) + LessThan(ys, x)
    ensures UpTo(xs + ys, x) == UpTo(xs, x) + UpTo(ys, x)
  {
    if xs == [] {
      assert xs + ys == ys;
    } else {
      assert (xs + ys)[1..] == xs[1..] + ys;
      CountsSum(xs[1..], ys, x);
    }
  }

  lemma {:induction false} CountsBound(xs: seq<real>, x: real)
    ensures LessThan(xs, x) <= |xs|
    ensures (forall i :: 0 <= i < |xs| ==> x <= xs[i]) ==> LessThan(xs, x) == 0
    ensures (forall i :: 0 <= i < |xs| ==> xs[i] <= x) ==> UpTo(xs, x) == |xs|
  {
    if xs != [] {
      CountsBound(xs[1..], x);
    }
  }

  lemma {:induction false} CountsBelow(xs: seq<real>, x: real, y: real)
    requires x < y
    ensures UpTo(xs, x) <= LessThan(xs, y)
  {
    if xs != [] {
      CountsBelow(xs[1..], x, y);
    }
  }

  /** The k-th of an ascending list. */
  lemma MiddleCounts(xs: seq<real>, k: nat)
    requires 0 < k <= |xs| && forall i, j :: 0 <= i < j < |xs| ==> xs[i] <= xs[j]
    ensures LessThan(xs, xs[k - 1]) < k <= UpTo(xs, xs[k - 1])
  {
    MiddleLess(xs, k);
    MiddleUpTo(xs, k);
  }

  lemma MiddleLess(xs: seq<real>, k: nat)
    requires 0 < k <= |xs| && forall i, j :: 0 <= i < j < |xs| ==> xs[i] <= xs[j]
    ensures LessThan(xs, xs[k - 1]) < k
  {
    var x := xs[k - 1];
    assert xs == xs[..k - 1] + xs[k - 1..];
    CountsSum(xs[..k - 1], xs[k - 1..], x);
    CountsBound(xs[..k - 1], x);
    CountsBound(xs[k - 1..], x);
  }

  lemma MiddleUpTo(xs: seq<real>, k: nat)
    requires 0 < k <= |xs| && forall i, j :: 0 <= i < j < |xs| ==> xs[i] <= xs[j]
    ensures k <= UpTo(xs, xs[k - 1])
  {
    var x := xs[k - 1];
    assert xs == xs[..k] + xs[k..];
    CountsSum(xs[..k], xs[k..], x);
    CountsBound(xs[..k], x);
  }

  lemma {:induction false} CountsInserted(
    m: Reading, less: (number, number) -> bool, n: number, s: seq<number>, x: real)
    ensures LessThan(Read(m, InsertSorted(less, n, s)), x) == LessThan([m.v(n)] + Read(m, s), x)
    ensures UpTo(Read(m, InsertSorted(less, n, s)), x) == UpTo([m.v(n)] + Read(m, s), x)
  {
    var y := m.v(n);
    CountsSum([y], Read(m, s), x);
    if s != [] && less(s[0], n) {
      var rest := InsertSorted(less, n, s[1..]);
      CountsInserted(m, less, n, s[1..], x);
      CountsSum([y], Read(m, s[1..]), x);
      assert Read(m, [s[0]] + rest) == [m.v(s[0])] + Read(m, rest);
      assert Read(m, s) == [m.v(s[0])] + Read(m, s[1..]);
      CountsSum([m.v(s[0])], Read(m, rest), x);
      CountsSum([m.v(s[0])], Read(m, s[1..]), x);
    } else {
      assert Read(m, [n] + s) == [y] + Read(m, s);
    }
  }

  lemma {:induction false} CountsSorted(
    m: Reading, less: (number, number) -> bool, s: seq<number>, rest: seq<number>, x: real)
    ensures LessThan(Read(m, InsertAll(less, s, rest)), x) == LessThan(Read(m, s) + Read(m, rest), x)
    ensures UpTo(Read(m, InsertAll(less, s, rest)), x) == UpTo(Read(m, s) + Read(m, rest), x)
    decreases rest
  {
    CountsSum(Read(m, s), Read(m, rest), x);
    if rest == [] {
      assert Read(m, s) + Read(m, rest) == Read(m, s);
    } else {
      var more := InsertSorted(less, rest[0], s);
      CountsSorted(m, less, more, rest[1..], x);
      CountsSum(Read(m, more), Read(m, rest[1..]), x);
      CountsInserted(m, less, rest[0], s, x);
      CountsSum([m.v(rest[0])], Read(m, s), x);
      assert Read(m, rest) == [m.v(rest[0])] + Read(m, rest[1..]);
      CountsSum([m.v(rest[0])], Read(m, rest[1..]), x);
    }
  }

  lemma {:induction false} CountsReversed(m: Reading, vs: seq<number>, x: real)
    ensures LessThan(Read(m, Reverse(vs)), x) == LessThan(Read(m, vs), x)
    ensures UpTo(Read(m, Reverse(vs)), x) == UpTo(Read(m, vs), x)
  {
    if vs != [] {
      var y, front := m.v(vs[0]), Read(m, Reverse(vs[1..]));
      CountsReversed(m, vs[1..], x);
      assert Read(m, Reverse(vs)) == front + [y];
      CountsSum(front, [y], x);
      assert Read(m, vs) == [y] + Read(m, vs[1..]);
      CountsSum([y], Read(m, vs[1..]), x);
    }
  }

  /** median gives the ceil(n/2)-th of its n arguments in ascending order. */
  lemma MedianCall(fpu: Fpu, vs: seq<number>) returns (sorted: seq<number>)
    requires IsOrder(fpu.less) && vs != []
    ensures multiset(sorted) == multiset(vs) && |sorted| == |vs| && Ascending(fpu.less, sorted)
    ensures CallValue(fpu, Median, vs) == Some(fpu.round(sorted[(|vs| + 1) / 2 - 1]))
  {
    sorted := MedianIsMiddle(fpu, Reverse(vs));
    ReverseIsPermutation(vs);
  }

  lemma {:induction false} ReverseIsPermutation(vs: seq<number>)
    ensures multiset(Reverse(vs)) == multiset(vs)
  {
    if vs != [] {
      ReverseIsPermutation(vs[1..]);
      assert vs == [vs[0]] + vs[1..];
    }
  }

  lemma MedianMeans(fpu: Fpu, m: Reading, vs: seq<number>)
    requires Exact(fpu, m) && vs != []
    ensures CallMeans(m, Median, Read(m, vs), m.v(CallValue(fpu, Median, vs).value))
  {
    var args, k := Reverse(vs), (|vs| + 1) / 2;
    var middle := MedianOf(fpu, args);
    assert m.v(fpu.round(middle)) == m.v(middle);
    MiddleInOrder(fpu, m, args, k);
    CountsReversed(m, vs, m.v(middle));
    SameElements(vs);
    ReadIn(m, vs);
  }

  lemma AscendingRead(fpu: Fpu, m: Reading, sorted: seq<number>)
    requires Exact(fpu, m) && Ascending(fpu.less, sorted)
    ensures forall i, j :: 0 <= i < j < |sorted| ==> Read(m, sorted)[i] <= Read(m, sorted)[j]
  {
    forall i, j | 0 <= i < j < |sorted|
      ensures Read(m, sorted)[i] <= Read(m, sorted)[j]
    {
      assert !fpu.less(sorted[j], sorted[i]);
    }
  }

  /** The middle entry of the sorted list among the arguments. */
  lemma MiddleInOrder(fpu: Fpu, m: Reading, args: seq<number>, k: nat)
    requires Exact(fpu, m) && args != [] && k == (|args| + 1) / 2
    ensures MedianOf(fpu, args) in args
    ensures LessThan(Read(m, args), m.v(MedianOf(fpu, args))) < k <= UpTo(Read(m, args), m.v(MedianOf(fpu, args)))
  {
    ExactOrder(fpu, m);
    var sorted := InsertAll(fpu.less, [args[0]], args[1..]);
    InsertAllSorts(fpu.less, [args[0]], args[1..]);
    MiddleIn(fpu.less, args, k);
    AscendingRead(fpu, m, sorted);
    MiddleCounts(Read(m, sorted), k);
    CountsSorted(m, fpu.less, [args[0]], args[1..], m.v(sorted[k - 1]));
    assert Read(m, [args[0]]) + Read(m, args[1..]) == Read(m, args);
  }

  lemma MiddleIn(less: (number, number) -> bool, args: seq<number>, k: nat)
    requires IsOrder(less) && 0 < k <= |args|
    ensures var sorted := InsertAll(less, [args[0]], args[1..]);
      |sorted| == |args| && sorted[k - 1] in args
  {
    var sorted := InsertAll(less, [args[0]], args[1..]);
    InsertAllSorts(less, [args[0]], args[1..]);
    InsertAllLength(less, [args[0]], args[1..]);
    assert args == [args[0]] + args[1..];
    assert sorted[k - 1] in multiset(sorted);
  }

  // ----- calls

  lemma MeanIsUnique(xs: seq<real>, x: real, y: real)
    requires xs != [] && IsMean(xs, x) && IsMean(xs, y)
    ensures x == y
  {
    Cancel(x, y, |xs|);
  }

  lemma MiddleIsUnique(xs: seq<real>, x: real, y: real, k: nat)
    requires LessThan(xs, x) < k <= UpTo(xs, x) && LessThan(xs, y) < k <= UpTo(xs, y)
    ensures x == y
  {
    if x < y {
      CountsBelow(xs, x, y);
    } else if y < x {
      CountsBelow(xs, y, x);
    }
  }

  lemma VarianceIsUnique(m: Reading, xs: seq<real>, x: real, y: real)
    requires xs != [] && CallMeans(m, Var, xs, x) && CallMeans(m, Var, xs, y)
    ensures x == y
  {
    var a :| IsMean(xs, a) && IsMeanSquare(xs, a, x);
    var b :| IsMean(xs, b) && IsMeanSquare(xs, b, y);
    MeanIsUnique(xs, a, b);
    MeanSquareIsUnique(xs, a, x, y);
  }

  lemma MeanSquareIsUnique(xs: seq<real>, mean: real, x: real, y: real)
    requires xs != [] && IsMeanSquare(xs, mean, x) && IsMeanSquare(xs, mean, y)
    ensures x == y
  {
    Cancel(x, y, |xs|);
  }

  /** What a call means is one number at most. */
  lemma CallIsUnique(m: Reading, f: Func, xs: seq<real>, x: real, y: real)
    requires xs != [] && CallMeans(m, f, xs, x) && CallMeans(m, f, xs, y)
    ensures x == y
  {
    match f {
      case Avg => MeanIsUnique(xs, x, y);
      case Mean => MeanIsUnique(xs, x, y);
      case Median => MiddleIsUnique(xs, x, y, (|xs| + 1) / 2);
      case Var => VarianceIsUnique(m, xs, x, y);
      case _ =>
    }
  }

  /** The value of a call has the meaning of the call. */
  lemma CallMeansValue(fpu: Fpu, m: Reading, f: Func, vs: seq<number>)
    requires Exact(fpu, m) && vs != [] && CallValue(fpu, f, vs).Some?
    ensures CallMeans(m, f, Read(m, vs), m.v(CallValue(fpu, f, vs).value))
  {
    match f {
      case Min => ExtremeMeans(fpu, m, vs);
      case Max => ExtremeMeans(fpu, m, vs);
      case Median => MedianMeans(fpu, m, vs);
      case Unary(name) =>
        assert m.v(fpu.round(fpu.unary(name, vs[0]))) == m.unary(name, m.v(vs[0]));
      case Sum => SumMeans(fpu, m, vs);
      case Var => VarianceMeans(fpu, m, vs);
      case _ => AverageMeans(fpu, m, vs);
    }
  }

  lemma SumMeans(fpu: Fpu, m: Reading, vs: seq<number>)
    requires Exact(fpu, m) && vs != []
    ensures m.v(CallValue(fpu, Sum, vs).value) == SumOf(Read(m, vs))
  {
    var args := Reverse(vs);
    TotalIsSum(fpu, m, args[0], args[1..]);
    ReadRest(m, args);
    SumReversed(m, vs, 0.0);
    var total := Total(fpu, args[0], args[1..]);
    assert m.v(fpu.round(total)) == m.v(total);
  }

  lemma AverageMeans(fpu: Fpu, m: Reading, vs: seq<number>)
    requires Exact(fpu, m) && vs != []
    ensures IsMean(Read(m, vs), m.v(Average(fpu, Reverse(vs))))
    ensures IsMean(Read(m, vs), m.v(CallValue(fpu, Avg, vs).value))
    ensures CallValue(fpu, Mean, vs) == CallValue(fpu, Avg, vs)
  {
    var average := Average(fpu, Reverse(vs));
    AverageIsMean(fpu, m, Reverse(vs));
    MeanReversed(m, vs, m.v(average));
    assert m.v(fpu.round(average)) == m.v(average);
  }

  lemma MeanReversed(m: Reading, vs: seq<number>, mean: real)
    requires IsMean(Read(m, Reverse(vs)), mean)
    ensures IsMean(Read(m, vs), mean)
  {
    SumReversed(m, vs, 0.0);
  }

  lemma VarianceMeans(fpu: Fpu, m: Reading, vs: seq<number>)
    requires Exact(fpu, m) && vs != []
    ensures CallMeans(m, Var, Read(m, vs), m.v(CallValue(fpu, Var, vs).value))
  {
    var args := Reverse(vs);
    var mean, variance := m.v(Average(fpu, args)), VarianceOf(fpu, args);
    AverageMeans(fpu, m, vs);
    VarianceIsMeanSquare(fpu, m, args);
    SumReversed(m, vs, mean);
    assert m.v(fpu.round(variance)) == m.v(variance);
  }

  lemma CallMeaning(fpu: Fpu, m: Reading, f: Func, vs: seq<number>, x: real)
    requires Exact(fpu, m) && vs != []
    ensures CallMeans(m, f, Read(m, vs), x)
       <==> CallValue(fpu, f, vs).Some? && x == m.v(CallValue(fpu, f, vs).value)
  {
    if CallValue(fpu, f, vs).Some? {
      CallMeansValue(fpu, m, f, vs);
      if CallMeans(m, f, Read(m, vs), x) {
        CallIsUnique(m, f, Read(m, vs), x, m.v(CallValue(fpu, f, vs).value));
      }
    }
  }

  // ----- trees

  /** The value of a tree is the one number that it means; a tree without a value means none. */
  ghost predicate ValueMeans(fpu: Fpu, m: Reading, e: Expr) {
    forall x :: Means(m, e, x) <==> Value(fpu, e).Some? && x == m.v(Value(fpu, e).value)
  }

  ghost predicate ValuesMean(fpu: Fpu, m: Reading, args: Args) {
    forall xs :: ArgsMean(m, args, xs) <==> Values(fpu, args).Some? && xs == Read(m, Values(fpu, args).value)
  }

  lemma {:induction false} TreeMeans(fpu: Fpu, m: Reading, e: Expr)
    requires Exact(fpu, m)
    ensures ValueMeans(fpu, m, e)
    decreases e
  {
    match e {
      case Literal(_) =>
      case Paren(e') => TreeMeans(fpu, m, e');
      case Binary(op, l, r) =>
        TreeMeans(fpu, m, l);
        TreeMeans(fpu, m, r);
        BinaryMeans(fpu, m, op, l, r);
      case Call(f, args) =>
        ArgsMeans(fpu, m, args);
        CallTreeMeans(fpu, m, f, args);
    }
  }

  lemma BinaryMeans(fpu: Fpu, m: Reading, op: Op, l: Expr, r: Expr)
    requires Exact(fpu, m) && ValueMeans(fpu, m, l) && ValueMeans(fpu, m, r)
    ensures ValueMeans(fpu, m, Binary(op, l, r))
  {
    if Value(fpu, l).Some? && Value(fpu, r).Some? {
      var a, b := Value(fpu, l).value, Value(fpu, r).value;
      forall x
        ensures Means(m, Binary(op, l, r), x)
           <==> ApplyRounded(fpu, op, a, b).Some? && x == m.v(ApplyRounded(fpu, op, a, b).value)
      {
        OperatorMeans(fpu, m, op, a, b, x);
        assert Means(m, l, m.v(a)) && Means(m, r, m.v(b));
      }
    }
  }

  lemma CallTreeMeans(fpu: Fpu, m: Reading, f: Func, args: Args)
    requires Exact(fpu, m) && ValuesMean(fpu, m, args)
    ensures ValueMeans(fpu, m, Call(f, args))
  {
    if Values(fpu, args).Some? {
      var vs := Values(fpu, args).value;
      forall x
        ensures Means(m, Call(f, args), x)
           <==> CallValue(fpu, f, vs).Some? && x == m.v(CallValue(fpu, f, vs).value)
      {
        CallMeaning(fpu, m, f, vs, x);
        assert ArgsMean(m, args, Read(m, vs));
      }
    }
  }

  lemma {:induction false} ArgsMeans(fpu: Fpu, m: Reading, args: Args)
    requires Exact(fpu, m)
    ensures ValuesMean(fpu, m, args)
    decreases args
  {
    TreeMeans(fpu, m, args.e);
    if args.More? {
      ArgsMeans(fpu, m, args.rest);
    }
    forall xs
      ensures ArgsMean(m, args, xs) <==> Values(fpu, args).Some? && xs == Read(m, Values(fpu, args).value)
    {
      ArgsMeanOne(fpu, m, args, xs);
    }
  }

  lemma ArgsMeanOne(fpu: Fpu, m: Reading, args: Args, xs: seq<real>)
    requires ValueMeans(fpu, m, args.e) && (args.More? ==> ValuesMean(fpu, m, args.rest))
    ensures ArgsMean(m, args, xs) <==> Values(fpu, args).Some? && xs == Read(m, Values(fpu, args).value)
  {
    if Values(fpu, args).Some? {
      ReadRest(m, Values(fpu, args).value);
    }
    if xs != [] {
      assert xs == [xs[0]] + xs[1..];
    }
  }

  /**
   With exact arithmetic the calculator leaves the number that the tree means, and
   fails exactly if the tree means none or calls a one-argument function where
   something else is on the stack.
   */
  lemma CalculatorMeans(fpu: Fpu, m: Reading, e: Expr)
    requires WellFormed(e) && Exact(fpu, m)
    ensures match Run(fpu, Tokens(e), State([], []))
      case Ok(out) =>
        && Placed(e, 0) && |out| == 1 && out[0].Val?
        && forall x :: Means(m, e, x) <==> x == m.v(out[0].n)
      case Fault => !Placed(e, 0) || forall x :: !Means(m, e, x)
      case Crash => false
  {
    CalculatorIsCorrect(fpu, e);
    TreeMeans(fpu, m, e);
  }
}
