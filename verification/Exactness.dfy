/**
 Arithmetic without rounding, as an example of what the theorems of module Meanings
 ask for: every double is a quotient of two integers, and these can be of any size.
 */
module Exactness {
  import opened Calculator
  import opened Meanings

  // ----- quotients

  /** The value of a quotient; the special values are read as 0 here. */
  function Quotient(n: number): real {
    match n
    case Finite(a, d) => a as real / (d + 1) as real
    case Special(_) => 0.0
  }

  /** Every double as a quotient with a positive denominator. */
  function Over(n: number): nat {
    if n.Finite? then n.denominator + 1 else 1
  }

  function Above(n: number): int {
    if n.Finite? then n.numerator else 0
  }

  function Make(a: int, b: nat): (n: number)
    requires b > 0
    ensures Quotient(n) == a as real / b as real
  {
    Finite(a, b - 1)
  }

  lemma Parts(n: number)
    ensures Over(n) > 0 && Quotient(n) * Over(n) as real == Above(n) as real
  {
  }

  lemma {:induction false} ProductCast(a: int, b: nat)
    ensures (a * b) as real == a as real * b as real
  {
    if b > 0 {
      ProductCast(a, b - 1);
      assert a * b == a * (b - 1) + a;
      assert a as real * b as real == a as real * (b - 1) as real + a as real;
    }
  }

  lemma DivisionIs(x: real, a: real, b: real)
    requires b != 0.0 && x * b == a
    ensures a / b == x
  {
  }

  lemma Positive(a: real, b: real)
    requires a > 0.0 && b > 0.0
    ensures a * b > 0.0
  {
  }

  // ----- the operations

  function SumFraction(x: number, y: number): number {
    ProductPositive(Over(x), Over(y));
    Make(Above(x) * Over(y) + Above(y) * Over(x), Over(x) * Over(y))
  }

  lemma ProductPositive(a: nat, b: nat)
    requires a > 0 && b > 0
    ensures a * b > 0
  {
  }

  function Negative(x: number): number {
    Make(-Above(x), Over(x))
  }

  function ProductFraction(x: number, y: number): number {
    ProductPositive(Over(x), Over(y));
    Make(Above(x) * Above(y), Over(x) * Over(y))
  }

  function Inverse(x: number): number {
    if Above(x) > 0 then Make(Over(x), Above(x))
    else if Above(x) < 0 then Make(-(Over(x) as int), -Above(x))
    else Make(0, 1)
  }

  lemma MadeSum(x: number, y: number)
    ensures Over(x) * Over(y) > 0
    ensures Quotient(SumFraction(x, y))
         == (Above(x) * Over(y) + Above(y) * Over(x)) as real / (Over(x) * Over(y)) as real
  {
    ProductPositive(Over(x), Over(y));
  }

  lemma MadeProduct(x: number, y: number)
    ensures Over(x) * Over(y) > 0
    ensures Quotient(ProductFraction(x, y)) == (Above(x) * Above(y)) as real / (Over(x) * Over(y)) as real
  {
    ProductPositive(Over(x), Over(y));
  }

  lemma PlusExact(x: number, y: number)
    ensures Quotient(SumFraction(x, y)) == Quotient(x) + Quotient(y)
  {
    Parts(x);
    Parts(y);
    MadeSum(x, y);
    FractionSum(Quotient(x), Quotient(y), Above(x), Over(x), Above(y), Over(y));
  }

  lemma FractionSum(p: real, q: real, a: int, b: nat, c: int, d: nat)
    requires b > 0 && d > 0 && b * d > 0 && p * b as real == a as real && q * d as real == c as real
    ensures (a * d + c * b) as real / (b * d) as real == p + q
  {
    SumCast(a, d, c, b);
    ProductCast(b, d);
    SumOfQuotients(p, q, a as real, b as real, c as real, d as real);
  }

  lemma FractionProduct(p: real, q: real, a: int, b: nat, c: int, d: nat)
    requires b > 0 && d > 0 && b * d > 0 && p * b as real == a as real && q * d as real == c as real
    ensures (a * c) as real / (b * d) as real == p * q
  {
    ProductOfInts(a, c);
    ProductCast(b, d);
    ProductOfQuotients(p, q, a as real, b as real, c as real, d as real);
  }

  lemma SumCast(a: int, d: nat, c: int, b: nat)
    ensures (a * d + c * b) as real == a as real * d as real + c as real * b as real
  {
    ProductCast(a, d);
    ProductCast(c, b);
  }

  lemma SumOfQuotients(p: real, q: real, a: real, b: real, c: real, d: real)
    requires b > 0.0 && d > 0.0 && p * b == a && q * d == c
    ensures b * d != 0.0 && (a * d + c * b) / (b * d) == p + q
  {
    Positive(b, d);
    assert (p + q) * (b * d) == p * b * d + q * d * b;
    DivisionIs(p + q, a * d + c * b, b * d);
  }

  lemma NegativeExact(x: number)
    ensures Quotient(Negative(x)) == -Quotient(x)
  {
    Parts(x);
    DivisionIs(-Quotient(x), (-Above(x)) as real, Over(x) as real);
  }

  lemma TimesExact(x: number, y: number)
    ensures Quotient(ProductFraction(x, y)) == Quotient(x) * Quotient(y)
  {
    Parts(x);
    Parts(y);
    MadeProduct(x, y);
    FractionProduct(Quotient(x), Quotient(y), Above(x), Over(x), Above(y), Over(y));
  }

  lemma ProductOfQuotients(p: real, q: real, a: real, b: real, c: real, d: real)
    requires b > 0.0 && d > 0.0 && p * b == a && q * d == c
    ensures b * d != 0.0 && (a * c) / (b * d) == p * q
  {
    Positive(b, d);
    Rearrange(p, q, b, d);
    DivisionIs(p * q, a * c, b * d);
  }

  lemma Rearrange(p: real, q: real, b: real, d: real)
    ensures (p * q) * (b * d) == (p * b) * (q * d)
  {
  }

  lemma ProductOfInts(a: int, b: int)
    ensures (a * b) as real == a as real * b as real
  {
    if b >= 0 {
      ProductCast(a, b);
    } else {
      ProductCast(a, -b);
      assert a * b == -(a * -b);
      assert a as real * b as real == -(a as real * (-b) as real);
    }
  }

  lemma InverseExact(x: number)
    requires Quotient(x) != 0.0
    ensures Quotient(Inverse(x)) == 1.0 / Quotient(x)
  {
    Parts(x);
    var q, b, a := Quotient(x), Over(x) as real, Above(x) as real;
    assert Above(x) != 0;
    InverseOfQuotient(q, a, b);
    if Above(x) < 0 {
      assert (-(Over(x) as int)) as real == -b && (-Above(x)) as real == -a;
    }
  }

  lemma InverseOfQuotient(q: real, a: real, b: real)
    requires q != 0.0 && a != 0.0 && b != 0.0 && q * b == a
    ensures b / a == 1.0 / q && -b / -a == 1.0 / q
  {
  }

  function Powered(x: number, n: nat): number {
    if n == 0 then Make(1, 1) else ProductFraction(x, Powered(x, n - 1))
  }

  lemma {:induction false} PoweredExact(x: number, n: nat)
    ensures Quotient(Powered(x, n)) == IntPow(Quotient(x), n)
  {
    if n > 0 {
      PoweredExact(x, n - 1);
      PoweredOnce(x, n);
      PowerStep(Quotient(x), Quotient(Powered(x, n - 1)), n);
    }
  }

  lemma PoweredOnce(x: number, n: nat)
    requires n > 0
    ensures Quotient(Powered(x, n)) == Quotient(x) * Quotient(Powered(x, n - 1))
  {
    var p := Powered(x, n - 1);
    assert Powered(x, n) == ProductFraction(x, p);
    TimesExact(x, p);
  }

  lemma PowerStep(q: real, p: real, n: nat)
    requires n > 0 && p == IntPow(q, n - 1)
    ensures q * p == IntPow(q, n)
  {
  }

  predicate IsNat(x: real) {
    x >= 0.0 && x.Floor as real == x
  }

  /** Arithmetic of quotients. */
  function Exactly(): Fpu {
    Fpu(
      (a, b) => SumFraction(a, b),
      (a, b) => SumFraction(a, Negative(b)),
      (a, b) => ProductFraction(a, b),
      (a, b) => ProductFraction(a, Inverse(b)),
      (a, b) => if IsNat(Quotient(b)) then Powered(a, Quotient(b).Floor) else Make(0, 1),
      a => Make(Trunc(Quotient(a)), 1),
      a => Quotient(a) == 0.0,
      (a, b) => Quotient(a) < Quotient(b),
      (n: nat) => Make(n, 1),
      a => a,
      (name, a) => a)
  }

  function Quotients(): Reading {
    Reading(
      n => Quotient(n),
      (x, y) => if IsNat(y) then IntPow(x, y.Floor) else 0.0,
      (name, x) => x)
  }

  lemma DivExact(a: number, b: number)
    requires Quotient(b) != 0.0
    ensures Quotient(ProductFraction(a, Inverse(b))) == Quotient(a) / Quotient(b)
  {
    InverseExact(b);
    TimesExact(a, Inverse(b));
    DivideByTimes(Quotient(a), Quotient(b));
  }

  lemma DivideByTimes(x: real, y: real)
    requires y != 0.0
    ensures x * (1.0 / y) == x / y
  {
  }

  lemma NatIsNat(n: nat)
    ensures IsNat(n as real) && (n as real).Floor == n
  {
  }

  lemma SumsExact(a: number, b: number)
    ensures Quotient(Exactly().add(a, b)) == Quotient(a) + Quotient(b)
    ensures Quotient(Exactly().sub(a, b)) == Quotient(a) - Quotient(b)
  {
    PlusExact(a, b);
    NegativeExact(b);
    PlusExact(a, Negative(b));
  }

  lemma ProductsExact(a: number, b: number)
    ensures Quotient(Exactly().mul(a, b)) == Quotient(a) * Quotient(b)
    ensures Quotient(b) != 0.0 ==> Quotient(Exactly().div(a, b)) == Quotient(a) / Quotient(b)
  {
    TimesExact(a, b);
    if Quotient(b) != 0.0 {
      DivExact(a, b);
    }
  }

  lemma PowersExact(a: number, b: number)
    ensures Quotient(Exactly().pow(a, b)) == Quotients().pow(Quotient(a), Quotient(b))
  {
    if IsNat(Quotient(b)) {
      PoweredExact(a, Quotient(b).Floor);
    }
  }

  lemma AllSumsExact()
    ensures ExactSums(Exactly(), Quotients())
  {
    forall a, b
      ensures Quotient(Exactly().add(a, b)) == Quotient(a) + Quotient(b)
      ensures Quotient(Exactly().sub(a, b)) == Quotient(a) - Quotient(b)
    {
      SumsExact(a, b);
    }
  }

  lemma AllProductsExact()
    ensures ExactProducts(Exactly(), Quotients())
  {
    forall a, b
      ensures Quotient(Exactly().mul(a, b)) == Quotient(a) * Quotient(b)
      ensures Quotient(b) != 0.0 ==> Quotient(Exactly().div(a, b)) == Quotient(a) / Quotient(b)
    {
      ProductsExact(a, b);
    }
  }

  lemma AllPowersExact()
    ensures ExactPowers(Exactly(), Quotients())
  {
    forall a, b
      ensures Quotient(Exactly().pow(a, b)) == Quotients().pow(Quotient(a), Quotient(b))
    {
      PowersExact(a, b);
    }
    forall x, n: nat
      ensures Quotients().pow(x, n as real) == IntPow(x, n)
    {
      NatIsNat(n);
    }
  }

  /** Exact arithmetic is possible: with doubles that are quotients of integers of any size. */
  lemma ExactIsPossible()
    ensures Exact(Exactly(), Quotients())
  {
    AllSumsExact();
    AllProductsExact();
    AllPowersExact();
  }
}
