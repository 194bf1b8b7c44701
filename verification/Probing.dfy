/**
 Arithmetic behind the open-addressing table of src/ghash.c: powers of two, the
 mask of a table size, and the triangular probe sequence
 start, start + 1, start + 1 + 2, ... taken modulo the table size.
 */
module Probing {

  function Pow2(n: nat): (p: nat)
    ensures p >= 1
  {
    if n == 0 then 1 else 2 * Pow2(n - 1)
  }

  lemma Pow2Monotonic(m: nat, n: nat)
    requires m <= n
    ensures Pow2(m) <= Pow2(n)
  {
    if m < n {
      Pow2Monotonic(m, n - 1);
    }
  }

  /** Bitwise "and" of two non-negative integers, bit by bit. */
  function BitAnd(x: nat, y: nat): nat {
    if x == 0 || y == 0 then 0
    else 2 * BitAnd(x / 2, y / 2) + (x % 2) * (y % 2)
  }

  /** Masking with size - 1 is reduction modulo size, when size is a power of two. */
  lemma {:induction false} MaskIsModulo(x: nat, n: nat)
    ensures BitAnd(x, Pow2(n) - 1) == x % Pow2(n)
  {
    if n == 0 {
    } else if x == 0 {
      SmallModulo(0, Pow2(n));
    } else {
      var half := Pow2(n - 1);
      MaskIsModulo(x / 2, n - 1);
      assert (Pow2(n) - 1) / 2 == half - 1 && (Pow2(n) - 1) % 2 == 1;
      HalveModulo(x, half);
    }
  }

  lemma SmallModulo(x: nat, m: nat)
    requires x < m
    ensures x % m == x
  {
  }

  lemma HalveModulo(x: nat, half: nat)
    requires half >= 1
    ensures x % (2 * half) == 2 * ((x / 2) % half) + x % 2
  {
    var q, r := (x / 2) / half, (x / 2) % half;
    var low := 2 * r + x % 2;
    assert x / 2 == q * half + r;
    assert x == (2 * half) * q + low;
    ModuloUnique(x, 2 * half, q, low);
  }

  lemma QuotientUnique(m: nat, q: int, r: int, q': int, r': int)
    requires 0 <= r < m && 0 <= r' < m
    requires m * q + r == m * q' + r'
    ensures q == q' && r == r'
  {
    if q < q' {
      MultipleSpread(m, q, q');
    } else if q' < q {
      MultipleSpread(m, q', q);
    }
  }

  lemma MultipleSpread(m: nat, a: int, b: int)
    requires a < b
    ensures m * b >= m * a + m
  {
    assert m * b == m * a + m + m * (b - a - 1);
  }

  lemma ModuloUnique(x: nat, m: nat, q: int, r: int)
    requires 0 <= r < m
    requires x == m * q + r
    ensures x % m == r
  {
    var q', r' := x / m, x % m;
    QuotientUnique(m, q, r, q', r');
  }

  /** Adding before or after a reduction modulo m makes no difference. */
  lemma AddModulo(x: nat, d: nat, m: nat)
    requires m >= 1
    ensures (x + d) % m == (x % m + d) % m
  {
    var q, r := x / m, x % m;
    var q', r' := (r + d) / m, (r + d) % m;
    assert m * (q + q') == m * q + m * q';
    ModuloUnique(x + d, m, q + q', r');
  }

  /** Numbers with the same residue differ by a multiple. */
  lemma SameResidue(x: nat, y: nat, m: nat) returns (k: int)
    requires m >= 1
    requires x % m == y % m
    ensures y - x == k * m
  {
    var q, q' := x / m, y / m;
    k := q' - q;
    assert k * m == m * q' - m * q;
  }

  /** The k-th triangular number, 1 + 2 + ... + k. */
  function Triangle(k: nat): nat {
    if k == 0 then 0 else Triangle(k - 1) + k
  }

  lemma {:induction false} TriangleClosed(k: nat)
    ensures 2 * Triangle(k) == k * (k + 1)
  {
    if k > 0 {
      TriangleClosed(k - 1);
    }
  }

  /** The slot looked at in the k-th step of a probe, in a table of 2^n slots. */
  function Probe(start: nat, k: nat, n: nat): (slot: nat)
    ensures slot < Pow2(n)
  {
    (start + Triangle(k)) % Pow2(n)
  }

  /** The loop of the source adds the step number to the slot and masks the sum. */
  lemma ProbeStep(start: nat, k: nat, n: nat, slot: nat, mask: nat)
    requires slot == Probe(start, k, n) && mask == Pow2(n) - 1
    ensures BitAnd(slot + (k + 1), mask) == Probe(start, k + 1, n)
  {
    MaskIsModulo(slot + (k + 1), n);
    AddModulo(start + Triangle(k), k + 1, Pow2(n));
  }

  lemma ProbeStarts(start: nat, n: nat)
    requires start < Pow2(n)
    ensures Probe(start, 0, n) == start
  {
    SmallModulo(start, Pow2(n));
  }

  /** An odd factor of a multiple of 2^s leaves the power to the other factor. */
  lemma {:induction false} OddFactor(a: int, b: int, m: int, s: nat) returns (q: int)
    requires a % 2 == 1
    requires a * b == m * Pow2(s)
    ensures b == q * Pow2(s)
    decreases s
  {
    if s == 0 {
      q := b;
    } else {
      var c := a / 2;
      assert a * b == 2 * (c * b) + b by {
        assert a == 2 * c + 1;
        assert (2 * c + 1) * b == 2 * (c * b) + b;
      }
      assert m * Pow2(s) == 2 * (m * Pow2(s - 1));
      assert b % 2 == 0;
      var b' := b / 2;
      assert a * b == 2 * (a * b') by { assert b == 2 * b'; }
      q := OddFactor(a, b', m, s - 1);
      assert q * Pow2(s) == 2 * (q * Pow2(s - 1));
    }
  }

  /** No slot repeats within the first 2^n steps of a probe. */
  lemma ProbeInjective(start: nat, i: nat, j: nat, n: nat)
    requires i < j < Pow2(n)
    ensures Probe(start, i, n) != Probe(start, j, n)
  {
    if Probe(start, i, n) == Probe(start, j, n) {
      var m := SameResidue(start + Triangle(i), start + Triangle(j), Pow2(n));
      TriangleClosed(i);
      TriangleClosed(j);
      NoSmallCollision(i, j, m, n);
    }
  }

  lemma NoSmallCollision(i: nat, j: nat, m: int, n: nat)
    requires i < j < Pow2(n)
    ensures j * (j + 1) - i * (i + 1) != 2 * (m * Pow2(n))
  {
    if j * (j + 1) - i * (i + 1) == 2 * (m * Pow2(n)) {
      var a, b := j - i, j + i + 1;
      assert a * b == j * (j + 1) - i * (i + 1);
      assert m * Pow2(n + 1) == 2 * (m * Pow2(n));
      if a % 2 == 1 {
        var q := OddFactor(a, b, m, n + 1);
        MultipleIsLarge(b, q, n + 1);
      } else {
        assert b * a == a * b;
        var q := OddFactor(b, a, m, n + 1);
        MultipleIsLarge(a, q, n + 1);
      }
    }
  }

  lemma MultipleIsLarge(x: int, q: int, n: nat)
    requires x > 0 && x == q * Pow2(n)
    ensures x >= Pow2(n)
  {
    assert q >= 1;
  }

  /** Distinct numbers below N, N of them, are all numbers below N. */
  lemma {:induction false} Pigeonhole(s: seq<nat>, t: nat)
    requires forall i :: 0 <= i < |s| ==> s[i] < |s|
    requires forall i, j :: 0 <= i < j < |s| ==> s[i] != s[j]
    requires t < |s|
    ensures t in s
  {
    var below := Below(|s|);
    var image := set i | 0 <= i < |s| :: s[i];
    BelowCardinality(|s|);
    ImageCardinality(s, |s|);
    if t !in s {
      assert image <= below - {t};
      CardinalityMonotonic(image, below - {t});
    }
  }

  ghost function Below(n: nat): (s: set<nat>)
    ensures forall x: nat :: x in s <==> x < n
  {
    if n == 0 then {} else Below(n - 1) + {n - 1}
  }

  lemma {:induction false} BelowCardinality(n: nat)
    ensures |Below(n)| == n
  {
    if n > 0 {
      BelowCardinality(n - 1);
    }
  }

  lemma {:induction false} ImageCardinality(s: seq<nat>, n: nat)
    requires n <= |s|
    requires forall i, j :: 0 <= i < j < |s| ==> s[i] != s[j]
    ensures |set i | 0 <= i < n :: s[i]| == n
  {
    if n > 0 {
      ImageCardinality(s, n - 1);
      assert (set i | 0 <= i < n :: s[i]) == (set i | 0 <= i < n - 1 :: s[i]) + {s[n - 1]};
    }
  }

  lemma {:induction false} CardinalityMonotonic<T>(a: set<T>, b: set<T>)
    requires a <= b
    ensures |a| <= |b|
  {
    if a != {} {
      var x :| x in a;
      CardinalityMonotonic(a - {x}, b - {x});
    }
  }

  /** Every slot is looked at within the first 2^n steps, whatever the start. */
  lemma ProbeCovers(start: nat, slot: nat, n: nat) returns (k: nat)
    requires slot < Pow2(n)
    ensures k < Pow2(n) && Probe(start, k, n) == slot
  {
    var visited := seq(Pow2(n), i requires i >= 0 => Probe(start, i, n));
    forall i, j | 0 <= i < j < |visited|
      ensures visited[i] != visited[j]
    {
      ProbeInjective(start, i, j, n);
    }
    Pigeonhole(visited, slot);
    k :| 0 <= k < |visited| && visited[k] == slot;
  }
}
