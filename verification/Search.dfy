/**
 Substring search, binstr of src/bstrlib.c. Its loop looks for the needle as a
 scattered subsequence, tests whether what it found is contiguous, and starts
 again further right if it is not.
 */
module Search {

  type byte = b: nat | b < 256

  const BSTR_ERR := -1

  /** Which bytes count as equal: the bytes themselves, or bytes up to case. */
  type Same = (byte, byte) -> bool

  function Exact(): Same {
    (a, b) => a == b
  }

  /** The needle f occurs in s at position p. */
  ghost predicate Occurs(same: Same, s: seq<byte>, p: int, f: seq<byte>) {
    && 0 <= p <= |s| - |f|
    && forall k :: 0 <= k < |f| ==> same(s[p + k], f[k])
  }

  /** r is the least position from pos on where f occurs, or BSTR_ERR if there is none. */
  ghost predicate IsFirst(same: Same, r: int, s: seq<byte>, pos: int, f: seq<byte>) {
    if r == BSTR_ERR then forall p :: p >= pos ==> !Occurs(same, s, p, f)
    else
      && r >= pos && Occurs(same, s, r, f)
      && forall p :: pos <= p < r ==> !Occurs(same, s, p, f)
  }

  /**
   The search from position pos. `sameData` says that both strings start at the
   same address; the source then answers 0 without looking.
   */
  method Binstr(b1: seq<byte>, pos: int, b2: seq<byte>, sameData: bool) returns (r: int)
    requires sameData ==> b1 <= b2 || b2 <= b1
    ensures pos < 0 ==> r == BSTR_ERR
    ensures pos >= 0 ==> IsFirst(Exact(), r, b1, pos, b2)
  {
    if |b1| == pos {
      return if |b2| == 0 then pos else BSTR_ERR;
    }
    if |b1| < pos || pos < 0 {
      return BSTR_ERR;
    }
    if |b2| == 0 {
      return pos;
    }
    var lf := |b1| - |b2| + 1;
    if lf <= pos {
      return BSTR_ERR;
    }
    if sameData && pos == 0 {
      return 0;
    }
    var i, ll := pos, |b2|;
    var c0 := b2[0];
    if ll == 1 {
      while i < lf
        invariant pos <= i
        invariant forall p :: pos <= p < i ==> !Occurs(Exact(), b1, p, b2)
      {
        if c0 == b1[i] {
          return i;
        }
        i := i + 1;
      }
      return BSTR_ERR;
    }
    var c1, j, ii := c0, 0, -1;
    lf := |b1| - 1;
    while true
      invariant pos <= i <= lf + 1 && 0 <= j < ll && c1 == b2[j]
      invariant forall p :: Occurs(Exact(), b1, p, b2) && p >= pos ==> p + j >= i
      invariant j > 0 ==> pos <= ii && ii + j <= i
      invariant j > 0 && ii + j == i ==> forall k :: 0 <= k < j ==> b1[ii + k] == b2[k]
      decreases |b1| - (if j == 0 then i else ii), |b1| - i
    {
      if i < lf {
        // the body of the do loop
        if c1 != b1[i] {
          if c1 != b1[i + 1] {
            i := i + 2;
            continue;
          }
          i := i + 1;
        }
        if j == 0 {
          ii := i;
        }
        j := j + 1;
        i := i + 1;
        if j < ll {
          c1 := b2[j];
          continue;
        }
      } else if !(i == lf && ll == j + 1 && c1 == b1[i]) {
        // past the last place where the remaining bytes could be
        return BSTR_ERR;
      }
      // label N0: all bytes were met; were they contiguous?
      if i == ii + j {
        return ii;
      }
      i := i - j;
      j := 0;
      c1 := c0;
    }
  }
}
