/**
 The replacement of variables in the lines of the generated code, the loops of
 generate_code in src/ptt2asm.c: a line is cut into tokens, and in every token
 the keys are replaced by their values, longer keys first.
 */
module Substitution {
  import opened Search
  import opened Replacing
  import opened Splitting

  /** Characters of one byte each. */
  predicate IsText(s: string) {
    forall i :: 0 <= i < |s| ==> s[i] as int < 256
  }

  type text = s: string | IsText(s)

  function Bytes(s: text): (b: seq<byte>)
    ensures |b| == |s| && forall i :: 0 <= i < |s| ==> b[i] == s[i] as int
  {
    seq(|s|, i requires 0 <= i < |s| => s[i] as int)
  }

  function Chars(b: seq<byte>): (s: text)
    ensures |s| == |b| && forall i :: 0 <= i < |b| ==> s[i] == b[i] as char
  {
    seq(|b|, i requires 0 <= i < |b| => b[i] as char)
  }

  lemma CharsOfBytes(s: text)
    ensures Chars(Bytes(s)) == s
  {
  }

  /** f occurs somewhere in s. */
  ghost predicate Contains(s: text, f: text) {
    exists p :: Occurs(Exact(), Bytes(s), p, Bytes(f))
  }

  /** bfindreplace of a whole string, with three different strings. */
  function ReplaceAll(s: text, f: text, r: text): text
    requires f != ""
  {
    Chars(Replaced(Exact(), Bytes(s), 0, Bytes(f), Bytes(r)))
  }

  lemma NothingToReplace(s: text, f: text, r: text)
    requires f != "" && !Contains(s, f)
    ensures ReplaceAll(s, f, r) == s
  {
    FirstFromIsFirst(Exact(), Bytes(s), 0, Bytes(f));
    assert Bytes(s)[0..] == Bytes(s);
    CharsOfBytes(s);
  }

  lemma WholeReplaced(f: text, r: text)
    requires f != ""
    ensures ReplaceAll(f, f, r) == r
  {
    var b, v := Bytes(f), Bytes(r);
    assert b[0..|b|] == b && b[|b|..] == [] && b[0..0] == [];
    assert FirstFrom(Exact(), b, 0, b) == 0;
    assert FirstFrom(Exact(), b, |b|, b) == BSTR_ERR;
    assert Replaced(Exact(), b, |b|, b, v) == [];
    assert Replaced(Exact(), b, 0, b, v) == v;
    CharsOfBytes(r);
  }

  /** A key that is not shorter than a token occurs in it only if it is the token. */
  lemma OnlyItself(s: text, f: text)
    requires |f| >= |s| && f != s
    ensures !Contains(s, f)
  {
    if Contains(s, f) {
      var p :| Occurs(Exact(), Bytes(s), p, Bytes(f));
      forall i | 0 <= i < |s|
        ensures s[i] == f[i]
      {
        assert Exact()(Bytes(s)[p + i], Bytes(f)[i]);
      }
    }
  }

  // ----- the loops over the keys

  /** What the keys of length l make of a token, from the key j on. */
  function OfLength(t: text, keys: seq<text>, values: seq<text>, l: nat, j: nat): text
    requires |keys| == |values| && l > 0
    decreases |keys| - j
  {
    if j >= |keys| then t
    else OfLength(if |keys[j]| == l then ReplaceAll(t, keys[j], values[j]) else t, keys, values, l, j + 1)
  }

  /** What all keys of at most l characters make of a token, longer keys first. */
  function Substituted(t: text, keys: seq<text>, values: seq<text>, l: nat): text
    requires |keys| == |values|
    decreases l
  {
    if l == 0 then t else Substituted(OfLength(t, keys, values, l, 0), keys, values, l - 1)
  }

  lemma {:induction false} NoneOfLength(t: text, keys: seq<text>, values: seq<text>, l: nat, j: nat)
    requires |keys| == |values| && l > 0
    requires forall i :: j <= i < |keys| && |keys[i]| == l ==> !Contains(t, keys[i])
    ensures OfLength(t, keys, values, l, j) == t
    decreases |keys| - j
  {
    if j < |keys| {
      if |keys[j]| == l {
        NothingToReplace(t, keys[j], values[j]);
      }
      NoneOfLength(t, keys, values, l, j + 1);
    }
  }

  /** No key of one to l characters occurs in the token. */
  ghost predicate NoKeyIn(t: text, keys: seq<text>, l: nat) {
    forall i :: 0 <= i < |keys| && 0 < |keys[i]| <= l ==> !Contains(t, keys[i])
  }

  lemma {:induction false} NoKeyNoChange(t: text, keys: seq<text>, values: seq<text>, l: nat)
    requires |keys| == |values| && NoKeyIn(t, keys, l)
    ensures Substituted(t, keys, values, l) == t
    decreases l
  {
    if l > 0 {
      NoneOfLength(t, keys, values, l, 0);
      NoKeyNoChange(t, keys, values, l - 1);
    }
  }

  /** The first place of a key. */
  predicate IsKey(t: text, keys: seq<text>, j: nat) {
    j < |keys| && keys[j] == t && t !in keys[..j]
  }

  lemma {:induction false} ItsOwnLength(t: text, keys: seq<text>, values: seq<text>, j: nat, i: nat)
    requires |keys| == |values| && t != "" && IsKey(t, keys, j) && i <= j
    ensures OfLength(t, keys, values, |t|, i) == OfLength(values[j], keys, values, |t|, j + 1)
    decreases j - i
  {
    if i == j {
      WholeReplaced(t, values[j]);
    } else {
      if |keys[i]| == |t| {
        assert keys[i] in keys[..j];
        OnlyItself(t, keys[i]);
        NothingToReplace(t, keys[i], values[i]);
      }
      ItsOwnLength(t, keys, values, j, i + 1);
    }
  }

  /**
   A token that is a key is not touched before its turn, although shorter keys that come earlier in the list may
   occur in it; it then becomes the value, and only keys that are not longer, and not before it in the list if they
   are as long, can change that.
   */
  lemma {:induction false} KeyBecomesValue(t: text, keys: seq<text>, values: seq<text>, l: nat, j: nat)
    requires |keys| == |values| && 0 < |t| <= l && IsKey(t, keys, j)
    ensures Substituted(t, keys, values, l)
         == Substituted(OfLength(values[j], keys, values, |t|, j + 1), keys, values, |t| - 1)
    decreases l
  {
    if l == |t| {
      ItsOwnLength(t, keys, values, j, 0);
    } else {
      forall i | 0 <= i < |keys| && |keys[i]| == l
        ensures !Contains(t, keys[i])
      {
        OnlyItself(t, keys[i]);
      }
      NoneOfLength(t, keys, values, l, 0);
      KeyBecomesValue(t, keys, values, l - 1, j);
    }
  }

  /** What a token stands for: the value of the variable with this name, or itself. */
  ghost predicate StandsFor(t: text, keys: seq<text>, values: seq<text>, r: text)
    requires |keys| == |values|
  {
    if t in keys then exists j :: 0 <= j < |keys| && IsKey(t, keys, j) && r == values[j] else r == t
  }

  /** When no key is part of a value, or of a token that is no key, every token becomes what it stands for. */
  lemma TokenStandsFor(t: text, keys: seq<text>, values: seq<text>, l: nat)
    requires |keys| == |values| && t != "" && forall j :: 0 <= j < |keys| ==> |keys[j]| <= l
    requires forall j :: 0 <= j < |values| ==> NoKeyIn(values[j], keys, l)
    requires t in keys || NoKeyIn(t, keys, l)
    ensures StandsFor(t, keys, values, Substituted(t, keys, values, l))
  {
    if t in keys {
      var j := FirstPlace(t, keys);
      KeyBecomesValue(t, keys, values, l, j);
      NoneOfLength(values[j], keys, values, |t|, j + 1);
      NoKeyNoChange(values[j], keys, values, |t| - 1);
    } else {
      NoKeyNoChange(t, keys, values, l);
    }
  }

  lemma {:induction false} FirstPlace(t: text, keys: seq<text>) returns (j: nat)
    requires t in keys
    ensures IsKey(t, keys, j)
  {
    if keys[0] == t {
      j := 0;
    } else {
      var i := FirstPlace(t, keys[1..]);
      j := i + 1;
      assert keys[..j] == [keys[0]] + keys[1..][..i];
    }
  }

  /** The test name is replaced as a whole, although the array length N is a part of its key. */
  lemma LongerKeysFirst(length: text, name: text)
    requires !Contains(name, "N")
    ensures Substituted("NAME", ["N", "NAME"], [length, name], 4) == name
  {
    var keys, values := ["N", "NAME"], [length, name];
    assert keys[..1] == ["N"];
    KeyBecomesValue("NAME", keys, values, 4, 1);
    NoneOfLength(name, keys, values, 4, 2);
    NoKeyNoChange(name, keys, values, 3);
  }

  /** A value is searched for shorter keys in its turn; whether a key becomes its value depends on them. */
  lemma ValuesAreSearched(length: text)
    ensures Substituted("NAME", ["N", "NAME"], [length, "N"], 4) == length
  {
    var keys, values := ["N", "NAME"], [length, "N"];
    assert keys[..1] == ["N"];
    KeyBecomesValue("NAME", keys, values, 4, 1);
    KeyBecomesValue("N", keys, values, 3, 0);
    NoneOfLength(length, keys, values, 1, 1);
  }

  // ----- a key as a part of a token

  /** f stands in t between a and b and nowhere else. */
  ghost predicate OnlyBetween(t: text, a: text, f: text, b: text) {
    t == a + f + b && forall p :: Occurs(Exact(), Bytes(t), p, Bytes(f)) ==> p == |a|
  }

  lemma BytesSum(a: text, b: text)
    ensures IsText(a + b) && Bytes(a + b) == Bytes(a) + Bytes(b)
  {
  }

  lemma BytesOfThree(a: text, f: text, b: text)
    ensures IsText(a + f + b) && Bytes(a + f + b) == Bytes(a) + Bytes(f) + Bytes(b)
  {
    BytesSum(a, f);
    BytesSum(a + f, b);
  }

  lemma ReplacedOnce(s: seq<byte>, f: seq<byte>, v: seq<byte>, i: nat)
    requires f != [] && i + |f| <= |s|
    requires FirstFrom(Exact(), s, 0, f) == i && FirstFrom(Exact(), s, i + |f|, f) == BSTR_ERR
    ensures Replaced(Exact(), s, 0, f, v) == s[..i] + v + s[i + |f|..]
  {
    assert s[0..i] == s[..i];
    assert Replaced(Exact(), s, i + |f|, f, v) == s[i + |f|..];
  }

  lemma Between(s: seq<byte>, a: seq<byte>, f: seq<byte>, b: seq<byte>)
    requires s == a + f + b
    ensures s[..|a|] == a && s[|a| + |f|..] == b
  {
  }

  /** The search from pos on, for a pattern that stands at i only. */
  lemma FoundOnce(s: seq<byte>, f: seq<byte>, i: nat, pos: nat)
    requires OnlyAt(s, f, i)
    ensures FirstFrom(Exact(), s, pos, f) == if pos <= i then i else BSTR_ERR
  {
    var r := FirstFrom(Exact(), s, pos, f);
    assert IsFirst(Exact(), r, s, pos, f) by {
      FirstFromIsFirst(Exact(), s, pos, f);
    }
    OnlyPlace(s, f, i, pos, r);
  }

  ghost predicate OnlyAt(s: seq<byte>, f: seq<byte>, i: nat) {
    Occurs(Exact(), s, i, f) && forall p :: Occurs(Exact(), s, p, f) ==> p == i
  }

  lemma OnlyPlace(s: seq<byte>, f: seq<byte>, i: nat, pos: nat, r: int)
    requires OnlyAt(s, f, i) && IsFirst(Exact(), r, s, pos, f)
    ensures r == if pos <= i then i else BSTR_ERR
  {
  }

  lemma BytesOnceReplaced(s: seq<byte>, a: seq<byte>, f: seq<byte>, b: seq<byte>, v: seq<byte>)
    requires f != [] && s == a + f + b && OnlyAt(s, f, |a|)
    ensures Replaced(Exact(), s, 0, f, v) == a + v + b
  {
    var i := |a|;
    assert Replaced(Exact(), s, 0, f, v) == s[..i] + v + s[i + |f|..] by {
      FoundOnce(s, f, i, 0);
      FoundOnce(s, f, i, i + |f|);
      ReplacedOnce(s, f, v, i);
    }
    Between(s, a, f, b);
  }

  lemma OnceReplaced(t: text, a: text, f: text, b: text, r: text)
    requires f != "" && OnlyBetween(t, a, f, b)
    ensures IsText(a + r + b) && ReplaceAll(t, f, r) == a + r + b
  {
    OccursBetween(t, a, f, b);
    BytesOfThree(a, f, b);
    BytesOnceReplaced(Bytes(t), Bytes(a), Bytes(f), Bytes(b), Bytes(r));
    BytesOfThree(a, r, b);
    CharsOfBytes(a + r + b);
  }

  lemma OccursBetween(t: text, a: text, f: text, b: text)
    requires t == a + f + b
    ensures Occurs(Exact(), Bytes(t), |a|, Bytes(f))
  {
    assert forall k :: 0 <= k < |f| ==> t[|a| + k] == f[k];
  }

  /**
   A token with one key in it, once, and no other: the value takes the place of the
   key, and the rest of the token stays, unless a key occurs in what comes out.
   */
  lemma {:induction false} KeyInToken(
    t: text, a: text, f: text, b: text, keys: seq<text>, values: seq<text>, l: nat, j: nat)
    requires |keys| == |values| && 0 < |f| <= l && IsKey(f, keys, j) && OnlyBetween(t, a, f, b)
    requires forall i :: 0 <= i < |keys| && 0 < |keys[i]| <= l && keys[i] != f ==> !Contains(t, keys[i])
    requires IsText(a + values[j] + b) && NoKeyIn(a + values[j] + b, keys, l)
    ensures Substituted(t, keys, values, l) == a + values[j] + b
    decreases l
  {
    if l == |f| {
      PartOfItsLength(t, a, f, b, keys, values, j, 0);
      var r: text := a + values[j] + b;
      NoneOfLength(r, keys, values, l, j + 1);
      NoKeyNoChange(r, keys, values, l - 1);
    } else {
      NoneOfLength(t, keys, values, l, 0);
      KeyInToken(t, a, f, b, keys, values, l - 1, j);
    }
  }

  /** In (N/2), a token as it stands, the length takes the place of N. */
  lemma HalfOfN(length: text)
    requires IsText("(" + length + "/2)") && !Contains("(" + length + "/2)", "N")
    ensures Substituted("(N/2)", ["N"], [length], 1) == "(" + length + "/2)"
  {
    var t: text, a: text, b: text := "(N/2)", "(", "/2)";
    forall p | Occurs(Exact(), Bytes(t), p, Bytes("N"))
      ensures p == 1
    {
      assert Exact()(Bytes(t)[p + 0], Bytes("N")[0]);
    }
    assert t == a + "N" + b;
    OccursBetween(t, a, "N", b);
    KeyInToken(t, a, "N", b, ["N"], [length], 1, 0);
  }

  lemma {:induction false} PartOfItsLength(
    t: text, a: text, f: text, b: text, keys: seq<text>, values: seq<text>, j: nat, i: nat)
    requires |keys| == |values| && f != "" && IsKey(f, keys, j) && i <= j && OnlyBetween(t, a, f, b)
    requires forall i :: 0 <= i < |keys| && |keys[i]| == |f| && keys[i] != f ==> !Contains(t, keys[i])
    requires IsText(a + values[j] + b)
    ensures OfLength(t, keys, values, |f|, i) == OfLength(a + values[j] + b, keys, values, |f|, j + 1)
    decreases j - i
  {
    if i == j {
      OnceReplaced(t, a, f, b, values[j]);
    } else {
      if |keys[i]| == |f| {
        assert keys[i] in keys[..j];
        NothingToReplace(t, keys[i], values[i]);
      }
      PartOfItsLength(t, a, f, b, keys, values, j, i + 1);
    }
  }

  // ----- a line

  predicate AreTexts(l: seq<string>) {
    forall k :: 0 <= k < |l| ==> IsText(l[k])
  }

  function Each(tokens: seq<string>, keys: seq<text>, values: seq<text>, l: nat): (r: seq<string>)
    requires |keys| == |values| && AreTexts(tokens)
    ensures |r| == |tokens|
  {
    seq(|tokens|, k requires 0 <= k < |tokens| => Substituted(tokens[k], keys, values, l))
  }

  lemma {:induction false} TokenAt(l: seq<string>, k: nat) returns (p: nat)
    requires k < |l|
    ensures p + |l[k]| <= |Joined(l, "")| && Joined(l, "")[p..p + |l[k]|] == l[k]
  {
    var rest := Joined(l[1..], "");
    assert Joined(l, "") == l[0] + rest;
    if k == 0 {
      p := 0;
    } else {
      var q := TokenAt(l[1..], k - 1);
      p := |l[0]| + q;
      assert (l[0] + rest)[p..p + |l[k]|] == rest[q..q + |l[k]|];
    }
  }

  lemma TokensAreTexts(l: seq<string>)
    requires IsText(Joined(l, ""))
    ensures AreTexts(l)
  {
    forall k | 0 <= k < |l|
      ensures IsText(l[k])
    {
      var p := TokenAt(l, k);
      forall i | 0 <= i < |l[k]|
        ensures l[k][i] as int < 256
      {
        assert l[k][i] == Joined(l, "")[p..p + |l[k]|][i] == Joined(l, "")[p + i];
      }
    }
  }

  /** The two inner loops over one token. */
  method SubstituteToken(token: text, keys: seq<text>, values: seq<text>, maxLength: nat) returns (r: text)
    requires |keys| == |values|
    ensures r == Substituted(token, keys, values, maxLength)
  {
    r := token;
    for l := maxLength downto 0
      invariant Substituted(r, keys, values, l) == Substituted(token, keys, values, maxLength)
    {
      for j := 0 to |keys|
        invariant Substituted(OfLength(r, keys, values, l + 1, j), keys, values, l)
               == Substituted(token, keys, values, maxLength)
      {
        if |keys[j]| == l + 1 {
          var at := Binstr(Bytes(r), 0, Bytes(keys[j]), false);
          if at != BSTR_ERR {
            r := ReplaceAll(r, keys[j], values[j]);
          } else {
            NothingToReplace(r, keys[j], values[j]);
          }
        }
      }
    }
  }

  /** The tokens of a line; by TokensAreUnique there is only one list of them. */
  ghost predicate IsCut(line: text, tokens: seq<string>) {
    AreTokens(tokens) && AreTexts(tokens) && Joined(tokens, "") == WithoutZeros(line)
  }

  /** The loops of generate_code over one line. */
  method SubstituteLine(line: text, keys: seq<text>, values: seq<text>, maxLength: nat) returns (result: string)
    requires |keys| == |values|
    ensures exists tokens :: IsCut(line, tokens) && result == Joined(Each(tokens, keys, values, maxLength), "")
  {
    var tokens := Tokens(line);
    TokensAreTexts(tokens);
    var blist: seq<string> := [];
    for k := 0 to |tokens|
      invariant blist == Each(tokens, keys, values, maxLength)[..k]
    {
      var t := SubstituteToken(tokens[k], keys, values, maxLength);
      blist := blist + [t];
    }
    assert blist == Each(tokens, keys, values, maxLength);
    result := JoinAll(blist);
    assert IsCut(line, tokens);
  }

  method JoinAll(l: seq<string>) returns (r: string)
    ensures r == Joined(l, "")
  {
    r := "";
    for k := 0 to |l|
      invariant r == Joined(l[..k], "")
    {
      assert l[..k + 1] == l[..k] + [l[k]];
      JoinedAppend(l[..k], l[k]);
      r := r + l[k];
    }
    assert l[..|l|] == l;
  }

  /** A line that no key occurs in passes unchanged. */
  lemma LineWithoutKey(line: text, tokens: seq<string>, keys: seq<text>, values: seq<text>, l: nat)
    requires |keys| == |values| && NoKeyIn(line, keys, l)
    requires '\0' !in line && IsCut(line, tokens)
    ensures Each(tokens, keys, values, l) == tokens
    ensures Joined(Each(tokens, keys, values, l), "") == line
  {
    forall k | 0 <= k < |tokens|
      ensures Substituted(tokens[k], keys, values, l) == tokens[k]
    {
      var p := TokenAt(tokens, k);
      PartLacksKeys(tokens[k], line, p, keys, l);
      NoKeyNoChange(tokens[k], keys, values, l);
    }
  }

  lemma PartLacksKeys(t: text, line: text, p: nat, keys: seq<text>, l: nat)
    requires p + |t| <= |line| && line[p..p + |t|] == t && NoKeyIn(line, keys, l)
    ensures NoKeyIn(t, keys, l)
  {
    forall i | 0 <= i < |keys| && 0 < |keys[i]| <= l
      ensures !Contains(t, keys[i])
    {
      if Contains(t, keys[i]) {
        var q :| Occurs(Exact(), Bytes(t), q, Bytes(keys[i]));
        forall k | 0 <= k < |keys[i]|
          ensures Exact()(Bytes(line)[p + q + k], Bytes(keys[i])[k])
        {
          assert Exact()(Bytes(t)[q + k], Bytes(keys[i])[k]);
          assert t[q + k] == line[p..p + |t|][q + k];
        }
        assert Occurs(Exact(), Bytes(line), p + q, Bytes(keys[i]));
        assert false;
      }
    }
  }

  /** Every token of a line becomes what it stands for. */
  lemma LineStandsFor(tokens: seq<string>, keys: seq<text>, values: seq<text>, l: nat)
    requires |keys| == |values| && AreTexts(tokens) && "" !in tokens
    requires forall j :: 0 <= j < |keys| ==> |keys[j]| <= l
    requires forall j :: 0 <= j < |values| ==> NoKeyIn(values[j], keys, l)
    requires forall k :: 0 <= k < |tokens| ==> tokens[k] in keys || NoKeyIn(tokens[k], keys, l)
    ensures forall k :: 0 <= k < |tokens| ==>
      StandsFor(tokens[k], keys, values, Each(tokens, keys, values, l)[k])
  {
    forall k | 0 <= k < |tokens|
      ensures StandsFor(tokens[k], keys, values, Each(tokens, keys, values, l)[k])
    {
      TokenStandsFor(tokens[k], keys, values, l);
    }
  }
}
