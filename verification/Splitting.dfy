/**
 Cutting strings at a character and joining them again: bsplit and bjoin of
 src/bstrlib.c, and the tokens that a line of code is cut into before the
 variables in it are replaced (src/bstrlib_helper.c).
 */
module Splitting {

  // ----- what splitting and joining mean

  /** Where c first occurs; the length if it does not. */
  function IndexOf(s: string, c: char): (i: nat)
    ensures i <= |s| && (i < |s| ==> s[i] == c)
    ensures forall k :: 0 <= k < i ==> s[k] != c
  {
    if s == [] || s[0] == c then 0 else 1 + IndexOf(s[1..], c)
  }

  /** The parts of s between the occurrences of c. */
  function Pieces(s: string, c: char): (l: seq<string>)
    ensures |l| > 0
    decreases |s|
  {
    var i := IndexOf(s, c);
    if i == |s| then [s] else [s[..i]] + Pieces(s[i + 1..], c)
  }

  /** The strings of l one after the other with `sep` between them. */
  function Joined(l: seq<string>, sep: string): string {
    if l == [] then ""
    else if |l| == 1 then l[0]
    else l[0] + sep + Joined(l[1..], sep)
  }

  function Occurrences(s: string, c: char): nat {
    if s == [] then 0 else (if s[0] == c then 1 else 0) + Occurrences(s[1..], c)
  }

  // ----- splitting and joining undo one another

  lemma {:induction false} JoinOfSplit(s: string, c: char)
    ensures Joined(Pieces(s, c), [c]) == s
    decreases |s|
  {
    var i := IndexOf(s, c);
    if i < |s| {
      var t := s[i + 1..];
      var rest := Pieces(t, c);
      JoinOfSplit(t, c);
      JoinedCons(s[..i], rest, [c]);
      assert Joined(Pieces(s, c), [c]) == s[..i] + [c] + t;
      assert s == s[..i] + [c] + t;
    }
  }

  lemma JoinedCons(x: string, l: seq<string>, sep: string)
    requires l != []
    ensures Joined([x] + l, sep) == x + sep + Joined(l, sep)
  {
    assert ([x] + l)[1..] == l;
  }

  /** Holds for every list but the empty one, which joins to "" as [""] does. */
  lemma {:induction false} SplitOfJoin(l: seq<string>, c: char)
    requires l != [] && forall k :: 0 <= k < |l| ==> c !in l[k]
    ensures Pieces(Joined(l, [c]), c) == l
  {
    var s := Joined(l, [c]);
    if |l| == 1 {
      FirstIndex(s, c, |s|);
    } else {
      var n := |l[0]|;
      var rest := Joined(l[1..], [c]);
      assert s == l[0] + ([c] + rest);
      assert s[..n] == l[0] && s[n] == c && s[n + 1..] == rest;
      FirstIndex(s, c, n);
      SplitOfJoin(l[1..], c);
    }
  }

  lemma {:induction false} FirstIndex(s: string, c: char, i: nat)
    requires i <= |s| && c !in s[..i] && (i < |s| ==> s[i] == c)
    ensures IndexOf(s, c) == i
  {
    forall k | 0 <= k < i
      ensures s[k] != c
    {
      assert s[..i][k] == s[k];
    }
  }

  /** No piece has the character in it. */
  lemma {:induction false} PiecesLack(s: string, c: char)
    ensures forall k :: 0 <= k < |Pieces(s, c)| ==> c !in Pieces(s, c)[k]
    decreases |s|
  {
    var i := IndexOf(s, c);
    if i < |s| {
      PiecesLack(s[i + 1..], c);
    }
  }

  /** There is one piece more than there are characters to split at. */
  lemma {:induction false} PiecesCount(s: string, c: char)
    ensures |Pieces(s, c)| == Occurrences(s, c) + 1
    decreases |s|
  {
    var i := IndexOf(s, c);
    NoOccurrences(s[..i], c);
    if i < |s| {
      var t := s[i + 1..];
      PiecesCount(t, c);
      assert s == s[..i] + ([c] + t);
      OccurrencesSum(s[..i], [c] + t, c);
      OneMoreOccurrence(t, c);
    } else {
      assert s[..i] == s;
    }
  }

  lemma OneMoreOccurrence(t: string, c: char)
    ensures Occurrences([c] + t, c) == 1 + Occurrences(t, c)
  {
    assert ([c] + t)[1..] == t;
  }

  lemma {:induction false} OccurrencesSum(s: string, t: string, c: char)
    ensures Occurrences(s + t, c) == Occurrences(s, c) + Occurrences(t, c)
  {
    if s == [] {
      assert s + t == t;
    } else {
      assert (s + t)[1..] == s[1..] + t;
      OccurrencesSum(s[1..], t, c);
    }
  }

  lemma {:induction false} NoOccurrences(s: string, c: char)
    requires c !in s
    ensures Occurrences(s, c) == 0
  {
    if s != [] {
      NoOccurrences(s[1..], c);
    }
  }

  // ----- the loops

  /** The pieces of s are those in l and those of the rest from p on. */
  ghost predicate CutUpTo(s: string, c: char, p: nat, l: seq<string>) {
    p <= |s| && Pieces(s, c) == l + Pieces(s[p..], c)
  }

  lemma CutStart(s: string, c: char)
    ensures CutUpTo(s, c, 0, [])
  {
    assert s[0..] == s && [] + Pieces(s, c) == Pieces(s, c);
  }

  lemma CutNext(s: string, c: char, p: nat, i: nat, l: seq<string>)
    requires p <= i <= |s| && c !in s[p..i] && (i < |s| ==> s[i] == c) && CutUpTo(s, c, p, l)
    ensures i == |s| ==> Pieces(s, c) == l + [s[p..i]]
    ensures i < |s| ==> CutUpTo(s, c, i + 1, l + [s[p..i]])
  {
    var t := s[p..];
    assert t[..i - p] == s[p..i];
    FirstIndex(t, c, i - p);
    if i < |s| {
      assert t[i - p + 1..] == s[i + 1..];
      assert l + ([s[p..i]] + Pieces(s[i + 1..], c)) == l + [s[p..i]] + Pieces(s[i + 1..], c);
    } else {
      assert t == s[p..i];
    }
  }

  method FindCut(s: string, splitChar: char, p: nat) returns (i: nat)
    requires p <= |s|
    ensures p <= i <= |s| && splitChar !in s[p..i] && (i < |s| ==> s[i] == splitChar)
  {
    i := p;
    while i < |s|
      invariant p <= i <= |s| && splitChar !in s[p..i]
    {
      if s[i] == splitChar {
        break;
      }
      assert s[p..i + 1] == s[p..i] + [s[i]];
      i := i + 1;
    }
  }

  /** bsplit: the callback of bsplitcb appends every part to the list. */
  method Split(s: string, splitChar: char) returns (l: seq<string>)
    ensures l == Pieces(s, splitChar)
  {
    l := [];
    var p := 0;
    CutStart(s, splitChar);
    while true
      invariant 0 <= p <= |s| && CutUpTo(s, splitChar, p, l)
      decreases |s| - p
    {
      var i := FindCut(s, splitChar, p);
      CutNext(s, splitChar, p, i, l);
      l := l + [s[p..i]];
      if i == |s| {
        return;
      }
      p := i + 1;
    }
  }

  function TotalLength(l: seq<string>): nat {
    if l == [] then 0 else |l[0]| + TotalLength(l[1..])
  }

  /** Joined, read from the end: what is appended for one more entry. */
  lemma {:induction false} JoinedSnoc(l: seq<string>, x: string, sep: string)
    ensures Joined(l + [x], sep) == if l == [] then x else Joined(l, sep) + sep + x
  {
    if |l| > 1 {
      assert (l + [x])[1..] == l[1..] + [x];
      JoinedSnoc(l[1..], x, sep);
      var rest := Joined(l[1..], sep);
      assert l[0] + sep + (rest + sep + x) == l[0] + sep + rest + sep + x;
    } else if |l| == 1 {
      assert (l + [x])[1..] == [x];
    }
  }

  lemma {:induction false} JoinedLength(l: seq<string>, sep: string)
    requires l != []
    ensures |Joined(l, sep)| == TotalLength(l) + (|l| - 1) * |sep|
  {
    if |l| > 1 {
      JoinedLength(l[1..], sep);
      assert (|l| - 1) * |sep| == (|l| - 2) * |sep| + |sep|;
    } else {
      assert l == [l[0]];
      assert TotalLength(l[1..]) == 0;
    }
  }

  lemma {:induction false} TotalSnoc(l: seq<string>, x: string)
    ensures TotalLength(l + [x]) == TotalLength(l) + |x|
  {
    if l == [] {
      assert l + [x] == [x];
    } else {
      assert (l + [x])[1..] == l[1..] + [x];
      TotalSnoc(l[1..], x);
    }
  }

  lemma {:induction false} JoinedPrefixFits(l: seq<string>, k: nat, sep: string)
    requires 0 < k <= |l|
    ensures |Joined(l[..k], sep)| <= |Joined(l, sep)|
    ensures k < |l| ==> |Joined(l[..k], sep)| + |sep| + |l[k]| <= |Joined(l, sep)|
    decreases |l| - k
  {
    if k == |l| {
      assert l[..k] == l;
    } else {
      JoinedPrefixFits(l, k + 1, sep);
      assert l[..k + 1] == l[..k] + [l[k]];
      JoinedSnoc(l[..k], l[k], sep);
    }
  }

  /** Copies s into the buffer at p. */
  method Put(data: array<char>, p: nat, s: string) returns (end: nat)
    requires p + |s| <= data.Length
    modifies data
    ensures end == p + |s| && data[..end] == old(data[..p]) + s
  {
    forall k | 0 <= k < |s| {
      data[p + k] := s[k];
    }
    end := p + |s|;
    assert data[..p] == old(data[..p]);
    assert data[p..end] == s;
    assert data[..end] == data[..p] + data[p..end];
  }

  /** How many bytes the joined string takes, with the zero byte at its end. */
  method Size(bl: seq<string>, blk: string) returns (c: nat)
    requires bl != []
    ensures c == |Joined(bl, blk)| + 1
  {
    c := 1;
    for i := 0 to |bl|
      invariant c == 1 + TotalLength(bl[..i])
    {
      assert bl[..i + 1] == bl[..i] + [bl[i]];
      TotalSnoc(bl[..i], bl[i]);
      c := c + |bl[i]|;
    }
    assert bl[..|bl|] == bl;
    JoinedLength(bl, blk);
    if |blk| > 0 {
      c := c + (|bl| - 1) * |blk|;
    }
  }

  /**
   bjoinblk: one buffer, of exactly the right size, is allocated for the result.
   Copying an empty separator or entry changes nothing, so the two loops of the
   source for an empty and a non-empty separator are one here.
   */
  method JoinBlk(bl: seq<string>, blk: string) returns (data: array<char>, slen: nat)
    ensures fresh(data) && data.Length == slen + 1 && data[slen] == '\0'
    ensures data[..slen] == Joined(bl, blk)
  {
    if |bl| < 1 {
      data := new char[1]['\0'];
      return data, 0;
    }
    ghost var want := Joined(bl, blk);
    var c := Size(bl, blk);
    data := new char[c];
    JoinedPrefixFits(bl, 1, blk);
    assert bl[..1] == [bl[0]] && data[..0] == [];
    var p := Put(data, 0, bl[0]);
    for i := 1 to |bl|
      invariant p == |Joined(bl[..i], blk)| <= |want| && data[..p] == Joined(bl[..i], blk)
      modifies data
    {
      JoinedPrefixFits(bl, i, blk);
      JoinedSnoc(bl[..i], bl[i], blk);
      assert bl[..i + 1] == bl[..i] + [bl[i]];
      p := Put(data, p, blk);
      p := Put(data, p, bl[i]);
    }
    assert bl[..|bl|] == bl;
    slen := c - 1;
    data[slen] := '\0';
  }

  // ----- tokens

  const DELIMITERS := ",*+[] "

  /** A delimiter alone, or characters none of which is one. */
  predicate IsToken(t: string) {
    t != [] && ((|t| == 1 && t[0] in DELIMITERS) || forall k :: 0 <= k < |t| ==> t[k] !in DELIMITERS)
  }

  /** Every string of the list is a token, and a word is not cut in two. */
  predicate AreTokens(l: seq<string>) {
    && (forall k :: 0 <= k < |l| ==> IsToken(l[k]))
    && (forall k :: 0 < k < |l| ==> l[k - 1][0] in DELIMITERS || l[k][0] in DELIMITERS)
  }

  lemma {:induction false} JoinedAppend(l: seq<string>, x: string)
    ensures Joined(l + [x], "") == Joined(l, "") + x
  {
    JoinedSnoc(l, x, "");
    if l != [] {
      assert Joined(l, "") + "" == Joined(l, "");
    }
  }

  /** The tokens of a prefix; the last one may only be followed by a word if it is a delimiter. */
  ghost predicate TokensOf(l: seq<string>, s: string) {
    AreTokens(l) && Joined(l, "") == s
  }

  ghost predicate AtDelimiter(l: seq<string>)
    requires AreTokens(l)
  {
    l == [] || l[|l| - 1][0] in DELIMITERS
  }

  lemma OneMore(l: seq<string>, s: string, start: nat, i: nat)
    requires start < i <= |s| && TokensOf(l, s[..start])
    requires IsToken(s[start..i]) && (AtDelimiter(l) || s[start] in DELIMITERS)
    ensures TokensOf(l + [s[start..i]], s[..i])
    ensures s[start] in DELIMITERS ==> AtDelimiter(l + [s[start..i]])
  {
    JoinedAppend(l, s[start..i]);
    assert s[..i] == s[..start] + s[start..i];
  }

  /** The first token of s has n characters. */
  ghost predicate FirstEnds(s: string, n: nat) {
    && 0 < n <= |s|
    && if s[0] in DELIMITERS then n == 1
       else (forall k :: 0 <= k < n ==> s[k] !in DELIMITERS) && (n < |s| ==> s[n] in DELIMITERS)
  }

  lemma FirstTokenEnds(l: seq<string>)
    requires AreTokens(l) && l != []
    ensures FirstEnds(Joined(l, ""), |l[0]|) && Joined(l, "")[..|l[0]|] == l[0]
  {
    JoinedFirst(l);
    if |l| > 1 {
      JoinedFirst(l[1..]);
      assert l[1..][0] == l[1];
    }
  }

  lemma JoinedFirst(l: seq<string>)
    requires l != []
    ensures Joined(l, "") == l[0] + Joined(l[1..], "")
  {
    assert l[0] + "" == l[0];
  }

  /** There is only one way to cut a string into tokens. */
  lemma {:induction false} TokensAreUnique(l: seq<string>, m: seq<string>)
    requires AreTokens(l) && AreTokens(m) && Joined(l, "") == Joined(m, "")
    ensures l == m
  {
    if l != [] {
      JoinedFirst(l);
    }
    if m != [] {
      JoinedFirst(m);
    }
    if l != [] && m != [] {
      FirstTokenEnds(l);
      FirstTokenEnds(m);
      SamePrefix(l[0], Joined(l[1..], ""), m[0], Joined(m[1..], ""));
      TokensAreUnique(l[1..], m[1..]);
    }
  }

  lemma SamePrefix(a: string, b: string, c: string, d: string)
    requires a + b == c + d && |a| == |c|
    ensures a == c && b == d
  {
    assert (a + b)[..|a|] == a && (c + d)[..|c|] == c;
    assert (a + b)[|a|..] == b && (c + d)[|c|..] == d;
  }

  /** bstr2cstr: a C string of the same length, with blanks for zero bytes. */
  function WithoutZeros(s: string): (t: string)
    ensures |t| == |s| && '\0' !in t && ('\0' !in s ==> t == s)
  {
    seq(|s|, i requires 0 <= i < |s| => if s[i] == '\0' then ' ' else s[i])
  }

  /** bstrtok_delimters */
  method Tokens(input: string) returns (blist: seq<string>)
    ensures AreTokens(blist) && Joined(blist, "") == WithoutZeros(input)
  {
    var str := WithoutZeros(input);
    blist := [];
    var start := 0;
    var i := 0;
    while i < |str|
      invariant 0 <= start <= i <= |str|
      invariant forall k :: start <= k < i ==> str[k] !in DELIMITERS
      invariant TokensOf(blist, str[..start]) && AtDelimiter(blist)
    {
      if str[i] in DELIMITERS {
        if i > start {
          OneMore(blist, str, start, i);
          blist := blist + [str[start..i]];
        }
        ghost var t := str[i..i + 1];
        assert |t| == 1 && t[0] == str[i];
        assert t == [str[i]];
        OneMore(blist, str, i, i + 1);
        blist := blist + [[str[i]]];
        start := i + 1;
      }
      i := i + 1;
    }
    // the terminating zero byte ends the last word
    if i > start {
      OneMore(blist, str, start, i);
      blist := blist + [str[start..i]];
    }
    assert str[..i] == str;
  }
}
