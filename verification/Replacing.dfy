/**
 What it means to replace all occurrences of a text in a string, and what a
 replacement in place has achieved while it is under way (findreplaceengine of
 src/bstrlib.c).
 */
module Replacing {
  import opened Wrappers
  import opened Search

  // ----- the meaning of a replacement

  /** The least position from pos on where f occurs in s; BSTR_ERR if there is none. */
  function FirstFrom(same: Same, s: seq<byte>, pos: nat, f: seq<byte>): (r: int)
    ensures r == BSTR_ERR || pos <= r <= |s| - |f|
    decreases |s| - pos
  {
    if pos + |f| > |s| then BSTR_ERR
    else if Matches(same, s[pos..pos + |f|], f) then pos
    else if pos == |s| then BSTR_ERR
    else FirstFrom(same, s, pos + 1, f)
  }

  lemma {:induction false} FirstFromIsFirst(same: Same, s: seq<byte>, pos: nat, f: seq<byte>)
    ensures IsFirst(same, FirstFrom(same, s, pos, f), s, pos, f)
    decreases |s| - pos
  {
    if pos + |f| <= |s| && pos < |s| && !Matches(same, s[pos..pos + |f|], f) {
      FirstFromIsFirst(same, s, pos + 1, f);
    }
  }

  predicate Matches(same: Same, s: seq<byte>, f: seq<byte>)
    requires |s| == |f|
  {
    forall k :: 0 <= k < |f| ==> same(s[k], f[k])
  }

  /** The rest of s from pos on, with leftmost, non-overlapping occurrences of f replaced by r. */
  function Replaced(same: Same, s: seq<byte>, pos: nat, f: seq<byte>, r: seq<byte>): seq<byte>
    requires f != [] && pos <= |s|
    decreases |s| - pos
  {
    var i := FirstFrom(same, s, pos, f);
    if i == BSTR_ERR then s[pos..]
    else s[pos..i] + r + Replaced(same, s, i + |f|, f, r)
  }

  /** The search looks at nothing before its start. */
  lemma FirstIsUnique(same: Same, s: seq<byte>, s': seq<byte>, pos: nat, f: seq<byte>, r: int)
    requires |s| == |s'| && pos <= |s| && s[pos..] == s'[pos..]
    requires IsFirst(same, r, s, pos, f)
    ensures r == FirstFrom(same, s', pos, f)
  {
    var r' := FirstFrom(same, s', pos, f);
    FirstFromIsFirst(same, s', pos, f);
    forall p | p >= pos
      ensures Occurs(same, s, p, f) <==> Occurs(same, s', p, f)
    {
      if p <= |s| - |f| {
        assert s[p..p + |f|] == s[pos..][p - pos..][..|f|] == s'[pos..][p - pos..][..|f|] == s'[p..p + |f|];
      }
    }
    assert IsFirst(same, r, s', pos, f);
  }

  /** A search function that finds first matches: binstr, or its variant that ignores case. */
  ghost predicate FindsFirst(instr: (seq<byte>, int, seq<byte>) -> int, same: Same) {
    forall s, pos, f {:trigger instr(s, pos, f)} :: 0 <= pos && f != [] ==> IsFirst(same, instr(s, pos, f), s, pos, f)
  }

  /** The two strings have the same bytes from lo up to hi. */
  ghost predicate Agree(a: seq<byte>, b: seq<byte>, lo: nat, hi: nat) {
    hi <= |a| && hi <= |b| && forall k :: lo <= k < hi ==> a[k] == b[k]
  }

  /** What binstr finds is the first match. */
  method FirstByBinstr(s: seq<byte>, pos: int, f: seq<byte>) returns (r: int)
    requires f != []
    ensures r == if pos < 0 then BSTR_ERR else FirstFrom(Exact(), s, pos, f)
  {
    r := Binstr(s, pos, f, false);
    if 0 <= pos <= |s| {
      FirstIsUnique(Exact(), s, s, pos, f, r);
    }
  }

  /** The search functions that the engine may be given are those that compute FirstFrom, and no others. */
  lemma SearchFunction(instr: (seq<byte>, int, seq<byte>) -> int, same: Same)
    ensures FindsFirst(instr, same) <==>
      forall s, pos, f {:trigger instr(s, pos, f)} ::
        0 <= pos && f != [] ==> instr(s, pos, f) == FirstFrom(same, s, pos, f)
  {
    forall s: seq<byte>, pos: nat, f: seq<byte>
      ensures IsFirst(same, instr(s, pos, f), s, pos, f) <==> instr(s, pos, f) == FirstFrom(same, s, pos, f)
    {
      FirstFromIsFirst(same, s, pos, f);
      if pos <= |s| && IsFirst(same, instr(s, pos, f), s, pos, f) {
        FirstIsUnique(same, s, s, pos, f, instr(s, pos, f));
      }
    }
  }

  // ----- replacing is cutting and joining

  /** The parts one after the other, with `sep` between them. */
  function JoinedBy(parts: seq<seq<byte>>, sep: seq<byte>): seq<byte> {
    if parts == [] then [] else if |parts| == 1 then parts[0] else parts[0] + sep + JoinedBy(parts[1..], sep)
  }

  ghost predicate Lacks(s: seq<byte>, f: seq<byte>) {
    forall p :: !Occurs(Exact(), s, p, f)
  }

  ghost predicate OccursOnlyAt(s: seq<byte>, i: nat, f: seq<byte>) {
    forall p :: Occurs(Exact(), s, p, f) ==> p == i
  }

  /** In front of every cut f does not occur before the cut, and in the last part not at all. */
  ghost predicate CutAt(parts: seq<seq<byte>>, f: seq<byte>) {
    && parts != [] && Lacks(parts[|parts| - 1], f)
    && forall k :: 0 <= k < |parts| - 1 ==> OccursOnlyAt(parts[k] + f, |parts[k]|, f)
  }

  lemma JoinedByMore(x: seq<byte>, parts: seq<seq<byte>>, sep: seq<byte>)
    requires parts != []
    ensures JoinedBy([x] + parts, sep) == x + sep + JoinedBy(parts, sep)
  {
    assert ([x] + parts)[1..] == parts;
  }

  lemma CutAtMore(x: seq<byte>, parts: seq<seq<byte>>, f: seq<byte>)
    requires CutAt(parts, f) && OccursOnlyAt(x + f, |x|, f)
    ensures CutAt([x] + parts, f)
  {
    var all := [x] + parts;
    forall k | 0 <= k < |all| - 1
      ensures OccursOnlyAt(all[k] + f, |all[k]|, f)
    {
      if k > 0 {
        assert all[k] == parts[k - 1];
      }
    }
  }

  /** An occurrence in a part of s is one in s. */
  lemma OccursInPart(s: seq<byte>, from: nat, to: nat, p: int, f: seq<byte>)
    requires from <= to <= |s| && Occurs(Exact(), s[from..to], p, f)
    ensures Occurs(Exact(), s, from + p, f) && from + p + |f| <= to
  {
    forall k | 0 <= k < |f|
      ensures Exact()(s[from + p + k], f[k])
    {
      assert Exact()(s[from..to][p + k], f[k]);
    }
  }

  lemma MatchedIs(s: seq<byte>, i: nat, f: seq<byte>)
    requires Occurs(Exact(), s, i, f)
    ensures i + |f| <= |s| && s[i..i + |f|] == f
  {
    assert forall k :: 0 <= k < |f| ==> Exact()(s[i + k], f[k]);
  }

  /** The rest of s is cut at the first occurrence of f from the left, and so on, and joined again with r instead. */
  lemma {:induction false} ReplacedIsJoined(s: seq<byte>, pos: nat, f: seq<byte>, r: seq<byte>)
    returns (parts: seq<seq<byte>>)
    requires f != [] && pos <= |s|
    ensures CutAt(parts, f) && s[pos..] == JoinedBy(parts, f) && Replaced(Exact(), s, pos, f, r) == JoinedBy(parts, r)
    decreases |s| - pos
  {
    var i := FirstFrom(Exact(), s, pos, f);
    FirstFromIsFirst(Exact(), s, pos, f);
    if i == BSTR_ERR {
      parts := [s[pos..]];
      NoneInRest(s, pos, f);
    } else {
      var rest := ReplacedIsJoined(s, i + |f|, f, r);
      MatchedIs(s, i, f);
      FirstInPart(s, pos, i, f);
      parts := [s[pos..i]] + rest;
      CutAtMore(s[pos..i], rest, f);
      JoinedByMore(s[pos..i], rest, f);
      JoinedByMore(s[pos..i], rest, r);
      ThreeParts(s, pos, i, f);
    }
  }

  lemma ThreeParts(s: seq<byte>, pos: nat, i: nat, f: seq<byte>)
    requires pos <= i && i + |f| <= |s| && s[i..i + |f|] == f
    ensures s[pos..] == s[pos..i] + f + s[i + |f|..] && s[pos..i + |f|] == s[pos..i] + f
  {
  }

  lemma NoneInRest(s: seq<byte>, pos: nat, f: seq<byte>)
    requires pos <= |s| && IsFirst(Exact(), BSTR_ERR, s, pos, f)
    ensures Lacks(s[pos..], f)
  {
    forall p
      ensures !Occurs(Exact(), s[pos..], p, f)
    {
      if Occurs(Exact(), s[pos..|s|], p, f) {
        OccursInPart(s, pos, |s|, p, f);
      }
      assert s[pos..|s|] == s[pos..];
    }
  }

  lemma FirstInPart(s: seq<byte>, pos: nat, i: nat, f: seq<byte>)
    requires f != [] && IsFirst(Exact(), i, s, pos, f)
    ensures pos <= i && i + |f| <= |s| && s[i..i + |f|] == f
    ensures OccursOnlyAt(s[pos..i] + f, |s[pos..i]|, f)
  {
    MatchedIs(s, i, f);
    ThreeParts(s, pos, i, f);
    forall p | Occurs(Exact(), s[pos..i] + f, p, f)
      ensures p == |s[pos..i]|
    {
      OccursInPart(s, pos, i + |f|, p, f);
    }
  }

  // ----- the matches as a list

  /** Where the replaced occurrences are. */
  ghost function MatchList(same: Same, s: seq<byte>, pos: nat, f: seq<byte>): (ms: seq<nat>)
    requires f != [] && pos <= |s|
    decreases |s| - pos
  {
    var i := FirstFrom(same, s, pos, f);
    if i == BSTR_ERR then [] else [i as nat] + MatchList(same, s, i + |f|, f)
  }

  /** Match positions in order, the length of the string at the end. */
  ghost predicate Ordered(s: seq<byte>, e: seq<nat>, f: seq<byte>) {
    && 0 < |e| && e[|e| - 1] == |s|
    && forall j, k :: 0 <= j < k < |e| ==> e[j] + |f| <= e[k]
  }

  /** What k replacements add to the length. */
  ghost function Times(k: nat, g: int): (n: int)
    ensures g >= 0 ==> n >= 0
  {
    if k == 0 then 0 else Times(k - 1, g) + g
  }

  /** The new string from the first of the matches e on. */
  ghost function Segments(s: seq<byte>, e: seq<nat>, f: seq<byte>, r: seq<byte>): (t: seq<byte>)
    requires Ordered(s, e, f)
    ensures |t| == |s| - e[0] + Times(|e| - 1, |r| - |f|)
    decreases |e|
  {
    if |e| == 1 then [] else r + s[e[0] + |f|..e[1]] + Segments(s, e[1..], f, r)
  }

  lemma SegmentsAt(s: seq<byte>, e: seq<nat>, f: seq<byte>, r: seq<byte>, k: nat)
    requires Ordered(s, e, f) && k + 1 < |e|
    ensures e[k] + |f| <= e[k + 1] <= |s| && Ordered(s, e[k..], f) && Ordered(s, e[k + 1..], f)
    ensures Segments(s, e[k..], f, r) == r + s[e[k] + |f|..e[k + 1]] + Segments(s, e[k + 1..], f, r)
  {
    assert e[k..][1..] == e[k + 1..];
  }

  lemma SegmentsFirst(s: seq<byte>, x: nat, e: seq<nat>, f: seq<byte>, r: seq<byte>)
    requires Ordered(s, e, f) && x + |f| <= e[0] <= |s|
    ensures Ordered(s, [x] + e, f)
    ensures Segments(s, [x] + e, f, r) == r + s[x + |f|..e[0]] + Segments(s, e, f, r)
  {
    var e' := [x] + e;
    assert e'[1..] == e;
  }

  lemma PiecesRegroup(a: seq<byte>, b: seq<byte>, c: seq<byte>, d: seq<byte>)
    ensures a + b + (c + d) == a + (b + c + d)
  {
    Regroup(a, b, c + d);
    Regroup(b, c, d);
  }

  // ----- a replacement as a plan

  /**
   What is to be replaced in s: for every position the first match, the rest of
   the new string and the list of the matches from there on.
   */
  datatype Plan = Plan(
    s: seq<byte>, f: seq<byte>, r: seq<byte>,
    first: nat -> int, rest: nat -> seq<byte>, matches: nat -> seq<nat>)

  ghost predicate PlanLaw(p: Plan, pos: nat) {
    pos <= |p.s| ==>
      var i := p.first(pos);
      if i == BSTR_ERR then p.rest(pos) == p.s[pos..] && p.matches(pos) == []
      else
        && pos <= i <= |p.s| - |p.f|
        && p.rest(pos) == p.s[pos..i] + p.r + p.rest(i + |p.f|)
        && p.matches(pos) == [i as nat] + p.matches(i + |p.f|)
  }

  ghost predicate Planned(p: Plan) {
    p.f != [] && forall pos: nat {:trigger PlanLaw(p, pos)} :: PlanLaw(p, pos)
  }

  ghost function PlanOf(same: Same, s: seq<byte>, f: seq<byte>, r: seq<byte>): Plan
    requires f != []
  {
    Plan(
      s, f, r,
      (pos: nat) => FirstFrom(same, s, pos, f),
      (pos: nat) => if pos <= |s| then Replaced(same, s, pos, f, r) else [],
      (pos: nat) => if pos <= |s| then MatchList(same, s, pos, f) else [])
  }

  lemma PlanIsLawful(same: Same, s: seq<byte>, f: seq<byte>, r: seq<byte>)
    requires f != []
    ensures Planned(PlanOf(same, s, f, r))
  {
    var p := PlanOf(same, s, f, r);
    forall pos: nat
      ensures PlanLaw(p, pos)
    {
      PlanIsLawfulAt(same, s, f, r, pos);
    }
  }

  lemma PlanIsLawfulAt(same: Same, s: seq<byte>, f: seq<byte>, r: seq<byte>, pos: nat)
    requires f != []
    ensures PlanLaw(PlanOf(same, s, f, r), pos)
  {
    if pos <= |s| {
      var i := FirstFrom(same, s, pos, f);
      if i == BSTR_ERR {
        PlanLast(same, s, f, r, pos);
      } else {
        PlanNext(same, s, f, r, pos, i);
      }
    }
  }

  lemma PlanLast(same: Same, s: seq<byte>, f: seq<byte>, r: seq<byte>, pos: nat)
    requires f != [] && pos <= |s| && FirstFrom(same, s, pos, f) == BSTR_ERR
    ensures PlanLaw(PlanOf(same, s, f, r), pos)
  {
    LastLaw(PlanOf(same, s, f, r), pos);
  }

  lemma PlanNext(same: Same, s: seq<byte>, f: seq<byte>, r: seq<byte>, pos: nat, i: nat)
    requires f != [] && pos <= |s| && FirstFrom(same, s, pos, f) == i
    ensures PlanLaw(PlanOf(same, s, f, r), pos)
  {
    var next := i + |f|;
    NextLaw(PlanOf(same, s, f, r), pos, i, Replaced(same, s, next, f, r), MatchList(same, s, next, f));
  }

  lemma LastLaw(p: Plan, pos: nat)
    requires pos <= |p.s| && p.first(pos) == BSTR_ERR && p.rest(pos) == p.s[pos..] && p.matches(pos) == []
    ensures PlanLaw(p, pos)
  {
  }

  lemma NextLaw(p: Plan, pos: nat, i: nat, rest: seq<byte>, matches: seq<nat>)
    requires p.first(pos) == i && pos <= i <= |p.s| - |p.f|
    requires p.rest(i + |p.f|) == rest && p.rest(pos) == p.s[pos..i] + p.r + rest
    requires p.matches(i + |p.f|) == matches && p.matches(pos) == [i] + matches
    ensures PlanLaw(p, pos)
  {
  }

  /** The search finds the matches of the plan, in any buffer that still holds the original from its start on. */
  ghost predicate SearchesBy(instr: (seq<byte>, int, seq<byte>) -> int, p: Plan) {
    forall b: seq<byte>, pos: nat {:trigger instr(b, pos, p.f)} ::
      pos <= |p.s| == |b| && b[pos..] == p.s[pos..] ==> instr(b, pos, p.f) == p.first(pos)
  }

  lemma SearchIsPlanned(
    instr: (seq<byte>, int, seq<byte>) -> int, same: Same, s: seq<byte>, f: seq<byte>, r: seq<byte>)
    requires FindsFirst(instr, same) && f != []
    ensures SearchesBy(instr, PlanOf(same, s, f, r))
  {
    forall b: seq<byte>, pos: nat | pos <= |s| == |b| && b[pos..] == s[pos..]
      ensures instr(b, pos, f) == FirstFrom(same, s, pos, f)
    {
      FirstIsUnique(same, b, s, pos, f, instr(b, pos, f));
    }
  }

  /** Following a plan is the same as laying down the segments between the listed matches. */
  lemma {:induction false} PlanIsSegments(p: Plan, pos: nat, e: seq<nat>)
    requires Planned(p) && pos <= |p.s| && e == p.matches(pos) + [|p.s|]
    ensures Ordered(p.s, e, p.f) && pos <= e[0] <= |p.s|
    ensures p.rest(pos) == p.s[pos..e[0]] + Segments(p.s, e, p.f, p.r)
    decreases |p.s| - pos
  {
    var i := p.first(pos);
    assert PlanLaw(p, pos);
    if i == BSTR_ERR {
      assert p.s[pos..] == p.s[pos..|p.s|] + [];
    } else {
      var next, rest := i + |p.f|, e[1..];
      assert e == [i as nat] + rest && rest == p.matches(next) + [|p.s|];
      PlanIsSegments(p, next, rest);
      SegmentsFirst(p.s, i, rest, p.f, p.r);
      PiecesRegroup(p.s[pos..i], p.r, p.s[next..rest[0]], Segments(p.s, rest, p.f, p.r));
    }
  }

  /** Replacing is the same as laying down the segments between the listed matches. */
  lemma ReplacedIsSegments(same: Same, s: seq<byte>, pos: nat, f: seq<byte>, r: seq<byte>, e: seq<nat>)
    requires f != [] && pos <= |s| && e == MatchList(same, s, pos, f) + [|s|]
    ensures Ordered(s, e, f) && pos <= e[0] <= |s|
    ensures Replaced(same, s, pos, f, r) == s[pos..e[0]] + Segments(s, e, f, r)
  {
    PlanIsLawful(same, s, f, r);
    PlanIsSegments(PlanOf(same, s, f, r), pos, e);
  }

  // ----- replacing under way

  /**
   The first `done` bytes of the buffer are those of the new string, and from pos
   on it still holds the original.
   */
  ghost predicate Progress(p: Plan, buf: seq<byte>, want: seq<byte>, pos: nat, done: nat) {
    && done <= pos <= |p.s| <= |buf| && done <= |want|
    && Agree(buf, want, 0, done) && Agree(buf, p.s, pos, |p.s|)
    && want[done..] == p.rest(pos)
  }

  lemma ProgressStart(p: Plan, buf: seq<byte>, start: nat)
    requires start <= |p.s| <= |buf| && buf[..|p.s|] == p.s
    ensures Progress(p, buf, p.s[..start] + p.rest(start), start, start)
  {
    forall k | 0 <= k < |p.s|
      ensures buf[k] == p.s[k]
    {
      assert buf[k] == buf[..|p.s|][k];
    }
  }

  /** The match at i is dealt with: the bytes before it and the replacement join the finished part. */
  lemma ProgressStep(
    p: Plan, buf: seq<byte>, buf': seq<byte>, want: seq<byte>, pos: nat, done: nat, i: nat, done': nat)
    requires Progress(p, buf, want, pos, done) && PlanLaw(p, pos) && i == p.first(pos)
    requires |p.r| <= |p.f| && |buf'| == |buf| && done' == done + (i - pos) + |p.r| <= |buf|
    requires buf'[..done'] == buf[..done] + p.s[pos..i] + p.r
    requires Agree(buf', buf, i + |p.f|, |p.s|)
    ensures Progress(p, buf', want, i + |p.f|, done')
  {
    Peel(want, done, p.s[pos..i], p.r, p.rest(i + |p.f|));
    assert buf[..done] == want[..done];
    Pointwise(buf', want, done');
  }

  lemma Pointwise(a: seq<byte>, b: seq<byte>, n: nat)
    requires n <= |a| && n <= |b| && a[..n] == b[..n]
    ensures Agree(a, b, 0, n)
  {
    forall k | 0 <= k < n
      ensures a[k] == b[k]
    {
      assert a[..n][k] == b[..n][k];
    }
  }

  lemma Peel(want: seq<byte>, n: nat, a: seq<byte>, b: seq<byte>, rest: seq<byte>)
    requires n <= |want| && want[n..] == a + b + rest
    ensures n + |a| + |b| <= |want|
    ensures want[..n + |a| + |b|] == want[..n] + a + b
    ensures want[n + |a| + |b|..] == rest
  {
    assert want == want[..n] + want[n..];
  }

  /** When there is no further match, what is left of the original is the rest. */
  lemma ProgressEnd(p: Plan, buf: seq<byte>, want: seq<byte>, pos: nat, done: nat)
    requires Progress(p, buf, want, pos, done) && PlanLaw(p, pos) && p.first(pos) == BSTR_ERR
    ensures want == buf[..done] + p.s[pos..]
    ensures done == pos ==> want == buf[..|p.s|]
  {
    assert want == want[..done] + want[done..];
    assert want[..done] == buf[..done];
    assert done == pos ==> buf[..done] + p.s[pos..] == buf[..|p.s|];
  }

  lemma SameBehind(buf: seq<byte>, s: seq<byte>, pos: nat, i: nat)
    requires pos <= i <= |s| <= |buf| && Agree(buf, s, pos, |s|)
    ensures buf[..i] == buf[..pos] + s[pos..i]
  {
    assert buf[pos..i] == s[pos..i];
    assert buf[..i] == buf[..pos] + buf[pos..i];
  }

  /** A replacement of the same length is written over the match. */
  lemma EqualStep(p: Plan, buf: seq<byte>, buf': seq<byte>, want: seq<byte>, pos: nat, i: nat)
    requires Progress(p, buf, want, pos, pos) && PlanLaw(p, pos) && i == p.first(pos) && |p.r| == |p.f|
    requires |buf'| == |buf| && Agree(buf', buf, 0, i) && buf'[i..i + |p.r|] == p.r
    requires Agree(buf', buf, i + |p.r|, |buf|)
    ensures Progress(p, buf', want, i + |p.f|, i + |p.f|)
  {
    SameBehind(buf, p.s, pos, i);
    assert buf'[..i + |p.f|] == buf'[..i] + p.r;
    assert buf'[..i] == buf[..i];
    ProgressStep(p, buf, buf', want, pos, pos, i, i + |p.f|);
  }

  /** The bytes before the match have been moved down, and the replacement is written behind them. */
  lemma ShrinkStep(
    p: Plan, buf: seq<byte>, buf': seq<byte>, want: seq<byte>, pos: nat, acc: nat, i: nat, done': nat)
    requires acc <= pos && Progress(p, buf, want, pos, pos - acc) && PlanLaw(p, pos) && i == p.first(pos)
    requires |p.r| < |p.f| && |buf'| == |buf| && done' == i - acc + |p.r| <= |buf|
    requires buf'[..i - acc] == buf[..pos - acc] + p.s[pos..i] && buf'[i - acc..done'] == p.r
    requires Agree(buf', buf, i + |p.f|, |buf|)
    ensures Progress(p, buf', want, i + |p.f|, done')
  {
    assert buf'[..done'] == buf'[..i - acc] + p.r;
    ProgressStep(p, buf, buf', want, pos, pos - acc, i, done');
  }

  lemma MovedDown(s: seq<byte>, buf: seq<byte>, buf': seq<byte>, pos: nat, i: nat, acc: nat)
    requires acc <= pos <= i <= |s| <= |buf| == |buf'| && Agree(buf, s, pos, |s|)
    requires if acc > 0 && i > pos then Agree(buf', buf, 0, pos - acc) && buf'[pos - acc..i - acc] == buf[pos..i]
             else buf' == buf
    ensures buf'[..i - acc] == buf[..pos - acc] + s[pos..i]
  {
    assert buf[pos..i] == s[pos..i];
    if acc > 0 && i > pos {
      assert buf'[..pos - acc] == buf[..pos - acc];
      assert buf'[..i - acc] == buf'[..pos - acc] + buf'[pos - acc..i - acc];
    } else if acc == 0 {
      assert buf[..i] == buf[..pos] + buf[pos..i];
    } else {
      assert s[pos..i] == [];
    }
  }

  // ----- laying down the new string from its end

  /** The bytes of the new string from the k-th match on, and how far the k-th match moves. */
  datatype Layout = Layout(
    s: seq<byte>, e: seq<nat>, flen: nat, r: seq<byte>, after: nat -> seq<byte>, added: nat -> int)

  ghost predicate LayoutLaw(y: Layout, k: nat) {
    k < |y.e| ==>
      && (if k == 0 then y.added(k) == 0 else y.added(k) == y.added(k - 1) + |y.r| - y.flen)
      && y.added(k) >= 0
      && (if k + 1 == |y.e| then y.e[k] == |y.s| && y.after(k) == []
          else
            && y.e[k] + y.flen <= y.e[k + 1] <= |y.s|
            && y.after(k) == y.r + y.s[y.e[k] + y.flen..y.e[k + 1]] + y.after(k + 1))
  }

  ghost predicate LaidOut(y: Layout) {
    y.e != [] && y.flen < |y.r| && forall k: nat {:trigger LayoutLaw(y, k)} :: LayoutLaw(y, k)
  }

  ghost function LayoutOf(s: seq<byte>, e: seq<nat>, f: seq<byte>, r: seq<byte>): Layout
    requires Ordered(s, e, f)
  {
    Layout(s, e, |f|, r, (k: nat) => After(s, e, f, r, k), (k: nat) => Times(k, |r| - |f|))
  }

  ghost function After(s: seq<byte>, e: seq<nat>, f: seq<byte>, r: seq<byte>, k: nat): seq<byte>
    requires Ordered(s, e, f)
  {
    if k >= |e| then []
    else
      assert Ordered(s, e[k..], f);
      Segments(s, e[k..], f, r)
  }

  lemma LayoutIsLawful(s: seq<byte>, e: seq<nat>, f: seq<byte>, r: seq<byte>)
    requires Ordered(s, e, f) && |f| < |r|
    ensures LaidOut(LayoutOf(s, e, f, r))
  {
    forall k: nat
      ensures LayoutLaw(LayoutOf(s, e, f, r), k)
    {
      if k < |e| {
        LayoutLawAt(s, e, f, r, k);
      }
    }
  }

  lemma LayoutLawAt(s: seq<byte>, e: seq<nat>, f: seq<byte>, r: seq<byte>, k: nat)
    requires Ordered(s, e, f) && |f| < |r| && k < |e|
    ensures LayoutLaw(LayoutOf(s, e, f, r), k)
  {
    var y := LayoutOf(s, e, f, r);
    assert y.added(k) == Times(k, |r| - |f|);
    assert k > 0 ==> y.added(k - 1) == Times(k - 1, |r| - |f|);
    AfterAt(s, e, f, r, k);
    assert y.after(k) == After(s, e, f, r, k) && y.after(k + 1) == After(s, e, f, r, k + 1);
  }

  lemma AfterAt(s: seq<byte>, e: seq<nat>, f: seq<byte>, r: seq<byte>, k: nat)
    requires Ordered(s, e, f) && k < |e|
    ensures k + 1 == |e| ==> e[k] == |s| && After(s, e, f, r, k) == []
    ensures k + 1 < |e| ==>
      && e[k] + |f| <= e[k + 1] <= |s|
      && After(s, e, f, r, k) == r + s[e[k] + |f|..e[k + 1]] + After(s, e, f, r, k + 1)
  {
    if k + 1 == |e| {
      assert e[k..] == [|s|];
    } else {
      SegmentsAt(s, e, f, r, k);
    }
  }

  /** From the k-th match on the buffer holds the new string of n bytes; before it, the original. */
  ghost predicate Laid(y: Layout, buf: seq<byte>, k: nat, n: nat) {
    && k < |y.e| && y.added(k) >= 0
    && y.e[k] + y.added(k) + |y.after(k)| == n <= |buf|
    && Agree(buf, y.s, 0, y.e[k]) && buf[y.e[k] + y.added(k)..n] == y.after(k)
  }

  lemma LaidStart(y: Layout, buf: seq<byte>)
    requires LaidOut(y) && |y.s| + y.added(|y.e| - 1) <= |buf| && Agree(buf, y.s, 0, |y.s|)
    ensures y.added(|y.e| - 1) >= 0 && Laid(y, buf, |y.e| - 1, |y.s| + y.added(|y.e| - 1))
  {
    assert LayoutLaw(y, |y.e| - 1);
  }

  /** When all is laid down, the buffer holds the new string. */
  lemma LaidAll(y: Layout, buf: seq<byte>, rest: seq<byte>, n: nat, start: nat)
    requires LaidOut(y) && Laid(y, buf, 0, n) && start <= y.e[0] <= |y.s| && rest == y.s[start..y.e[0]] + y.after(0)
    ensures buf[..n] == y.s[..start] + rest
  {
    assert LayoutLaw(y, 0);
    TwoParts(buf, y.s, start, y.e[0], n);
  }

  lemma FirstAfter(s: seq<byte>, e: seq<nat>, f: seq<byte>, r: seq<byte>)
    requires Ordered(s, e, f)
    ensures LayoutOf(s, e, f, r).after(0) == Segments(s, e, f, r)
  {
    assert e[0..] == e;
    assert LayoutOf(s, e, f, r).after(0) == After(s, e, f, r, 0);
  }

  lemma TwoParts(buf: seq<byte>, s: seq<byte>, start: nat, m: nat, n: nat)
    requires start <= m <= n <= |buf| && m <= |s| && Agree(buf, s, 0, m)
    ensures buf[..n] == s[..start] + (s[start..m] + buf[m..n])
  {
    assert buf[..m] == s[..m];
  }

  /** One more segment is laid down: the bytes behind the k-th match are moved, and the replacement is written. */
  lemma LaidDown(y: Layout, buf: seq<byte>, buf': seq<byte>, k: nat, n: nat, from: nat, l: nat, to: nat)
    requires k + 1 < |y.e| && LayoutLaw(y, k) && LayoutLaw(y, k + 1) && Laid(y, buf, k + 1, n) && y.flen < |y.r|
    requires from == y.e[k] + y.flen && from + l == y.e[k + 1] && to == from + y.added(k + 1)
    requires |buf| == |buf'| && |y.r| <= to
    requires Agree(buf', buf, 0, to - |y.r|) && Agree(buf', buf, to + l, |buf|)
    requires buf'[to - |y.r|..to] == y.r && buf'[to..to + l] == y.s[from..from + l]
    ensures Laid(y, buf', k, n)
  {
    var x, t, e := y.s[from..from + l], y.after(k + 1), y.e[k];
    assert e + y.added(k) == to - |y.r| && y.after(k) == y.r + x + t && y.e[k + 1] + y.added(k + 1) == to + l;
    LaidBytes(buf, buf', y.r, x, t, to, n);
    StillAgree(buf', buf, y.s, to - |y.r|, y.e[k + 1], e);
  }

  lemma StillAgree(a: seq<byte>, b: seq<byte>, c: seq<byte>, m: nat, n: nat, e: nat)
    requires Agree(a, b, 0, m) && Agree(b, c, 0, n) && e <= m && e <= n
    ensures Agree(a, c, 0, e)
  {
  }

  lemma LaidBytes(buf: seq<byte>, buf': seq<byte>, r: seq<byte>, x: seq<byte>, t: seq<byte>, at: nat, n: nat)
    requires |buf| == |buf'| && |r| <= at && at + |x| <= n <= |buf|
    requires buf[at + |x|..n] == t && Agree(buf', buf, at + |x|, |buf|)
    requires buf'[at - |r|..at] == r && buf'[at..at + |x|] == x
    ensures buf'[at - |r|..n] == r + x + t
  {
    assert buf'[at + |x|..n] == buf[at + |x|..n];
    assert buf'[at - |r|..n] == buf'[at - |r|..at] + buf'[at..at + |x|] + buf'[at + |x|..n];
  }

  lemma Moved(s: seq<byte>, buf: seq<byte>, mid: seq<byte>, from: nat, acc: nat, l: nat)
    requires Agree(buf, s, 0, from + l) && from + acc + l <= |mid|
    requires l > 0 ==> mid[from + acc..from + acc + l] == buf[from..from + l]
    ensures mid[from + acc..from + acc + l] == s[from..from + l]
  {
  }

  /** The layout belongs to the plan, from `start` on. */
  ghost predicate LayoutFits(y: Layout, p: Plan, start: nat) {
    && LaidOut(y) && y.s == p.s && y.flen == |p.f| && y.r == p.r && y.e == p.matches(start) + [|p.s|]
    && y.added(|y.e| - 1) == Times(|y.e| - 1, |p.r| - |p.f|)
    && start <= y.e[0] <= |p.s| && p.rest(start) == p.s[start..y.e[0]] + y.after(0)
    && forall k :: 0 <= k < |y.e| ==> start <= y.e[k]
  }

  /** The layout of a plan. */
  lemma LayoutFor(p: Plan, start: nat) returns (y: Layout)
    requires Planned(p) && |p.f| < |p.r| && start <= |p.s|
    ensures LayoutFits(y, p, start)
  {
    var e := p.matches(start) + [|p.s|];
    PlanIsSegments(p, start, e);
    LayoutIsLawful(p.s, e, p.f, p.r);
    FirstAfter(p.s, e, p.f, p.r);
    y := LayoutOf(p.s, e, p.f, p.r);
  }
}
