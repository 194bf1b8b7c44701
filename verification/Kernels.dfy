/**
 Well-nested code as trees, and what the rounds make of it: every region is
 replaced by its frame around the translation of what is inside.
 */
module Kernels {
  import opened Wrappers
  import opened Nesting
  import opened Rounds

  datatype Code<L, K> =
    | Nil
    | Line(line: L, rest: Code<L, K>)
    | Region(key: K, open: L, body: Code<L, K>, close: L, rest: Code<L, K>)

  /** The code as it is written down. */
  function Lines<L, K>(c: Code<L, K>): seq<L> {
    match c
    case Nil => []
    case Line(l, rest) => [l] + Lines(rest)
    case Region(_, open, body, close, rest) => [open] + Lines(body) + [close] + Lines(rest)
  }

  function RegionCount<L, K>(c: Code<L, K>): nat {
    match c
    case Nil => 0
    case Line(_, rest) => RegionCount(rest)
    case Region(_, _, body, _, rest) => 1 + RegionCount(body) + RegionCount(rest)
  }

  ghost predicate NoEnd<L, K>(kw: Keywords<L, K>, lines: seq<L>, k: K, name: string) {
    forall i :: 0 <= i < |lines| ==> !EndsRegion(kw, lines[i], k, name)
  }

  /** No line opens a region; in clean code none closes one either. */
  ghost predicate Tame<L, K>(kw: Keywords<L, K>, lines: seq<L>, clean: bool) {
    forall i :: 0 <= i < |lines| ==> kw.opens(lines[i]).None? && (clean ==> kw.closes(lines[i]).None?)
  }

  /**
   Regions close with the name they open with, which ends no region of their kind
   inside, and can be translated without opening another one.
   */
  ghost predicate Nested<L, K>(kw: Keywords<L, K>, c: Code<L, K>, clean: bool) {
    match c
    case Nil => true
    case Line(l, rest) => Tame(kw, [l], clean) && Nested(kw, rest, clean)
    case Region(k, open, body, close, rest) =>
      && kw.opens(open) == Some(k) && EndsRegion(kw, close, k, kw.name(open))
      && kw.parse(k, open, close).Frame?
      && Tame(kw, kw.parse(k, open, close).before, clean) && Tame(kw, kw.parse(k, open, close).after, clean)
      && NoEnd(kw, Lines(body), k, kw.name(open))
      && Nested(kw, body, clean) && Nested(kw, rest, clean)
  }

  /** Nested regions and nothing else that is a keyword. */
  ghost predicate WellNested<L, K>(kw: Keywords<L, K>, c: Code<L, K>) {
    Nested(kw, c, true)
  }

  /** The complete translation. */
  function Flat<L, K>(kw: Keywords<L, K>, c: Code<L, K>): seq<L> {
    match c
    case Nil => []
    case Line(l, rest) => [l] + Flat(kw, rest)
    case Region(k, open, body, close, rest) =>
      var frame := kw.parse(k, open, close);
      if frame.Frame? then frame.before + Flat(kw, body) + frame.after + Flat(kw, rest) else Flat(kw, rest)
  }

  // ----- one round on a tree

  function Prepend<L, K>(lines: seq<L>, c: Code<L, K>): (r: Code<L, K>)
    ensures RegionCount(r) == RegionCount(c)
  {
    if lines == [] then c else Line(lines[0], Prepend(lines[1..], c))
  }

  function Append<L, K>(a: Code<L, K>, b: Code<L, K>): (r: Code<L, K>)
    ensures RegionCount(r) == RegionCount(a) + RegionCount(b)
  {
    match a
    case Nil => b
    case Line(l, rest) => Line(l, Append(rest, b))
    case Region(k, open, body, close, rest) => Code.Region(k, open, body, close, Append(rest, b))
  }

  lemma {:induction false} PrependIs<L, K>(kw: Keywords<L, K>, lines: seq<L>, c: Code<L, K>, clean: bool)
    ensures Lines(Prepend(lines, c)) == lines + Lines(c)
    ensures Flat(kw, Prepend(lines, c)) == lines + Flat(kw, c)
    ensures Tame(kw, lines, clean) && Nested(kw, c, clean) ==> Nested(kw, Prepend(lines, c), clean)
    decreases |lines|
  {
    if lines != [] {
      PrependIs(kw, lines[1..], c, clean);
      assert lines == [lines[0]] + lines[1..];
      Regroup([lines[0]], lines[1..], Lines(c));
      Regroup([lines[0]], lines[1..], Flat(kw, c));
    }
  }

  lemma {:induction false} AppendIs<L, K>(kw: Keywords<L, K>, a: Code<L, K>, b: Code<L, K>, clean: bool)
    ensures Lines(Append(a, b)) == Lines(a) + Lines(b)
    ensures Flat(kw, Append(a, b)) == Flat(kw, a) + Flat(kw, b)
    ensures Nested(kw, a, clean) && Nested(kw, b, clean) ==> Nested(kw, Append(a, b), clean)
    decreases a
  {
    if a.Line? {
      AppendIs(kw, a.rest, b, clean);
      Regroup([a.line], Lines(a.rest), Lines(b));
      Regroup([a.line], Flat(kw, a.rest), Flat(kw, b));
    } else if a.Region? {
      AppendIs(kw, a.rest, b, clean);
      Regroup([a.open] + Lines(a.body) + [a.close], Lines(a.rest), Lines(b));
      var frame := kw.parse(a.key, a.open, a.close);
      if frame.Frame? {
        Regroup(frame.before + Flat(kw, a.body) + frame.after, Flat(kw, a.rest), Flat(kw, b));
      }
    }
  }

  /** The region with its frame in place: the body lines are ordinary lines of the code now. */
  function Unwrapped<L, K>(frame: Frame<L>, body: Code<L, K>): (r: Code<L, K>)
    requires frame.Frame?
    ensures RegionCount(r) == RegionCount(body)
  {
    Prepend(frame.before, Append(body, Prepend(frame.after, Nil)))
  }

  lemma UnwrappedIs<L, K>(kw: Keywords<L, K>, frame: Frame<L>, body: Code<L, K>, clean: bool)
    requires frame.Frame?
    ensures Lines(Unwrapped(frame, body)) == frame.before + Lines(body) + frame.after
    ensures Flat(kw, Unwrapped(frame, body)) == frame.before + Flat(kw, body) + frame.after
    ensures Tame(kw, frame.before, clean) && Tame(kw, frame.after, clean) && Nested(kw, body, clean) ==>
      Nested(kw, Unwrapped(frame, body), clean)
  {
    var after: Code<L, K> := Prepend(frame.after, Nil);
    PrependIs(kw, frame.after, Nil, clean);
    AppendIs(kw, body, after, clean);
    PrependIs(kw, frame.before, Append(body, after), clean);
    Regroup(frame.before, Lines(body), frame.after);
    Regroup(frame.before, Flat(kw, body), frame.after);
  }

  /** The tree after one round. */
  ghost function One<L, K>(kw: Keywords<L, K>, c: Code<L, K>): Code<L, K>
    decreases RegionCount(c), c
  {
    match c
    case Nil => Nil
    case Line(l, rest) => Line(l, One(kw, rest))
    case Region(k, open, body, close, rest) =>
      var frame := kw.parse(k, open, close);
      if frame.Frame? then Append(One(kw, Unwrapped(frame, body)), rest) else c
  }

  lemma {:induction false} FirstEndAt<L, K>(kw: Keywords<L, K>, a: seq<L>, x: L, b: seq<L>, k: K, name: string)
    requires NoEnd(kw, a, k, name) && EndsRegion(kw, x, k, name)
    ensures FirstEnd(kw, a + ([x] + b), k, name) == |a|
    decreases |a|
  {
    var s := a + ([x] + b);
    if a != [] {
      assert s[1..] == a[1..] + ([x] + b);
      FirstEndAt(kw, a[1..], x, b, k, name);
    }
  }

  lemma Shifted<L>(l: L, code: seq<L>, o: nat, c: nat)
    requires o < c < |code|
    ensures ([l] + code)[o + 2..c + 1] == code[o + 1..c] && ([l] + code)[o + 2..] == code[o + 1..]
    ensures ([l] + code)[..o + 1] == [l] + code[..o] && ([l] + code)[c + 2..] == code[c + 1..]
    ensures ([l] + code)[o + 1] == code[o] && ([l] + code)[c + 1] == code[c]
  {
  }

  lemma FirstRegionShifted<L, K>(kw: Keywords<L, K>, l: L, code: seq<L>)
    requires kw.opens(l).None?
    ensures FirstRegion(kw, [l] + code) ==
      match FirstRegion(kw, code)
      case NoRegion => NoRegion
      case Unclosed => Unclosed
      case Region(o, k, c) => Nesting.Region(o + 1, k, c + 1)
  {
    var s, o := [l] + code, FirstOpen(kw, code);
    assert s[1..] == code && FirstOpen(kw, s) == o + 1;
    if o < |code| {
      assert s[o + 2..] == code[o + 1..];
    }
  }

  lemma InFront<L>(l: L, code: seq<L>, o: nat, c: nat, lines: seq<L>)
    requires o < c < |code|
    ensures ([l] + code)[..o + 1] + lines + ([l] + code)[c + 2..] == [l] + (code[..o] + lines + code[c + 1..])
  {
    Shifted(l, code, o, c);
  }

  // a round as a function of the code, known by what it does with the first region

  datatype Round<!L, !K> = Round(
    region: seq<L> -> Nesting.Region<K>, parse: (K, L, L) -> Frame<L>, result: seq<L> -> Parsed<L>)

  function Around<L>(p: Parsed<L>, pre: seq<L>, post: seq<L>): Parsed<L> {
    match p
    case Ok(lines) => Ok(pre + lines + post)
    case _ => p
  }

  ghost predicate Law<L, K>(rd: Round<L, K>, code: seq<L>) {
    match rd.region(code)
    case NoRegion => rd.result(code) == Ok(code)
    case Unclosed => rd.result(code) == Invalid
    case Region(o, k, c) =>
      && o < c < |code|
      && var frame := rd.parse(k, code[o], code[c]);
         if frame.Frame?
         then rd.result(code) == Around(rd.result(Translated(frame, code, o, c)), code[..o], code[c + 1..])
         else !rd.result(code).Ok?
  }

  ghost function RoundOf<L(!new), K(!new)>(kw: Keywords<L, K>): Round<L, K>
    requires Shrinking(kw)
  {
    Round(code => FirstRegion(kw, code), kw.parse, code => Analyse(kw, code))
  }

  lemma RoundLaw<L(!new), K(!new)>(kw: Keywords<L, K>, code: seq<L>)
    requires Shrinking(kw)
    ensures Law(RoundOf(kw), code)
  {
    var r := FirstRegion(kw, code);
    if r.Region? {
      var frame := kw.parse(r.key, code[r.open], code[r.end]);
      if frame.Frame? {
        AnalyseUnfolded(kw, code, r, frame);
      }
    }
  }

  function OneLater<K>(r: Nesting.Region<K>): Nesting.Region<K> {
    match r
    case Region(o, k, c) => Nesting.Region(o + 1, k, c + 1)
    case _ => r
  }

  /** A line that is not an opening keyword is carried along in front. */
  lemma LineInFront<L(!new), K(!new)>(kw: Keywords<L, K>, l: L, code: seq<L>)
    requires Shrinking(kw) && kw.opens(l).None? && Analyse(kw, code).Ok?
    ensures Analyse(kw, [l] + code) == Ok([l] + Analyse(kw, code).lines)
  {
    RoundLaw(kw, code);
    RoundLaw(kw, [l] + code);
    FirstRegionShifted(kw, l, code);
    LineBefore(RoundOf(kw), l, code);
  }

  lemma LineBefore<L, K>(rd: Round<L, K>, l: L, code: seq<L>)
    requires Law(rd, code) && Law(rd, [l] + code) && rd.region([l] + code) == OneLater(rd.region(code))
    requires rd.result(code).Ok?
    ensures rd.result([l] + code) == Ok([l] + rd.result(code).lines)
  {
    var r := rd.region(code);
    if r.Region? {
      var frame := rd.parse(r.key, code[r.open], code[r.end]);
      SameTranslation(l, frame, code, r.open, r.end);
      AroundBehind(
        rd.result(code), rd.result([l] + code), rd.result(Translated(frame, code, r.open, r.end)),
        l, code, r.open, r.end);
    }
  }

  /** The code around the region is the same, with one more line in front. */
  lemma AroundBehind<L>(p: Parsed<L>, q: Parsed<L>, inner: Parsed<L>, l: L, code: seq<L>, o: nat, c: nat)
    requires o < c < |code| && p.Ok?
    requires p == Around(inner, code[..o], code[c + 1..])
    requires q == Around(inner, ([l] + code)[..o + 1], ([l] + code)[c + 2..])
    ensures q == Ok([l] + p.lines)
  {
    InFront(l, code, o, c, inner.lines);
  }

  lemma SameTranslation<L>(l: L, frame: Frame<L>, code: seq<L>, o: nat, c: nat)
    requires o < c < |code| && frame.Frame?
    ensures Translated(frame, [l] + code, o + 1, c + 1) == Translated(frame, code, o, c)
    ensures ([l] + code)[o + 1] == code[o] && ([l] + code)[c + 1] == code[c]
  {
    Shifted(l, code, o, c);
  }

  /** A region in front: the round goes into it, what follows is carried along. */
  lemma RegionInFront<L(!new), K(!new)>(
    kw: Keywords<L, K>, k: K, open: L, body: seq<L>, close: L, rest: seq<L>, frame: Frame<L>)
    requires Shrinking(kw) && kw.opens(open) == Some(k) && EndsRegion(kw, close, k, kw.name(open))
    requires NoEnd(kw, body, k, kw.name(open)) && frame == kw.parse(k, open, close) && frame.Frame?
    requires Analyse(kw, frame.before + body + frame.after).Ok?
    ensures Analyse(kw, [open] + body + [close] + rest)
         == Ok(Analyse(kw, frame.before + body + frame.after).lines + rest)
  {
    var s, n := [open] + body + [close] + rest, |body|;
    assert s[1..] == body + ([close] + rest);
    FirstEndAt(kw, body, close, rest, k, kw.name(open));
    var r := FirstRegion(kw, s);
    assert r == Nesting.Region(0, k, n + 1);
    assert s[1..n + 1] == body && s[n + 1] == close && s[n + 2..] == rest;
    var tmp := Translated(frame, s, 0, n + 1);
    AnalyseRegion(kw, s, r, frame, tmp);
    assert s[..0] + Analyse(kw, tmp).lines == Analyse(kw, tmp).lines;
  }

  /** One round on nested code is one step on the tree, which keeps the complete translation. */
  lemma {:induction false} OneRound<L(!new), K(!new)>(kw: Keywords<L, K>, c: Code<L, K>, clean: bool)
    requires Shrinking(kw) && Nested(kw, c, clean)
    ensures Analyse(kw, Lines(c)) == Ok(Lines(One(kw, c)))
    ensures Nested(kw, One(kw, c), clean) && Flat(kw, One(kw, c)) == Flat(kw, c)
    ensures RegionCount(c) > 0 ==> RegionCount(One(kw, c)) < RegionCount(c)
    ensures RegionCount(c) == 0 ==> RegionCount(One(kw, c)) == 0
    decreases RegionCount(c), c
  {
    match c {
      case Nil =>
      case Line(l, rest) =>
        OneRound(kw, rest, clean);
        assert [l][0] == l;
        LineInFront(kw, l, Lines(rest));
      case Region(k, open, body, close, rest) =>
        var frame := kw.parse(k, open, close);
        var inner := Unwrapped(frame, body);
        UnwrappedIs(kw, frame, body, clean);
        OneRound(kw, inner, clean);
        RegionInFront(kw, k, open, Lines(body), close, Lines(rest), frame);
        AppendIs(kw, One(kw, inner), rest, clean);
    }
  }

  // ----- all rounds

  /** Without regions nothing is translated. */
  lemma {:induction false} NoRegions<L, K>(kw: Keywords<L, K>, c: Code<L, K>, clean: bool)
    requires Nested(kw, c, clean) && RegionCount(c) == 0
    ensures Tame(kw, Lines(c), clean) && Flat(kw, c) == Lines(c)
    ensures clean ==> !HasKeyword(kw, Lines(c))
  {
    if c.Line? {
      NoRegions(kw, c.rest, clean);
      forall i | 0 <= i < |Lines(c)|
        ensures kw.opens(Lines(c)[i]).None? && (clean ==> kw.closes(Lines(c)[i]).None?)
      {
        assert i > 0 ==> Lines(c)[i] == Lines(c.rest)[i - 1];
        assert i == 0 ==> Lines(c)[i] == [c.line][0];
      }
    }
  }

  lemma {:induction false} HasOpening<L, K>(kw: Keywords<L, K>, c: Code<L, K>, clean: bool)
    requires Nested(kw, c, clean) && RegionCount(c) > 0
    ensures FirstOpen(kw, Lines(c)) < |Lines(c)|
    ensures HasKeyword(kw, Lines(c))
  {
    var s := Lines(c);
    if c.Line? {
      HasOpening(kw, c.rest, clean);
      assert s[1..] == Lines(c.rest);
    }
    assert kw.IsKeyword(s[FirstOpen(kw, s)]);
  }

  /** Well-nested code is translated completely, in however many rounds that takes. */
  lemma {:induction false} RoundsTranslate<L(!new), K(!new)>(kw: Keywords<L, K>, c: Code<L, K>)
    requires Shrinking(kw) && WellNested(kw, c)
    ensures Run(kw, Lines(c)) == Done(Flat(kw, c))
    decreases RegionCount(c)
  {
    OneRound(kw, c, true);
    var d := One(kw, c);
    if RegionCount(d) == 0 {
      NoRegions(kw, d, true);
    } else {
      HasOpening(kw, c, true);
      HasOpening(kw, d, true);
      RoundsTranslate(kw, d);
    }
  }

  /** No round fails on nested code, whatever closing lines there are besides. */
  lemma {:induction false} NoRoundFails<L(!new), K(!new)>(kw: Keywords<L, K>, c: Code<L, K>)
    requires Shrinking(kw) && Nested(kw, c, false)
    ensures Run(kw, Lines(c)).Done? || Run(kw, Lines(c)).Forever?
    decreases RegionCount(c)
  {
    OneRound(kw, c, false);
    if RegionCount(c) == 0 {
      NoRegions(kw, c, false);
      FirstOpenAt(kw, Lines(c), |Lines(c)|);
    } else {
      HasOpening(kw, c, false);
      NoRoundFails(kw, One(kw, c));
    }
  }

  /** A region whose frame holds a closing keyword, but no opening one, keeps the rounds going for ever. */
  lemma LoneRegionStuck<L(!new), K(!new)>(kw: Keywords<L, K>, k: K, open: L, close: L, frame: Frame<L>)
    requires Shrinking(kw) && kw.opens(open) == Some(k) && EndsRegion(kw, close, k, kw.name(open))
    requires frame == kw.parse(k, open, close) && frame.Frame?
    requires forall i :: 0 <= i < |frame.before| ==> kw.opens(frame.before[i]).None?
    requires forall i :: 0 <= i < |frame.after| ==> kw.opens(frame.after[i]).None?
    requires exists i :: 0 <= i < |frame.before| && kw.closes(frame.before[i]).Some?
    ensures Run(kw, [open, close]).Forever?
  {
    var code, tmp := [open, close], frame.before + [] + frame.after;
    FirstOpenAt(kw, tmp, |tmp|);
    assert Analyse(kw, tmp) == Ok(tmp);
    RegionInFront(kw, k, open, [], close, [], frame);
    assert [open] + [] + [close] + [] == code && tmp + [] == tmp;
    var i :| 0 <= i < |frame.before| && kw.closes(frame.before[i]).Some?;
    assert kw.IsKeyword(tmp[i]);
    assert FirstOpen(kw, code) == 0;
  }
}
