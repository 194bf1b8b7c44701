/**
 Nested regions of lines that are translated from the outside in, as
 _analyse_keyword of src/ptt2asm.c does it. The module knows the table of
 keywords (ptt_keys, with its parse functions) only as functions on lines.
 */
module Nesting {
  import opened Wrappers

  // ----- the table of keywords

  /** Undefined: the source goes on with a variable or a list entry that was never set. */
  datatype Parsed<L> = Ok(lines: seq<L>) | Invalid | Undefined

  /** The lines that take the place of the first and of the last line of a region. */
  datatype Frame<L> = Frame(before: seq<L>, after: seq<L>) | BadArguments | UnsetValue

  /**
   Which kind of region a line opens or closes, its name, and the translation.
   `parsable` is true of every opening line that a translation can come from.
   */
  datatype Keywords<!L, !K> = Keywords(
    opens: L -> Option<K>,
    closes: L -> Option<K>,
    name: L -> string,
    parse: (K, L, L) -> Frame<L>,
    parsable: L -> bool)
  {
    predicate IsKeyword(l: L) {
      opens(l).Some? || closes(l).Some?
    }
  }

  function Count<L>(p: L -> bool, code: seq<L>): nat
    decreases |code|
  {
    if code == [] then 0 else (if p(code[0]) then 1 else 0) + Count(p, code[1..])
  }

  lemma {:induction false} CountSum<L>(p: L -> bool, a: seq<L>, b: seq<L>)
    ensures Count(p, a + b) == Count(p, a) + Count(p, b)
    decreases |a|
  {
    if a == [] {
      assert a + b == b;
    } else {
      assert (a + b)[1..] == a[1..] + b;
      CountSum(p, a[1..], b);
    }
  }

  lemma CountAround<L>(p: L -> bool, a: seq<L>, b: seq<L>, c: seq<L>)
    ensures Count(p, a + b + c) == Count(p, a) + Count(p, b) + Count(p, c)
  {
    CountSum(p, a + b, c);
    CountSum(p, a, b);
  }

  lemma CountOne<L>(p: L -> bool, l: L)
    ensures Count(p, [l]) == if p(l) then 1 else 0
  {
    assert [l][1..] == [];
  }

  lemma {:induction false} CountNone<L>(p: L -> bool, code: seq<L>)
    ensures Count(p, code) == 0 <==> forall i :: 0 <= i < |code| ==> !p(code[i])
    decreases |code|
  {
    if code != [] {
      CountNone(p, code[1..]);
      assert forall i :: 1 <= i < |code| ==> code[i] == code[1..][i - 1];
    }
  }

  /** A translation comes from a parsable line only, and puts no parsable line in. */
  ghost predicate Shrinking<L(!new), K(!new)>(kw: Keywords<L, K>) {
    forall k, a, b {:trigger kw.parse(k, a, b)} :: kw.parse(k, a, b).Frame? ==>
      && kw.parsable(a)
      && Count(kw.parsable, kw.parse(k, a, b).before) == 0 && Count(kw.parsable, kw.parse(k, a, b).after) == 0
  }

  // ----- the first region

  function FirstOpen<L, K>(kw: Keywords<L, K>, code: seq<L>): (o: nat)
    ensures o <= |code| && (o < |code| ==> kw.opens(code[o]).Some?)
    ensures forall i :: 0 <= i < o ==> kw.opens(code[i]).None?
    decreases |code|
  {
    if code == [] || kw.opens(code[0]).Some? then 0 else 1 + FirstOpen(kw, code[1..])
  }

  lemma {:induction false} FirstOpenAt<L, K>(kw: Keywords<L, K>, code: seq<L>, n: nat)
    requires n <= |code| && (n < |code| ==> kw.opens(code[n]).Some?)
    requires forall i :: 0 <= i < n ==> kw.opens(code[i]).None?
    ensures FirstOpen(kw, code) == n
    decreases |code|
  {
    if n > 0 {
      FirstOpenAt(kw, code[1..], n - 1);
    }
  }

  /** The line ends the region of this kind and name. */
  predicate EndsRegion<L, K(==)>(kw: Keywords<L, K>, l: L, k: K, name: string) {
    kw.closes(l) == Some(k) && kw.name(l) == name
  }

  function FirstEnd<L, K(==)>(kw: Keywords<L, K>, code: seq<L>, k: K, name: string): (c: nat)
    ensures c <= |code| && (c < |code| ==> EndsRegion(kw, code[c], k, name))
    ensures forall i :: 0 <= i < c ==> !EndsRegion(kw, code[i], k, name)
    decreases |code|
  {
    if code == [] || EndsRegion(kw, code[0], k, name) then 0 else 1 + FirstEnd(kw, code[1..], k, name)
  }

  datatype Region<K> = NoRegion | Unclosed | Region(open: nat, key: K, end: nat)

  function FirstRegion<L, K(==)>(kw: Keywords<L, K>, code: seq<L>): (r: Region<K>)
    ensures r.Region? ==> r.open + 1 <= r.end < |code|
  {
    var o := FirstOpen(kw, code);
    if o == |code| then NoRegion
    else
      var k := kw.opens(code[o]).value;
      var c := o + 1 + FirstEnd(kw, code[o + 1..], k, kw.name(code[o]));
      if c == |code| then Unclosed else Region(o, k, c)
  }

  // ----- one round

  lemma {:induction false} FillShrinks<L>(p: L -> bool, frame: Frame<L>, code: seq<L>, o: nat, c: nat)
    requires o < c < |code| && frame.Frame? && p(code[o])
    requires Count(p, frame.before) == 0 && Count(p, frame.after) == 0
    ensures Count(p, Translated(frame, code, o, c))
         <= Count(p, code) - 1 - Count(p, code[..o]) - Count(p, code[c + 1..])
  {
    CountAround(p, frame.before, code[o + 1..c], frame.after);
    Cut(code, o, c);
    CountAround(p, code[..o] + [code[o]], code[o + 1..c], [code[c]] + code[c + 1..]);
    CountSum(p, code[..o], [code[o]]);
    CountSum(p, [code[c]], code[c + 1..]);
    CountOne(p, code[o]);
  }

  lemma Cut<L>(code: seq<L>, o: nat, c: nat)
    requires o < c < |code|
    ensures code == code[..o] + [code[o]] + code[o + 1..c] + ([code[c]] + code[c + 1..])
  {
  }

  /** The region between o and c with its first and last line replaced. */
  function Translated<L>(frame: Frame<L>, code: seq<L>, o: nat, c: nat): seq<L>
    requires frame.Frame? && o < c < |code|
  {
    frame.before + code[o + 1..c] + frame.after
  }

  /** _analyse_keyword */
  function Analyse<L(!new), K(!new, ==)>(kw: Keywords<L, K>, code: seq<L>): Parsed<L>
    requires Shrinking(kw)
    decreases Count(kw.parsable, code)
  {
    match FirstRegion(kw, code)
    case NoRegion => Ok(code)
    case Unclosed => Invalid
    case Region(o, k, c) =>
      match kw.parse(k, code[o], code[c])
      case BadArguments => Invalid
      case UnsetValue => Undefined
      case Frame(before, after) =>
        FillShrinks(kw.parsable, kw.parse(k, code[o], code[c]), code, o, c);
        match Analyse(kw, Translated(Frame(before, after), code, o, c))
        case Ok(lines) => Ok(code[..o] + lines + code[c + 1..])
        case Invalid => Invalid
        case Undefined => Undefined
  }

  lemma {:induction false} AnalyseShrinks<L(!new), K(!new)>(kw: Keywords<L, K>, code: seq<L>)
    requires Shrinking(kw) && Analyse(kw, code).Ok?
    ensures FirstRegion(kw, code).NoRegion? ==> Analyse(kw, code).lines == code
    ensures !FirstRegion(kw, code).NoRegion? ==> Count(kw.parsable, Analyse(kw, code).lines) < Count(kw.parsable, code)
    decreases Count(kw.parsable, code)
  {
    var r := FirstRegion(kw, code);
    if r.Region? {
      var frame := kw.parse(r.key, code[r.open], code[r.end]);
      var tmp := Translated(frame, code, r.open, r.end);
      AnalyseRegion(kw, code, r, frame, tmp);
      AnalyseShrinks(kw, tmp);
      CountAround(kw.parsable, code[..r.open], Analyse(kw, tmp).lines, code[r.end + 1..]);
    }
  }

  lemma AnalyseUnfolded<L(!new), K(!new)>(kw: Keywords<L, K>, code: seq<L>, r: Region<K>, frame: Frame<L>)
    requires Shrinking(kw) && r == FirstRegion(kw, code) && r.Region?
    requires frame == kw.parse(r.key, code[r.open], code[r.end]) && frame.Frame?
    ensures Analyse(kw, code) ==
      match Analyse(kw, Translated(frame, code, r.open, r.end))
      case Ok(lines) => Ok(code[..r.open] + lines + code[r.end + 1..])
      case Invalid => Invalid
      case Undefined => Undefined
  {
  }

  /** A round with a region in the code, one step unfolded. */
  lemma AnalyseRegion<L(!new), K(!new)>(
    kw: Keywords<L, K>, code: seq<L>, r: Region<K>, frame: Frame<L>, tmp: seq<L>)
    requires Shrinking(kw) && r == FirstRegion(kw, code) && r.Region?
    requires frame == kw.parse(r.key, code[r.open], code[r.end]) && frame.Frame?
    requires tmp == Translated(frame, code, r.open, r.end)
    ensures Count(kw.parsable, tmp)
         <= Count(kw.parsable, code) - 1 - Count(kw.parsable, code[..r.open]) - Count(kw.parsable, code[r.end + 1..])
    ensures Analyse(kw, tmp).Ok? ==>
      Analyse(kw, code) == Ok(code[..r.open] + Analyse(kw, tmp).lines + code[r.end + 1..])
    ensures !Analyse(kw, tmp).Ok? ==> Analyse(kw, code) == Analyse(kw, tmp)
  {
    FillShrinks(kw.parsable, frame, code, r.open, r.end);
    AnalyseUnfolded(kw, code, r, frame);
  }

  // ----- the scan

  /** What the scan has collected when it has read `line` lines; o and c are where the first region opens and ends. */
  ghost predicate Scanned<L, K>(
    code: seq<L>, o: nat, c: nat, line: nat, keyIdx: Option<K>, analyzeKey: Option<K>,
    pre: seq<L>, body: seq<L>, post: seq<L>)
  {
    && line <= |code| && o <= |code| && c <= |code|
    && if keyIdx == None && analyzeKey == None then line <= o && pre == code[..line] && body == post == []
       else if analyzeKey == None then o < line <= c && pre == code[..o] && body == code[o..line] && post == []
       else keyIdx == None && o < c < line && pre == code[..o] && body == code[o..c + 1] && post == code[c + 1..line]
  }

  lemma Snoc<L>(code: seq<L>, lo: nat, line: nat)
    requires lo <= line < |code|
    ensures code[lo..line] + [code[line]] == code[lo..line + 1]
    ensures code[..line] + [code[line]] == code[..line + 1]
  {
  }

  /** Where the first region opens and ends, in the numbering of the whole code. */
  ghost predicate Bounds<L, K>(kw: Keywords<L, K>, code: seq<L>, o: nat, c: nat) {
    && o <= |code| && c <= |code|
    && (forall i :: 0 <= i < o ==> kw.opens(code[i]).None?)
    && (o < |code| ==>
      && o < c && kw.opens(code[o]).Some?
      && (forall i :: o < i < c ==> !EndsRegion(kw, code[i], kw.opens(code[o]).value, kw.name(code[o])))
      && (c < |code| ==> EndsRegion(kw, code[c], kw.opens(code[o]).value, kw.name(code[o]))))
  }

  lemma RegionBounds<L, K>(kw: Keywords<L, K>, code: seq<L>) returns (o: nat, c: nat)
    ensures Bounds(kw, code, o, c) && o == FirstOpen(kw, code)
    ensures o < |code| ==> c == o + 1 + FirstEnd(kw, code[o + 1..], kw.opens(code[o]).value, kw.name(code[o]))
  {
    o := FirstOpen(kw, code);
    c := |code|;
    if o < |code| {
      var k, name := kw.opens(code[o]).value, kw.name(code[o]);
      c := o + 1 + FirstEnd(kw, code[o + 1..], k, name);
      forall i | o < i < |code|
        ensures code[i] == code[o + 1..][i - o - 1]
      {
      }
    }
  }

  /** The first opening line is met. */
  lemma ScanOpens<L, K>(
    kw: Keywords<L, K>, code: seq<L>, o: nat, c: nat, line: nat, pre: seq<L>, body: seq<L>, post: seq<L>)
    requires Bounds(kw, code, o, c) && line < |code| && kw.opens(code[line]).Some?
    requires Scanned<L, K>(code, o, c, line, None, None, pre, body, post)
    ensures line == o && Scanned(code, o, c, line + 1, kw.opens(code[line]), None, pre, body + [code[line]], post)
  {
    assert [code[line]] == code[line..line + 1];
  }

  /** A line of the region; it may be the last one. */
  lemma ScanInside<L, K>(
    kw: Keywords<L, K>, code: seq<L>, o: nat, c: nat, line: nat, key: Option<K>,
    pre: seq<L>, body: seq<L>, post: seq<L>)
    requires Bounds(kw, code, o, c) && line < |code| && key != None
    requires Scanned(code, o, c, line, key, None, pre, body, post) && key == kw.opens(code[o])
    ensures if EndsRegion(kw, code[line], key.value, kw.name(code[o]))
            then Scanned(code, o, c, line + 1, None, key, pre, body + [code[line]], post)
            else Scanned(code, o, c, line + 1, key, None, pre, body + [code[line]], post)
  {
    Snoc(code, o, line);
  }

  /** A line before the region or behind it. */
  lemma ScanOutside<L, K>(
    kw: Keywords<L, K>, code: seq<L>, o: nat, c: nat, line: nat, done: Option<K>,
    pre: seq<L>, body: seq<L>, post: seq<L>)
    requires Bounds(kw, code, o, c) && line < |code| && (done == None ==> kw.opens(code[line]).None?)
    requires Scanned(code, o, c, line, None, done, pre, body, post)
    ensures done == None ==> Scanned(code, o, c, line + 1, None, done, pre + [code[line]], body, post)
    ensures done != None ==> Scanned(code, o, c, line + 1, None, done, pre, body, post + [code[line]])
  {
    if done == None {
      Snoc(code, 0, line);
    } else {
      Snoc(code, c + 1, line);
    }
  }

  /** What the scan has collected at the end of the code is the code cut at its first region. */
  lemma ScanEnds<L, K>(
    kw: Keywords<L, K>, code: seq<L>, o: nat, c: nat, key: Option<K>, analyzed: Option<K>,
    pre: seq<L>, body: seq<L>, post: seq<L>)
    requires Bounds(kw, code, o, c) && o == FirstOpen(kw, code)
    requires o < |code| ==> c == o + 1 + FirstEnd(kw, code[o + 1..], kw.opens(code[o]).value, kw.name(code[o]))
    requires Scanned(code, o, c, |code|, key, analyzed, pre, body, post)
    requires (key != None ==> key == kw.opens(code[o])) && (analyzed != None ==> analyzed == kw.opens(code[o]))
    ensures key != None || analyzed != None <==> !FirstRegion(kw, code).NoRegion?
    ensures var r := FirstRegion(kw, code);
      && (r.NoRegion? ==> analyzed == None && pre == code && body == post == [])
      && (r.Unclosed? ==> analyzed == None)
      && (r.Region? ==>
        && analyzed == Some(r.key)
        && pre == code[..r.open] && body == code[r.open..r.end + 1] && post == code[r.end + 1..])
  {
    assert code[..|code|] == code;
    assert c < |code| ==> code[c + 1..|code|] == code[c + 1..];
  }

  /** One pass over the lines: before the first region, the region, and after it. */
  method Scan<L(!new, ==), K(!new, ==)>(kw: Keywords<L, K>, code: seq<L>)
    returns (pre: seq<L>, body: seq<L>, post: seq<L>, analyzeKey: Option<K>, openingKeyLine: int, closingKeyLine: int)
    ensures openingKeyLine >= 0 <==> !FirstRegion(kw, code).NoRegion?
    ensures closingKeyLine >= 0 <==> analyzeKey != None
    ensures match FirstRegion(kw, code)
            case NoRegion => analyzeKey == None && pre == code && body == post == []
            case Unclosed => analyzeKey == None
            case Region(o, k, c) =>
              analyzeKey == Some(k) && pre == code[..o] && body == code[o..c + 1] && post == code[c + 1..]
  {
    ghost var o, c := RegionBounds(kw, code);
    var line, keyIdx, openname := 0, None, "";
    openingKeyLine, closingKeyLine, analyzeKey := -1, -1, None;
    pre, body, post := [], [], [];
    while line < |code|
      invariant 0 <= line <= |code| && Scanned(code, o, c, line, keyIdx, analyzeKey, pre, body, post)
      invariant keyIdx != None ==> keyIdx == kw.opens(code[o]) && openname == kw.name(code[o])
      invariant analyzeKey != None ==> analyzeKey == kw.opens(code[o])
      invariant openingKeyLine >= 0 <==> keyIdx != None || analyzeKey != None
      invariant closingKeyLine >= 0 <==> analyzeKey != None
    {
      if keyIdx == None && analyzeKey == None {
        var found := kw.opens(code[line]);
        if found.Some? {
          ScanOpens(kw, code, o, c, line, pre, body, post);
          openname := kw.name(code[line]);
          body := body + [code[line]];
          keyIdx := found;
          openingKeyLine := line;
          line := line + 1;
          continue;
        }
      }
      if keyIdx != None && analyzeKey == None {
        ScanInside(kw, code, o, c, line, keyIdx, pre, body, post);
        body := body + [code[line]];
        if kw.closes(code[line]) == keyIdx {
          var closename := kw.name(code[line]);
          if openname == closename {
            analyzeKey := keyIdx;
            keyIdx := None;
            closingKeyLine := line;
          }
        }
      } else if analyzeKey == None {
        ScanOutside(kw, code, o, c, line, analyzeKey, pre, body, post);
        pre := pre + [code[line]];
      } else {
        ScanOutside(kw, code, o, c, line, analyzeKey, pre, body, post);
        post := post + [code[line]];
      }
      line := line + 1;
    }
    ScanEnds(kw, code, o, c, keyIdx, analyzeKey, pre, body, post);
  }

  lemma SliceOfSlice<L>(s: seq<L>, a: nat, b: nat, i: nat, j: nat)
    requires a <= b <= |s| && i <= j <= b - a
    ensures s[a..b][i..j] == s[a + i..a + j]
  {
    var x, y := s[a..b][i..j], s[a + i..a + j];
    forall k | 0 <= k < j - i
      ensures x[k] == y[k]
    {
      assert x[k] == s[a..b][i + k] == s[a + i + k];
    }
  }

  lemma Whole<L>(code: seq<L>)
    ensures code + [] + [] == code
  {
  }

  /** The translation of what the scan has found, and the same again inside it. */
  method AnalyseKeyword<L(!new, ==), K(!new, ==)>(kw: Keywords<L, K>, code: seq<L>) returns (result: Parsed<L>)
    requires Shrinking(kw)
    ensures result == Analyse(kw, code)
    decreases Count(kw.parsable, code)
  {
    var pre, body, post, analyzeKey, openingKeyLine, closingKeyLine := Scan(kw, code);
    if openingKeyLine >= 0 && closingKeyLine < 0 {
      return Invalid;
    }
    if analyzeKey != None {
      ghost var r := FirstRegion(kw, code);
      var frame := kw.parse(analyzeKey.value, body[0], body[|body| - 1]);
      if frame.BadArguments? {
        return Invalid;
      } else if frame.UnsetValue? {
        return Undefined;
      }
      var tmp := frame.before + body[1..|body| - 1] + frame.after;
      SliceOfSlice(code, r.open, r.end + 1, 1, r.end - r.open);
      AnalyseRegion(kw, code, r, frame, tmp);
      var inner := AnalyseKeyword(kw, tmp);
      if !inner.Ok? {
        return inner;
      }
      return Ok(pre + inner.lines + post);
    }
    Whole(code);
    return Ok(pre + body + post);
  }

  // ----- what a round keeps

  function Filter<L>(p: L -> bool, code: seq<L>): seq<L>
    decreases |code|
  {
    if code == [] then [] else (if p(code[0]) then [code[0]] else []) + Filter(p, code[1..])
  }

  lemma {:induction false} FilterSum<L>(p: L -> bool, a: seq<L>, b: seq<L>)
    ensures Filter(p, a + b) == Filter(p, a) + Filter(p, b)
    decreases |a|
  {
    if a == [] {
      assert a + b == b;
    } else {
      assert (a + b)[1..] == a[1..] + b;
      FilterSum(p, a[1..], b);
      Regroup(if p(a[0]) then [a[0]] else [], Filter(p, a[1..]), Filter(p, b));
    }
  }

  lemma {:induction false} FilterNone<L>(p: L -> bool, code: seq<L>)
    requires forall i :: 0 <= i < |code| ==> !p(code[i])
    ensures Filter(p, code) == []
    decreases |code|
  {
    if code != [] {
      FilterNone(p, code[1..]);
    }
  }

  /** The lines with the property are neither keywords nor put in by a translation. */
  ghost predicate Untouched<L(!new), K(!new)>(kw: Keywords<L, K>, p: L -> bool) {
    && (forall l :: kw.IsKeyword(l) ==> !p(l))
    && forall k, a, b {:trigger kw.parse(k, a, b)} :: kw.parse(k, a, b).Frame? ==>
         && (forall i :: 0 <= i < |kw.parse(k, a, b).before| ==> !p(kw.parse(k, a, b).before[i]))
         && (forall i :: 0 <= i < |kw.parse(k, a, b).after| ==> !p(kw.parse(k, a, b).after[i]))
  }

  /** Every other line comes out of a round exactly once and in the same order. */
  lemma {:induction false} AnalyseKeeps<L(!new), K(!new)>(kw: Keywords<L, K>, p: L -> bool, code: seq<L>)
    requires Shrinking(kw) && Untouched(kw, p) && Analyse(kw, code).Ok?
    ensures Filter(p, Analyse(kw, code).lines) == Filter(p, code)
    decreases Count(kw.parsable, code)
  {
    var r := FirstRegion(kw, code);
    if r.Region? {
      var frame := kw.parse(r.key, code[r.open], code[r.end]);
      var tmp := Translated(frame, code, r.open, r.end);
      AnalyseRegion(kw, code, r, frame, tmp);
      AnalyseKeeps(kw, p, tmp);
      RegionCloses(kw, code);
      KeepsStep(p, code, r.open, r.end, frame, Analyse(kw, tmp).lines);
    }
  }

  lemma KeepsStep<L>(p: L -> bool, code: seq<L>, o: nat, c: nat, frame: Frame<L>, lines: seq<L>)
    requires o < c < |code| && !p(code[o]) && !p(code[c]) && frame.Frame?
    requires forall i :: 0 <= i < |frame.before| ==> !p(frame.before[i])
    requires forall i :: 0 <= i < |frame.after| ==> !p(frame.after[i])
    requires Filter(p, lines) == Filter(p, Translated(frame, code, o, c))
    ensures Filter(p, code[..o] + lines + code[c + 1..]) == Filter(p, code)
  {
    FilterNone(p, frame.before);
    FilterNone(p, frame.after);
    FilterAround(p, frame.before, code[o + 1..c], frame.after);
    FilterRegion(p, code, o, c);
    FilterAround(p, code[..o], lines, code[c + 1..]);
  }

  lemma FilterAround<L>(p: L -> bool, a: seq<L>, b: seq<L>, c: seq<L>)
    ensures Filter(p, a + b + c) == Filter(p, a) + Filter(p, b) + Filter(p, c)
  {
    FilterSum(p, a + b, c);
    FilterSum(p, a, b);
  }

  lemma FilterRegion<L>(p: L -> bool, code: seq<L>, o: nat, c: nat)
    requires o < c < |code| && !p(code[o]) && !p(code[c])
    ensures Filter(p, code) == Filter(p, code[..o]) + Filter(p, code[o + 1..c]) + Filter(p, code[c + 1..])
  {
    Cut(code, o, c);
    FilterParts(p, code[..o], code[o], code[o + 1..c], code[c], code[c + 1..]);
  }

  lemma FilterParts<L>(p: L -> bool, a: seq<L>, x: L, b: seq<L>, y: L, c: seq<L>)
    requires !p(x) && !p(y)
    ensures Filter(p, a + [x] + b + ([y] + c)) == Filter(p, a) + Filter(p, b) + Filter(p, c)
  {
    FilterAround(p, a + [x], b, [y] + c);
    SkipLast(p, a, x);
    SkipFirst(p, y, c);
  }

  lemma SkipLast<L>(p: L -> bool, a: seq<L>, x: L)
    requires !p(x)
    ensures Filter(p, a + [x]) == Filter(p, a)
  {
    FilterSum(p, a, [x]);
    FilterNone(p, [x]);
  }

  lemma SkipFirst<L>(p: L -> bool, x: L, a: seq<L>)
    requires !p(x)
    ensures Filter(p, [x] + a) == Filter(p, a)
  {
    FilterSum(p, [x], a);
    FilterNone(p, [x]);
  }

  lemma RegionCloses<L, K>(kw: Keywords<L, K>, code: seq<L>)
    requires FirstRegion(kw, code).Region?
    ensures var r := FirstRegion(kw, code);
      && kw.opens(code[r.open]) == Some(r.key) && kw.closes(code[r.end]) == Some(r.key)
      && kw.name(code[r.open]) == kw.name(code[r.end]) && r.open == FirstOpen(kw, code)
  {
    var r := FirstRegion(kw, code);
    assert code[r.end] == code[r.open + 1..][r.end - r.open - 1];
  }
}
