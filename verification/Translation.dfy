/**
 From the text of a kernel to what its assembly does: the compiler of src/ptt2asm.c
 and the code of include/isa_x86-64.h together.
 */
module Translation {
  import opened Wrappers
  import opened Splitting
  import opened Nesting
  import Rounds
  import opened Kernels
  import opened Labels
  import opened Ptt
  import opened Compiler
  import opened Machine
  import opened Simulation
  import opened CodeGen
  import opened Loops

  // ----- the name of a region is its first argument

  predicate AllBlank(s: string) {
    forall i :: 0 <= i < |s| ==> Blank(s[i])
  }

  lemma {:induction false} TrimLeftSkips(w: string, x: string)
    requires AllBlank(w)
    ensures TrimLeft(w + x) == TrimLeft(x)
  {
    if w == [] {
      assert w + x == x;
    } else {
      assert (w + x)[1..] == w[1..] + x;
      TrimLeftSkips(w[1..], x);
    }
  }

  lemma {:induction false} TrimRightParts(s: string)
    ensures TrimRight(s) <= s && AllBlank(s[|TrimRight(s)|..])
    ensures TrimRight(s) != [] ==> !Blank(TrimRight(s)[|TrimRight(s)| - 1])
  {
    if s != [] && Blank(s[|s| - 1]) {
      TrimRightParts(s[..|s| - 1]);
    }
  }

  lemma {:induction false} TrimLeftParts(s: string)
    ensures |TrimLeft(s)| <= |s| && TrimLeft(s) == s[|s| - |TrimLeft(s)|..]
    ensures AllBlank(s[..|s| - |TrimLeft(s)|])
  {
    if s != [] && Blank(s[0]) {
      TrimLeftParts(s[1..]);
    }
  }

  lemma {:induction false} TrimRightUnique(s: string, n: nat)
    requires n <= |s| && AllBlank(s[n..]) && (n > 0 ==> !Blank(s[n - 1]))
    ensures TrimRight(s) == s[..n]
    decreases |s|
  {
    if |s| > n {
      assert s[n..][|s| - 1 - n] == s[|s| - 1];
      var t := s[..|s| - 1];
      assert t[n..] == s[n..][..|s| - 1 - n];
      TrimRightUnique(t, n);
      assert t[..n] == s[..n];
    } else {
      assert s[..n] == s;
    }
  }

  /** Blanks in front do not matter. */
  lemma TrimSkips(w: string, x: string)
    requires AllBlank(w)
    ensures Trim(w + x) == Trim(x)
  {
    var y := TrimRight(x);
    TrimRightParts(x);
    var s := w + x;
    if y == [] {
      assert forall i :: |w| <= i < |s| ==> s[i] == x[i - |w|];
      assert x[0..] == x;
      TrimRightUnique(s, 0);
    } else {
      var n := |w| + |y|;
      assert s[n..] == x[|y|..] && s[n - 1] == x[|y| - 1] == y[|y| - 1];
      TrimRightUnique(s, n);
      assert s[..n] == w + y;
      TrimLeftSkips(w, y);
    }
  }

  lemma NoCommaInBlanks(s: string)
    requires AllBlank(s)
    ensures ',' !in s
  {
    forall i | 0 <= i < |s|
      ensures s[i] != ','
    {
      assert Blank(s[i]);
    }
  }

  /** Trimming takes blanks off both ends. */
  lemma TrimParts(u: string) returns (w: string)
    ensures AllBlank(w) && |w| + |Trim(u)| <= |u|
    ensures forall k :: 0 <= k <= |Trim(u)| ==> u[..|w| + k] == w + Trim(u)[..k]
  {
    var r := TrimRight(u);
    TrimRightParts(u);
    TrimLeftParts(r);
    assert Trim(u) == TrimLeft(r);
    w := r[..|r| - |TrimLeft(r)|];
    forall k | 0 <= k <= |Trim(u)|
      ensures u[..|w| + k] == w + Trim(u)[..k]
    {
      assert u[..|w| + k] == r[..|w| + k];
    }
  }

  lemma SeveralPieces(v: string)
    requires |Pieces(v, ',')| > 1
    ensures IndexOf(v, ',') < |v| && Pieces(v, ',')[0] == v[..IndexOf(v, ',')]
  {
  }

  /** With more than one argument the first of them is what get_name finds. */
  lemma NameIsFirstArgument(s: string)
    requires |GetArgs(s)| > 1
    ensures GetName(s) == GetArgs(s)[0]
  {
    var t := Bracket(s);
    var u := t[1..IndexOf(t, ')')];
    var v := Trim(u);
    var w := TrimParts(u);
    SeveralPieces(v);
    var k := IndexOf(v, ',');
    CommaAfter(t, u, v, w, k);
    TrimSkips(w, v[..k]);
  }

  lemma CommaAfter(t: string, u: string, v: string, w: string, k: nat)
    requires 0 < |t| && t[0] == '(' && |u| < |t| && u == t[1..|u| + 1] && AllBlank(w) && |w| + |v| <= |u|
    requires k < |v| && v[k] == ',' && ',' !in v[..k]
    requires u[..|w| + k] == w + v[..k] && u[..|w| + (k + 1)] == w + v[..k + 1]
    ensures IndexOf(t, ',') == 1 + |w| + k && t[1..1 + |w| + k] == w + v[..k]
  {
    NoCommaInBlanks(w);
    var n := |w| + k;
    assert t[1..1 + n] == u[..n];
    assert t[..1 + n] == [t[0]] + u[..n];
    assert t[1 + n] == u[n] == u[..n + 1][n] == (w + v[..k + 1])[n] == v[k];
    FirstIndex(t, ',', 1 + n);
  }

  // ----- the program of a kernel

  ghost predicate SourceOnly<K>(text: Line -> string, c: Code<Line, K>) {
    match c
    case Nil => true
    case Line(l, rest) => l == Source(text(l)) && SourceOnly(text, rest)
    case Region(_, _, body, _, rest) => SourceOnly(text, body) && SourceOnly(text, rest)
  }

  /** How the lines of loops are read. */
  datatype Reader = Reader(text: Line -> string, args: Line -> LoopArgs, condition: Line -> Condition)

  /** The table of keywords translates regions by what the reader reads. */
  ghost predicate Faithful(kw: Keywords<Line, Key>, rd: Reader) {
    forall k, open, close {:trigger kw.parse(k, open, close)} :: kw.parse(k, open, close).Frame? ==>
      if k == DUMMY then kw.parse(k, open, close) == Frame([Comment(rd.text(open))], [Comment(rd.text(close))])
      else
        && kw.parse(k, open, close) == Frame(
             [Comment(rd.text(open))] + Header(rd.args(open)),
             [Comment(rd.text(close))] + Footer(rd.args(open), rd.condition(open)))
        && rd.args(open).name == kw.name(open)
  }

  /** The kernel with the arguments of its loops read. */
  function ProgramOf(rd: Reader, c: Code<Line, Key>): Program {
    match c
    case Nil => Skip
    case Line(l, rest) => Instruction(rd.text(l), ProgramOf(rd, rest))
    case Region(k, open, body, close, rest) =>
      if k == DUMMY then Block(rd.text(open), rd.text(close), ProgramOf(rd, body), ProgramOf(rd, rest))
      else
        Loop(rd.args(open), rd.condition(open), rd.text(open), rd.text(close), ProgramOf(rd, body), ProgramOf(rd, rest))
  }

  /** What the compiler makes of the kernel is the code of its program. */
  lemma {:induction false} FlatIsEmitted(kw: Keywords<Line, Key>, rd: Reader, c: Code<Line, Key>)
    requires Faithful(kw, rd) && WellNested(kw, c) && SourceOnly(rd.text, c)
    ensures Flat(kw, c) == Emit(ProgramOf(rd, c))
  {
    match c {
      case Nil =>
      case Line(l, rest) =>
        FlatIsEmitted(kw, rd, rest);
      case Region(k, open, body, close, rest) =>
        FlatIsEmitted(kw, rd, body);
        FlatIsEmitted(kw, rd, rest);
    }
  }

  // ----- labels

  function LabelOf(l: Line): seq<string> {
    if l.Label? then [l.name] else []
  }

  /** What f gives for the lines, one after the other. */
  function Gathered<L>(f: L -> seq<string>, code: seq<L>): seq<string> {
    if code == [] then [] else f(code[0]) + Gathered(f, code[1..])
  }

  lemma {:induction false} GatheredSum<L>(f: L -> seq<string>, a: seq<L>, b: seq<L>)
    ensures Gathered(f, a + b) == Gathered(f, a) + Gathered(f, b)
  {
    if a == [] {
      assert a + b == b;
    } else {
      assert (a + b)[1..] == a[1..] + b;
      GatheredSum(f, a[1..], b);
    }
  }

  lemma {:induction false} NothingGathered<L>(f: L -> seq<string>, code: seq<L>)
    requires forall i :: 0 <= i < |code| ==> f(code[i]) == []
    ensures Gathered(f, code) == []
  {
    if code != [] {
      NothingGathered(f, code[1..]);
    }
  }

  function LabelNames(code: seq<Line>): seq<string> {
    Gathered(LabelOf, code)
  }

  lemma LabelNamesSum(a: seq<Line>, b: seq<Line>)
    ensures LabelNames(a + b) == LabelNames(a) + LabelNames(b)
  {
    GatheredSum(LabelOf, a, b);
  }

  lemma NoLabels(code: seq<Line>)
    requires forall i :: 0 <= i < |code| ==> !code[i].Label?
    ensures LabelNames(code) == []
  {
    NothingGathered(LabelOf, code);
  }

  lemma HeaderLabels(a: LoopArgs, open: string)
    ensures LabelNames([Comment(open)] + Header(a)) == [a.name]
  {
    var code := [Comment(open)] + Header(a);
    var pre := code[..|code| - 1];
    assert code == pre + [Label(a.name)];
    NoLabels(pre);
    LabelNamesSum(pre, [Label(a.name)]);
    OneLabel(a.name);
  }

  lemma OneLabel(name: string)
    ensures LabelNames([Label(name)]) == [name]
  {
    assert [Label(name)][1..] == [];
    assert Gathered(LabelOf, [Label(name)]) == LabelOf(Label(name)) + Gathered(LabelOf, []);
  }

  lemma FooterLabels(a: LoopArgs, condition: Condition, close: string)
    ensures LabelNames([Comment(close)] + Footer(a, condition)) == []
  {
    NoLabels([Comment(close)] + Footer(a, condition));
  }

  lemma TimesAround(a: seq<Line>, b: seq<Line>, c: seq<Line>, d: seq<Line>, x: string)
    ensures Times(LabelNames(a + b + c + d), x)
         == Times(LabelNames(a), x) + Times(LabelNames(b), x) + Times(LabelNames(c), x) + Times(LabelNames(d), x)
  {
    LabelNamesSum(a + b + c, d);
    LabelNamesSum(a + b, c);
    LabelNamesSum(a, b);
    TimesSum(LabelNames(a) + LabelNames(b) + LabelNames(c), LabelNames(d), x);
    TimesSum(LabelNames(a) + LabelNames(b), LabelNames(c), x);
    TimesSum(LabelNames(a), LabelNames(b), x);
  }

  /** Every label in the code is the name of a region. */
  lemma {:induction false} LabelsAreNames(kw: Keywords<Line, Key>, rd: Reader, c: Code<Line, Key>, x: string)
    requires Faithful(kw, rd) && WellNested(kw, c)
    ensures Times(LabelNames(Emit(ProgramOf(rd, c))), x) <= Times(RegionNames(kw, c), x)
  {
    match c {
      case Nil =>
      case Line(l, rest) =>
        LabelsAreNames(kw, rd, rest, x);
        LabelNamesSum([Source(rd.text(l))], Emit(ProgramOf(rd, rest)));
        NoLabels([Source(rd.text(l))]);
        assert [] + LabelNames(Emit(ProgramOf(rd, rest))) == LabelNames(Emit(ProgramOf(rd, rest)));
      case Region(k, open, body, close, rest) =>
        LabelsAreNames(kw, rd, body, x);
        LabelsAreNames(kw, rd, rest, x);
        TimesSum([kw.name(open)] + RegionNames(kw, body), RegionNames(kw, rest), x);
        TimesSum([kw.name(open)], RegionNames(kw, body), x);
        var b, r := Emit(ProgramOf(rd, body)), Emit(ProgramOf(rd, rest));
        assert kw.parse(k, open, close).Frame?;
        if k == DUMMY {
          NoLabels([Comment(rd.text(open))]);
          NoLabels([Comment(rd.text(close))]);
          TimesAround([Comment(rd.text(open))], b, [Comment(rd.text(close))], r, x);
        } else {
          var a, condition := rd.args(open), rd.condition(open);
          HeaderLabels(a, rd.text(open));
          FooterLabels(a, condition, rd.text(close));
          TimesAround([Comment(rd.text(open))] + Header(a), b, [Comment(rd.text(close))] + Footer(a, condition), r, x);
        }
    }
  }

  lemma {:induction false} LabelCounts(code: seq<Line>, i: nat)
    requires i < |code| && code[i].Label?
    ensures Times(LabelNames(code), code[i].name) > 0
  {
    if i > 0 {
      LabelCounts(code[1..], i - 1);
    }
    TimesSum(if code[0].Label? then [code[0].name] else [], LabelNames(code[1..]), code[i].name);
  }

  lemma LabelTwice(code: seq<Line>, i: nat, j: nat)
    requires i < j < |code| && code[i].Label? && code[j] == code[i]
    ensures Times(LabelNames(code), code[i].name) >= 2
  {
    assert code == code[..j] + code[j..];
    LabelNamesSum(code[..j], code[j..]);
    TimesSum(LabelNames(code[..j]), LabelNames(code[j..]), code[i].name);
    LabelCounts(code[..j], i);
    LabelCounts(code[j..], 0);
  }

  lemma LabelsUnique(code: seq<Line>)
    requires forall x :: Times(LabelNames(code), x) <= 1
    ensures UniqueLabels(code)
  {
    forall i, j | 0 <= i < j < |code| && code[i].Label?
      ensures code[i] != code[j]
    {
      if code[i] == code[j] {
        LabelTwice(code, i, j);
        assert false;
      }
    }
  }

  lemma KernelLabels(kw: Keywords<Line, Key>, rd: Reader, c: Code<Line, Key>)
    requires Faithful(kw, rd) && WellNested(kw, c) && Distinct(kw, c)
    ensures UniqueLabels(Emit(ProgramOf(rd, c)))
  {
    forall x
      ensures Times(LabelNames(Emit(ProgramOf(rd, c))), x) <= 1
    {
      LabelsAreNames(kw, rd, c, x);
    }
    LabelsUnique(Emit(ProgramOf(rd, c)));
  }

  // ----- the reader that belongs to the table

  function ArgsOf(l: Line): LoopArgs {
    match ReadArgs(Text(l))
    case Some(a) => a
    case None => LoopArgs("", "", "", "", "", "", "")
  }

  function ConditionOf(l: Line): Condition {
    match JumpFor(ArgsOf(l).direction)
    case Some(condition) => condition
    case None => Less
  }

  function PttReader(): Reader {
    Reader(Text, ArgsOf, ConditionOf)
  }

  lemma LoopIsRead(open: Line, close: Line)
    requires FrameOfLines(LOOP, open, close).Frame?
    ensures FrameOfLines(LOOP, open, close) == Frame(
      [Comment(Text(open))] + Header(ArgsOf(open)), [Comment(Text(close))] + Footer(ArgsOf(open), ConditionOf(open)))
    ensures ArgsOf(open).name == NameOfLine(open)
  {
    NameIsFirstArgument(Text(open));
  }

  lemma BlockIsRead(open: Line, close: Line)
    requires FrameOfLines(DUMMY, open, close).Frame?
    ensures FrameOfLines(DUMMY, open, close) == Frame([Comment(Text(open))], [Comment(Text(close))])
  {
  }

  lemma PttFaithful()
    ensures Faithful(PttKeys(), PttReader())
  {
    forall k, open, close | PttKeys().parse(k, open, close).Frame?
      ensures k == DUMMY ==>
        PttKeys().parse(k, open, close) == Frame([Comment(PttReader().text(open))], [Comment(PttReader().text(close))])
      ensures k == LOOP ==>
        && PttKeys().parse(k, open, close) == Frame(
             [Comment(PttReader().text(open))] + Header(PttReader().args(open)),
             [Comment(PttReader().text(close))] + Footer(PttReader().args(open), PttReader().condition(open)))
        && PttReader().args(open).name == PttKeys().name(open)
    {
      if k == DUMMY {
        BlockIsRead(open, close);
      } else {
        LoopIsRead(open, close);
      }
    }
  }

  // ----- the theorem

  /** The lines of a text are lines as they were written. */
  lemma {:induction false} TextIsSource(c: Code<Line, Key>)
    requires forall i :: 0 <= i < |Lines(c)| ==> Lines(c)[i].Source?
    ensures SourceOnly(Text, c)
  {
    match c {
      case Nil =>
      case Line(l, rest) =>
        assert Lines(c)[0] == l && Lines(c)[1..] == Lines(rest);
        TextIsSource(rest);
      case Region(_, open, body, close, rest) =>
        RegionLines(Lines(c), open, Lines(body), close, Lines(rest));
        TextIsSource(body);
        TextIsSource(rest);
    }
  }

  lemma RegionLines(s: seq<Line>, open: Line, body: seq<Line>, close: Line, rest: seq<Line>)
    requires s == [open] + body + [close] + rest && forall i :: 0 <= i < |s| ==> s[i].Source?
    ensures forall i :: 0 <= i < |body| ==> body[i].Source?
    ensures forall i :: 0 <= i < |rest| ==> rest[i].Source?
  {
    forall i | 0 <= i < |body|
      ensures body[i].Source?
    {
      assert s[1 + i] == body[i];
    }
    forall i | 0 <= i < |rest|
      ensures rest[i].Source?
    {
      assert s[2 + |body| + i] == rest[i];
    }
  }

  lemma {:induction false} SourcesAreSource(l: seq<string>)
    ensures forall i :: 0 <= i < |Sources(l)| ==> Sources(l)[i].Source?
  {
    if l != [] {
      SourcesAreSource(l[1..]);
    }
  }

  /** All loops of the kernel have plain directions and values. */
  ghost predicate SaysSo<M>(isa: Isa<M>, c: Code<Line, Key>) {
    match c
    case Nil => true
    case Line(_, rest) => SaysSo(isa, rest)
    case Region(k, open, body, _, rest) =>
      (k == LOOP ==> SaysWhatItMeans(isa, ArgsOf(open))) && SaysSo(isa, body) && SaysSo(isa, rest)
  }

  lemma LoopHasJump(open: Line, close: Line)
    requires FrameOfLines(LOOP, open, close).Frame?
    ensures JumpFor(ArgsOf(open).direction) == Some(ConditionOf(open))
  {
    var a, condition := FrameOfLoop(Text(open), Text(close));
  }

  lemma {:induction false} ProgramSaysSo<M>(isa: Isa<M>, c: Code<Line, Key>)
    requires WellNested(PttKeys(), c) && SaysSo(isa, c)
    ensures AllSayWhatTheyMean(isa, ProgramOf(PttReader(), c))
  {
    match c {
      case Nil =>
      case Line(_, rest) => ProgramSaysSo(isa, rest);
      case Region(k, open, body, close, rest) =>
        if k == LOOP {
          LoopHasJump(open, close);
        }
        ProgramSaysSo(isa, body);
        ProgramSaysSo(isa, rest);
    }
  }

  /**
   A kernel whose regions are properly nested and named is compiled, and its code,
   run from the first line, ends in a state exactly when the kernel does. If its
   directions and values are plain, then the loops of the kernel are meant as
   they are written.
   */
  lemma KernelIsCorrect<M(!new)>(isa: Isa<M>, text: string, c: Code<Line, Key>, s: State<M>, t: State<M>)
    requires text != "" && CodeOf(text) == Lines(c)
    requires WellNested(PttKeys(), c) && RegionCount(c) > 0 && Distinct(PttKeys(), c)
    ensures Prepared(text) == Compiled(Rounds.Done(Flat(PttKeys(), c)))
    ensures Evaluates(Meaning(isa), ProgramOf(PttReader(), c), s, t) <==> Runs(isa, Flat(PttKeys(), c), s, t)
    ensures SaysSo(isa, c) ==>
      (Evaluates(Written(isa), ProgramOf(PttReader(), c), s, t) <==> Runs(isa, Flat(PttKeys(), c), s, t))
  {
    KernelsCompile(text, c);
    SourcesAreSource(SplitTrim(text, '\n'));
    TextIsSource(c);
    PttFaithful();
    FlatIsEmitted(PttKeys(), PttReader(), c);
    KernelLabels(PttKeys(), PttReader(), c);
    CodeIsCorrect(isa, ProgramOf(PttReader(), c), s, t);
    if SaysSo(isa, c) {
      ProgramSaysSo(isa, c);
      ProgramAsWritten(isa, ProgramOf(PttReader(), c), s, t);
    }
  }
}
