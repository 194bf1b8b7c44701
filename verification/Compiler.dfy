/**
 prepare_ptt of src/ptt2asm.c as a whole: the check of the labels, and the rounds
 with the keywords LOOP and DUMMY.
 */
module Compiler {
  import opened Wrappers
  import opened Nesting
  import opened Rounds
  import opened Kernels
  import opened Labels
  import opened Ptt

  predicate OpenLine(l: Line) {
    OpensLine(l).Some?
  }

  predicate CloseLine(l: Line) {
    ClosesLine(l).Some?
  }

  // ----- all of it

  datatype Result = Rejected | Compiled(outcome: Outcome<Line>)

  function Sources(l: seq<string>): seq<Line> {
    if l == [] then [] else [Source(l[0])] + Sources(l[1..])
  }

  /** The lines of the kernel, without blanks around them. */
  function CodeOf(text: string): seq<Line> {
    Sources(SplitTrim(text, '\n'))
  }

  ghost function Prepared(text: string): Result {
    PttShrinking();
    if text == "" || !LabelsMatch(PttKeys(), CodeOf(text)) then Rejected else Compiled(Run(PttKeys(), CodeOf(text)))
  }

  method PreparePtt(text: string) returns (r: Result)
    ensures r == Prepared(text)
  {
    if |text| == 0 {
      return Rejected;
    }
    var code := CodeOf(text);
    var ok := CheckLabels(PttKeys(), code);
    if !ok {
      return Rejected;
    }
    PttShrinking();
    var outcome := RunRounds(PttKeys(), code);
    return Compiled(outcome);
  }

  // ----- what comes out, for every text

  /** A line that is neither a keyword line nor one of the compiler's own. */
  predicate IsInstruction(l: Line) {
    l.Source? && !Ptt.IsKeyword(l.text)
  }

  lemma GeneratedUntouched(code: seq<Line>, name: string)
    requires AllGenerated(code, name)
    ensures forall i :: 0 <= i < |code| ==> !IsInstruction(code[i])
  {
    forall i | 0 <= i < |code|
      ensures !IsInstruction(code[i])
    {
      assert Generated(code[i], name);
    }
  }

  lemma FrameUntouched(k: Key, a: Line, b: Line)
    requires FrameOfLines(k, a, b).Frame?
    ensures forall i :: 0 <= i < |FrameOfLines(k, a, b).before| ==> !IsInstruction(FrameOfLines(k, a, b).before[i])
    ensures forall i :: 0 <= i < |FrameOfLines(k, a, b).after| ==> !IsInstruction(FrameOfLines(k, a, b).after[i])
  {
    FrameGenerated(k, Text(a), Text(b));
    GeneratedUntouched(FrameOfLines(k, a, b).before, GetArgs(Text(a))[0]);
    GeneratedUntouched(FrameOfLines(k, a, b).after, GetArgs(Text(a))[0]);
  }

  lemma PttUntouched()
    ensures Untouched(PttKeys(), IsInstruction)
  {
    forall k, a, b | PttKeys().parse(k, a, b).Frame?
      ensures forall i :: 0 <= i < |PttKeys().parse(k, a, b).before| ==>
        !IsInstruction(PttKeys().parse(k, a, b).before[i])
      ensures forall i :: 0 <= i < |PttKeys().parse(k, a, b).after| ==>
        !IsInstruction(PttKeys().parse(k, a, b).after[i])
    {
      FrameUntouched(k, a, b);
    }
  }

  /** A loop whose label, written as a line, reads like a closing keyword. */
  predicate BadLabel(l: Line) {
    Opens(Text(l)) == Some(LOOP) && GetArgs(Text(l)) != [] && Closes(GetArgs(Text(l))[0] + ":").Some?
  }

  /** A generated line is a keyword only if it is the label line. */
  lemma GeneratedIsNoKeyword(l: Line, name: string)
    requires Generated(l, name)
    ensures OpenLine(l) ==> l.Label? && Opens(name + ":").Some?
    ensures CloseLine(l) ==> l.Label? && Closes(name + ":").Some?
  {
    if !l.Label? {
      OwnLines(l);
    }
  }

  lemma NoneAmongOthers(l: Line, name: string)
    requires Generated(l, name) && !l.Label?
    ensures !OpenLine(l) && !CloseLine(l) && !BadLabel(l)
  {
    GeneratedIsNoKeyword(l, name);
  }

  /** A frame, with the label, if there is one, as its last line before the region. */
  lemma LabelLast(k: Key, open: string, close: string)
    requires FrameOf(k, open, close).Frame?
    ensures GetArgs(open) != []
    ensures var frame, name := FrameOf(k, open, close), GetArgs(open)[0];
      && AllGenerated(frame.before, name) && AllGenerated(frame.after, name) && frame.before != []
      && (forall i :: 0 <= i < |frame.before| - 1 ==> !frame.before[i].Label?)
      && (forall i :: 0 <= i < |frame.after| ==> !frame.after[i].Label?)
      && (if k == LOOP then frame.before[|frame.before| - 1] == Label(name)
          else !frame.before[|frame.before| - 1].Label?)
  {
    FrameGenerated(k, open, close);
    if k == LOOP {
      var a, condition := FrameOfLoop(open, close);
      LoopLabelLast(a, condition, open, close);
    } else {
      FrameOfDummy(open, close);
    }
  }

  lemma LoopLabelLast(a: LoopArgs, condition: Condition, open: string, close: string)
    ensures var before, after := [Comment(open)] + Header(a), [Comment(close)] + Footer(a, condition);
      && before[|before| - 1] == Label(a.name)
      && (forall i :: 0 <= i < |before| - 1 ==> !before[i].Label?)
      && (forall i :: 0 <= i < |after| ==> !after[i].Label?)
  {
  }

  lemma LastLine(k: Key, a: Line, last: Line, name: string)
    requires OpensLine(a) == Some(k) && GetArgs(Text(a)) != [] && name == GetArgs(Text(a))[0]
    requires Generated(last, name) && (if k == LOOP then last == Label(name) else !last.Label?)
    ensures !BadLabel(last) && (CloseLine(last) <==> BadLabel(a)) && !WellOpenedLine(last)
  {
    LabelsAreNotOpened(Text(a));
    if k == DUMMY {
      GeneratedIsNoKeyword(last, name);
    }
  }

  lemma PttFrameEffects(k: Key, a: Line, b: Line)
    requires FrameOfLines(k, a, b).Frame? && OpensLine(a) == Some(k)
    ensures FrameEffects(PttKeys(), FrameOfLines(k, a, b), OpenLine, CloseLine, BadLabel, a)
  {
    var frame, name := FrameOfLines(k, a, b), GetArgs(Text(a))[0];
    LabelLast(k, Text(a), Text(b));
    var n := |frame.before| - 1;
    forall i | 0 <= i < n
      ensures !OpenLine(frame.before[i]) && !CloseLine(frame.before[i]) && !BadLabel(frame.before[i])
    {
      NoneAmongOthers(frame.before[i], name);
    }
    forall i | 0 <= i < |frame.after|
      ensures !OpenLine(frame.after[i]) && !CloseLine(frame.after[i]) && !BadLabel(frame.after[i])
    {
      NoneAmongOthers(frame.after[i], name);
    }
    LastLine(k, a, frame.before[n], name);
    EffectsOfShape(PttKeys(), frame, OpenLine, CloseLine, BadLabel, a);
  }

  lemma PttEffects()
    ensures Generates(PttKeys(), OpenLine, CloseLine, BadLabel)
  {
    forall l: Line
      ensures OpenLine(l) ==> !CloseLine(l)
    {
      OneKeyword(Text(l), LOOP);
      OneKeyword(Text(l), DUMMY);
    }
    forall k, a, b | PttKeys().opens(a) == Some(k) && PttKeys().parse(k, a, b).Frame?
      ensures FrameEffects(PttKeys(), PttKeys().parse(k, a, b), OpenLine, CloseLine, BadLabel, a)
    {
      PttFrameEffects(k, a, b);
    }
  }

  /** The same for the lines of a text. */
  lemma EveryCode(code: seq<Line>)
    requires LabelsMatch(PttKeys(), code)
    ensures Shrinking(PttKeys())
    ensures var outcome := Run(PttKeys(), code);
      && (outcome.Done? ==>
        && !HasKeyword(PttKeys(), outcome.lines)
        && Filter(IsInstruction, outcome.lines) == Filter(IsInstruction, code))
      && (outcome.Done? || outcome.Forever? ==> (outcome.Forever? <==> Count(BadLabel, code) > 0))
  {
    PttShrinking();
    PttEffects();
    PttUntouched();
    NamesCount(PttKeys(), true, OpenLine, code);
    NamesCount(PttKeys(), false, CloseLine, code);
    ForeverIffLeftOver(PttKeys(), OpenLine, CloseLine, BadLabel, code);
    if Run(PttKeys(), code).Done? {
      DoneKeeps(PttKeys(), IsInstruction, code);
    }
  }

  /**
   What is true of every text that passes the label check. If the compiler ends
   with code, then no keyword is left in it, and the instructions of the text are
   all there, once and in order. If no loop has a label that reads like a closing
   keyword, the compiler ends; if one has, it gives no code, and goes on for ever
   unless a round fails.
   */
  lemma EveryText(text: string)
    requires Prepared(text).Compiled?
    ensures var code, outcome := CodeOf(text), Prepared(text).outcome;
      && (outcome.Done? ==>
        && !HasKeyword(PttKeys(), outcome.lines)
        && Filter(IsInstruction, outcome.lines) == Filter(IsInstruction, code))
      && (outcome.Done? || outcome.Forever? ==> (outcome.Forever? <==> Count(BadLabel, code) > 0))
    ensures Count(BadLabel, CodeOf(text)) == 0 ==> RoundsEnd(text)
    ensures Count(BadLabel, CodeOf(text)) > 0 ==> !Prepared(text).outcome.Done?
  {
    EveryCode(CodeOf(text));
    ForeverNeverLeaves(PttKeys(), CodeOf(text));
  }

  /** The rounds come to an end, with code or with an error. */
  ghost predicate RoundsEnd(text: string) {
    Shrinking(PttKeys()) && exists n: nat :: Leaves(PttKeys(), CodeOf(text), n)
  }

  /**
   Where regions are nested, their lines can be parsed and no label reads like an
   opening keyword, no round fails: the compiler goes on for ever exactly when
   some loop has a label that reads like a closing keyword, and ends with code
   otherwise.
   */
  lemma NestedText(text: string, c: Code<Line, Key>)
    requires Prepared(text).Compiled? && CodeOf(text) == Lines(c) && Nested(PttKeys(), c, false)
    ensures Prepared(text).outcome.Forever? <==> Count(BadLabel, CodeOf(text)) > 0
    ensures Prepared(text).outcome.Done? <==> Count(BadLabel, CodeOf(text)) == 0
  {
    PttShrinking();
    NoRoundFails(PttKeys(), c);
    EveryText(text);
  }

  /** The condition on a region in terms of its lines: its name as a label does not open anything. */
  lemma LabelsOpenNothing(k: Key, a: Line, b: Line)
    requires FrameOfLines(k, a, b).Frame? && OpensLine(a) == Some(k)
    requires k == LOOP ==> Opens(GetArgs(Text(a))[0] + ":").None?
    ensures Tame(PttKeys(), FrameOfLines(k, a, b).before, false)
    ensures Tame(PttKeys(), FrameOfLines(k, a, b).after, false)
  {
    LabelLast(k, Text(a), Text(b));
    NothingOpens(FrameOfLines(k, a, b).before, GetArgs(Text(a))[0], k);
    NothingOpens(FrameOfLines(k, a, b).after, GetArgs(Text(a))[0], k);
  }

  lemma NothingOpens(code: seq<Line>, name: string, k: Key)
    requires AllGenerated(code, name)
    requires k == LOOP ==> Opens(name + ":").None?
    requires k == DUMMY ==> forall i :: 0 <= i < |code| ==> !code[i].Label?
    ensures Tame(PttKeys(), code, false)
  {
    forall i | 0 <= i < |code|
      ensures OpensLine(code[i]).None?
    {
      GeneratedIsNoKeyword(code[i], name);
    }
  }

  // ----- what comes out, for well-nested kernels

  /** The compiler ends on a kernel whose regions are properly nested and named, with all of them translated. */
  lemma KernelsCompile(text: string, c: Code<Line, Key>)
    requires text != "" && CodeOf(text) == Lines(c)
    requires WellNested(PttKeys(), c) && RegionCount(c) > 0 && Distinct(PttKeys(), c)
    ensures Prepared(text) == Compiled(Done(Flat(PttKeys(), c)))
  {
    PttShrinking();
    PttEffects();
    KernelsPass(PttKeys(), c);
    RoundsTranslate(PttKeys(), c);
  }

  lemma StuckEnds(open: string, close: string)
    requires FrameOf(LOOP, open, close).Frame? && GetName(open) == GetName(close)
    ensures PttKeys().opens(Source(open)) == Some(LOOP)
    ensures EndsRegion(PttKeys(), Source(close), LOOP, PttKeys().name(Source(open)))
  {
    OneKeyword(open, LOOP);
    OneKeyword(close, LOOP);
  }

  /** One loop alone. */
  function Alone(open: string, close: string): Code<Line, Key> {
    Code.Region(LOOP, Source(open), Nil, Source(close), Nil)
  }

  lemma AloneIsNested(open: string, close: string)
    requires FrameOf(LOOP, open, close).Frame? && GetName(open) == GetName(close)
    requires GetArgs(open) != [] && Closes(GetArgs(open)[0] + ":").Some?
    ensures Lines(Alone(open, close)) == [Source(open), Source(close)]
    ensures Nested(PttKeys(), Alone(open, close), false)
  {
    StuckEnds(open, close);
    ClosesNotOpens(GetArgs(open)[0] + ":");
    LabelsOpenNothing(LOOP, Source(open), Source(close));
    LoneRegion(PttKeys(), LOOP, Source(open), Source(close));
  }

  lemma ClosesNotOpens(s: string)
    requires Closes(s).Some?
    ensures Opens(s).None?
  {
    OneKeyword(s, LOOP);
    OneKeyword(s, DUMMY);
  }

  lemma LoneRegion<L, K>(kw: Keywords<L, K>, k: K, open: L, close: L)
    requires kw.opens(open) == Some(k) && EndsRegion(kw, close, k, kw.name(open)) && kw.parse(k, open, close).Frame?
    requires Tame(kw, kw.parse(k, open, close).before, false) && Tame(kw, kw.parse(k, open, close).after, false)
    ensures Lines(Code.Region(k, open, Nil, close, Nil)) == [open, close]
    ensures Nested(kw, Code.Region(k, open, Nil, close, Nil), false)
  {
  }

  /** A loop that stands alone and has such a label: the check of the labels passes, and the rounds never end. */
  lemma LabelKeepsItGoing(open: string, close: string)
    requires FrameOf(LOOP, open, close).Frame? && GetName(open) == GetName(close)
    requires GetArgs(open) != [] && Closes(GetArgs(open)[0] + ":").Some?
    ensures LabelsMatch(PttKeys(), [Source(open), Source(close)])
    ensures Shrinking(PttKeys()) && Run(PttKeys(), [Source(open), Source(close)]).Forever?
  {
    var code := [Source(open), Source(close)];
    PttShrinking();
    PttEffects();
    StuckEnds(open, close);
    LoneRegionPasses(PttKeys(), Source(open), Source(close));
    AloneIsNested(open, close);
    NoRoundFails(PttKeys(), Alone(open, close));
    EveryCode(code);
    CountFirst(BadLabel, code);
  }

  lemma CountFirst<L>(p: L -> bool, code: seq<L>)
    requires code != [] && p(code[0])
    ensures Count(p, code) > 0
  {
  }
}
