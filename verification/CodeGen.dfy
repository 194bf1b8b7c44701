/**
 The code that is emitted for a kernel does what the loops of the kernel say:
 the flat program comes to its end in some state exactly when the structured one
 does, and in the same state.
 */
module CodeGen {
  import opened Ptt
  import opened Machine
  import opened Simulation

  // ----- header and footer

  lemma StraightHeader(a: LoopArgs)
    ensures forall i :: 0 <= i < |Header(a)| ==> Straight(Header(a)[i])
    ensures |Header(a)| > 0 && Header(a)[|Header(a)| - 1] == Label(a.name)
  {
  }

  lemma {:induction false} EffectsSum<M>(isa: Isa<M>, a: seq<Line>, b: seq<Line>, s: State<M>)
    ensures Effects(isa, a + b, s) == Effects(isa, b, Effects(isa, a, s))
    decreases |a|
  {
    if a == [] {
      assert a + b == b;
    } else {
      assert (a + b)[1..] == a[1..] + b;
      EffectsSum(isa, a[1..], b, Effect(isa, a[0], s));
    }
  }

  lemma EffectsOne<M>(isa: Isa<M>, l: Line, s: State<M>)
    ensures Effects(isa, [l], s) == Effect(isa, l, s)
  {
    assert [l][1..] == [];
  }

  lemma WriteTwice<M>(s: State<M>, r: string, v: int, w: int)
    ensures Write(Write(s, r, v), r, w) == Write(s, r, w)
  {
    assert s.regs[r := v][r := w] == s.regs[r := w];
  }

  lemma LoadEndEffect<M>(isa: Isa<M>, condreg: string, cond: string, s: State<M>)
    ensures Effects(isa, LoadEnd(condreg, cond), s) == Write(s, condreg, EndValue(isa, condreg, cond, s))
  {
    var code := LoadEnd(condreg, cond);
    if |code| == 1 {
      EffectsOne(isa, code[0], s);
    } else {
      var t := Effect(isa, code[0], s);
      assert code == [code[0]] + [code[1]];
      EffectsSum(isa, [code[0]], [code[1]], s);
      EffectsOne(isa, code[0], s);
      EffectsOne(isa, code[1], t);
      WriteTwice(s, condreg, Read(t, condreg), EndValue(isa, condreg, cond, s));
    }
  }

  lemma HeaderEffect<M>(isa: Isa<M>, a: LoopArgs, open: string, s: State<M>)
    ensures Effects(isa, [Comment(open)] + Header(a), s) == Enter(isa, a, s)
  {
    var start, end, tail := LoadStart(a.reg, a.start), LoadEnd(a.condreg, a.cond), [Align, Label(a.name)];
    EffectsSum(isa, [Comment(open)], Header(a), s);
    EffectsOne(isa, Comment(open), s);
    EffectsSum(isa, [start] + end, tail, s);
    EffectsSum(isa, [start], end, s);
    EffectsOne(isa, start, s);
    LoadEndEffect(isa, a.condreg, a.cond, Effect(isa, start, s));
    var t := Enter(isa, a, s);
    assert tail == [Align] + [Label(a.name)];
    EffectsSum(isa, [Align], [Label(a.name)], t);
    EffectsOne(isa, Align, t);
    EffectsOne(isa, Label(a.name), t);
  }

  /** A comment and the header of a loop stand at line p. */
  ghost predicate HeaderAt(prog: seq<Line>, p: nat, a: LoopArgs) {
    && p + 1 + |Header(a)| <= |prog| && prog[p].Comment?
    && At(prog, p, [prog[p]] + Header(a))
  }

  ghost predicate FooterAt(prog: seq<Line>, p: nat, a: LoopArgs, condition: Condition) {
    && p + 4 <= |prog| && prog[p].Comment? && prog[p + 1] == Line.Add(a.reg, a.step)
    && prog[p + 2] == Cmp(a.reg, a.condreg) && prog[p + 3] == Jump(condition, a.name)
  }

  /** The header sets the registers and leaves the machine behind its last line, the label. */
  lemma HeaderRun<M>(isa: Isa<M>, prog: seq<Line>, a: LoopArgs, c: Config<M>) returns (n: nat)
    requires HeaderAt(prog, c.pc, a)
    ensures n == 1 + |Header(a)| && prog[c.pc + n - 1] == Label(a.name)
    ensures Steps(Next(isa, prog), c, n) == Config(c.pc + n, Enter(isa, a, c.s), c.left, c.right)
    ensures forall j :: 0 <= j < n ==> Steps(Next(isa, prog), c, j).pc < |prog|
  {
    StraightHeader(a);
    var code := [prog[c.pc]] + Header(a);
    n := |code|;
    assert forall i :: 0 <= i < |code| ==> Straight(code[i]);
    StraightRun(isa, prog, code, c);
    HeaderEffect(isa, a, prog[c.pc].of, c.s);
    assert code[n - 1] == Label(a.name) && prog[c.pc + (n - 1)] == code[n - 1];
    forall j | 0 <= j < n
      ensures Steps(Next(isa, prog), c, j).pc < |prog|
    {
      StraightOnTheWay(isa, prog, code, c, j);
    }
  }

  lemma StraightOnTheWay<M>(isa: Isa<M>, prog: seq<Line>, code: seq<Line>, c: Config<M>, j: nat)
    requires j <= |code| && At(prog, c.pc, code) && forall i :: 0 <= i < |code| ==> Straight(code[i])
    ensures Steps(Next(isa, prog), c, j).pc == c.pc + j
  {
    assert At(prog, c.pc, code[..j]);
    StraightRun(isa, prog, code[..j], c);
  }

  /** The footer: back to the label, or on behind the loop. It is not left before its last line. */
  lemma FooterRun<M>(
    isa: Isa<M>, prog: seq<Line>, a: LoopArgs, condition: Condition, c: Config<M>, head: nat)
    returns (d: Config<M>)
    requires FooterAt(prog, c.pc, a, condition)
    requires head < |prog| && prog[head] == Label(a.name) && UniqueLabels(prog)
    ensures d == Steps(Next(isa, prog), c, 4) && d.s == Advance(isa, a, c.s)
    ensures d.pc == if Again(a, condition, d.s) then head else c.pc + 4
    ensures forall j :: 0 <= j < 4 ==> Steps(Next(isa, prog), c, j).pc < |prog|
  {
    var u := Advance(isa, a, c.s);
    TargetIs(prog, head, a.name);
    var next := Next(isa, prog);
    FourSteps(next, c);
    d := Steps(next, c, 4);
    assert next(c) == Config(c.pc + 1, c.s, c.left, c.right);
    assert Steps(next, c, 2) == Config(c.pc + 2, u, c.left, c.right);
    assert Steps(next, c, 3) == Config(c.pc + 3, u, Read(u, a.reg), Read(u, a.condreg));
    forall j | 0 <= j < 4
      ensures Steps(next, c, j).pc < |prog|
    {
      assert j == 0 || j == 1 || j == 2 || j == 3;
    }
  }

  lemma FourSteps<C>(next: C -> C, c: C)
    ensures var c2 := next(next(c));
            && Steps(next, c, 0) == c && Steps(next, c, 1) == next(c) && Steps(next, c, 2) == c2
            && Steps(next, c, 3) == next(c2) && Steps(next, c, 4) == next(next(c2))
  {
    var c1 := next(c);
    var c2 := next(c1);
    var c3 := next(c2);
    assert Steps(next, c, 1) == Steps(next, c1, 0);
    assert Steps(next, c, 2) == Steps(next, c1, 1) == Steps(next, c2, 0);
    assert Steps(next, c, 3) == Steps(next, c1, 2) == Steps(next, c2, 1) == Steps(next, c3, 0);
    assert Steps(next, c, 4) == Steps(next, c1, 3) == Steps(next, c2, 2) == Steps(next, c3, 1);
    assert Steps(next, c3, 1) == Steps(next, next(c3), 0);
  }

  // ----- the machine with its code, seen as moves

  ghost function ViewOf<M>(isa: Isa<M>, prog: seq<Line>): View<M> {
    View(
      |prog|, Next(isa, prog), Meaning(isa),
      (p: nat) => p < |prog| && prog[p].Comment?,
      (p: nat, text) => p < |prog| && prog[p] == Source(text),
      (p: nat, a) => HeaderAt(prog, p, a),
      (p: nat, a, condition) => FooterAt(prog, p, a, condition),
      a => 1 + |Header(a)|)
  }

  lemma HeaderMoves<M>(isa: Isa<M>, prog: seq<Line>, c: Config<M>, a: LoopArgs)
    ensures HeaderMove(ViewOf(isa, prog), c, a)
  {
    if HeaderAt(prog, c.pc, a) {
      var n := HeaderRun(isa, prog, a, c);
    }
  }

  lemma FooterMoves<M>(
    isa: Isa<M>, prog: seq<Line>, c: Config<M>, a: LoopArgs, condition: Condition, head: nat)
    requires UniqueLabels(prog)
    ensures FooterMove(ViewOf(isa, prog), c, a, condition, head)
  {
    if HeaderAt(prog, head, a) && FooterAt(prog, c.pc, a, condition) {
      var at := LabelOfHeader(prog, head, a);
      var d := FooterRun(isa, prog, a, condition, c, at);
    }
  }

  lemma LabelOfHeader(prog: seq<Line>, head: nat, a: LoopArgs) returns (at: nat)
    requires HeaderAt(prog, head, a)
    ensures at == head + |Header(a)| < |prog| && prog[at] == Label(a.name)
  {
    StraightHeader(a);
    var code := [prog[head]] + Header(a);
    at := head + |Header(a)|;
    assert code[|Header(a)|] == Label(a.name) && prog[head + |Header(a)|] == code[|Header(a)|];
  }

  /** Instructions, comments, headers and footers move the machine as the view says. */
  lemma ViewIsSound<M(!new)>(isa: Isa<M>, prog: seq<Line>)
    requires UniqueLabels(prog)
    ensures Sound(ViewOf(isa, prog))
  {
    var v := ViewOf(isa, prog);
    forall c
      ensures EndMove(v, c) && CommentMove(v, c)
    {
    }
    forall c, text
      ensures SourceMove(v, c, text)
    {
    }
    forall c, a
      ensures HeaderMove(v, c, a)
    {
      HeaderMoves(isa, prog, c, a);
    }
    forall c, a, condition, head
      ensures FooterMove(v, c, a, condition, head)
    {
      FooterMoves(isa, prog, c, a, condition, head);
    }
  }

  /** The view sees what stands in the program. */
  ghost predicate Sees<M>(v: View<M>, prog: seq<Line>) {
    && (forall p: nat {:trigger v.comment(p)} :: p < |prog| && prog[p].Comment? ==> v.comment(p))
    && (forall p: nat, text {:trigger v.source(p, text)} :: p < |prog| && prog[p] == Source(text) ==> v.source(p, text))
    && (forall p: nat, a {:trigger v.header(p, a)} :: HeaderAt(prog, p, a) ==> v.header(p, a))
    && (forall p: nat, a, c {:trigger v.footer(p, a, c)} :: FooterAt(prog, p, a, c) ==> v.footer(p, a, c))
    && (forall a {:trigger v.lines(a)} :: v.lines(a) == 1 + |Header(a)|)
  }

  /** Emitted code stands where it is put. */
  lemma {:induction false} EmittedStands<M>(v: View<M>, prog: seq<Line>, p: nat, q: Program)
    requires Sees(v, prog) && At(prog, p, Emit(q))
    ensures Stands(v, p, q) && SizeOf(v, q) == |Emit(q)|
    decreases q, 1
  {
    match q {
      case Skip =>
      case Instruction(text, rest) =>
        AtParts(prog, p, [Source(text)], Emit(rest));
        assert prog[p + 0] == [Source(text)][0];
        EmittedStands(v, prog, p + 1, rest);
      case Loop(_, _, _, _, _, _) => EmittedLoop(v, prog, p, q, Emit(q.body), Emit(q.rest));
      case Block(_, _, _, _) => EmittedBlock(v, prog, p, q, Emit(q.body), Emit(q.rest));
    }
  }

  lemma EmittedLoop<M>(v: View<M>, prog: seq<Line>, p: nat, q: Program, body: seq<Line>, rest: seq<Line>)
    requires q.Loop? && Sees(v, prog) && body == Emit(q.body) && rest == Emit(q.rest)
    requires At(prog, p,
      [Comment(q.open)] + Header(q.a) + body + ([Comment(q.close)] + Footer(q.a, q.condition)) + rest)
    ensures Stands(v, p, q) && SizeOf(v, q) == 1 + |Header(q.a)| + |body| + 4 + |rest|
    decreases q, 0
  {
    var h := v.lines(q.a);
    LoopParts(prog, p, q.a, q.condition, q.open, q.close, body, rest);
    EmittedStands(v, prog, p + h, q.body);
    EmittedStands(v, prog, p + h + |body| + 4, q.rest);
    assert v.header(p, q.a) && v.footer(p + h + |body|, q.a, q.condition);
    LoopStands(v, p, q, h, |body|);
  }

  lemma EmittedBlock<M>(v: View<M>, prog: seq<Line>, p: nat, q: Program, body: seq<Line>, rest: seq<Line>)
    requires q.Block? && Sees(v, prog) && body == Emit(q.body) && rest == Emit(q.rest)
    requires At(prog, p, [Comment(q.open)] + body + [Comment(q.close)] + rest)
    ensures Stands(v, p, q) && SizeOf(v, q) == 2 + |body| + |rest|
    decreases q, 0
  {
    BlockParts(prog, p, q.open, q.close, body, rest);
    EmittedStands(v, prog, p + 1, q.body);
    EmittedStands(v, prog, p + 2 + |body|, q.rest);
    assert v.comment(p) && v.comment(p + 1 + |body|);
    BlockStands(v, p, q, |body|);
  }

  lemma LoopParts(
    prog: seq<Line>, p: nat, a: LoopArgs, condition: Condition, open: string, close: string,
    body: seq<Line>, rest: seq<Line>)
    requires At(prog, p, [Comment(open)] + Header(a) + body + ([Comment(close)] + Footer(a, condition)) + rest)
    ensures HeaderAt(prog, p, a) && At(prog, p + 1 + |Header(a)|, body)
    ensures FooterAt(prog, p + 1 + |Header(a)| + |body|, a, condition)
    ensures At(prog, p + 1 + |Header(a)| + |body| + 4, rest)
    ensures |[Comment(open)] + Header(a) + body + ([Comment(close)] + Footer(a, condition)) + rest|
         == 1 + |Header(a)| + |body| + 4 + |rest|
  {
    var x, z := [Comment(open)] + Header(a), [Comment(close)] + Footer(a, condition);
    AtParts(prog, p, x + body + z, rest);
    AtParts(prog, p, x + body, z);
    AtParts(prog, p, x, body);
    assert prog[p + 0] == x[0];
    FooterLines(prog, p + |x| + |body|, a, condition, close);
  }

  lemma FooterLines(prog: seq<Line>, p: nat, a: LoopArgs, condition: Condition, close: string)
    requires At(prog, p, [Comment(close)] + Footer(a, condition))
    ensures FooterAt(prog, p, a, condition)
  {
    var z := [Comment(close)] + Footer(a, condition);
    assert prog[p + 0] == z[0] && prog[p + 1] == z[1] && prog[p + 2] == z[2] && prog[p + 3] == z[3];
  }

  lemma BlockParts(prog: seq<Line>, p: nat, open: string, close: string, body: seq<Line>, rest: seq<Line>)
    requires At(prog, p, [Comment(open)] + body + [Comment(close)] + rest)
    ensures p < |prog| && prog[p] == Comment(open) && At(prog, p + 1, body)
    ensures p + 1 + |body| < |prog| && prog[p + 1 + |body|] == Comment(close)
    ensures At(prog, p + 2 + |body|, rest)
  {
    var x, z := [Comment(open)], [Comment(close)];
    AtParts(prog, p, x + body + z, rest);
    AtParts(prog, p, x + body, z);
    AtParts(prog, p, x, body);
    assert prog[p + 0] == x[0] && prog[p + |x + body| + 0] == z[0];
  }

  // ----- the two together

  /** The emitted code, run from its first line, ends in state t. */
  ghost predicate Runs<M>(isa: Isa<M>, code: seq<Line>, s: State<M>, t: State<M>) {
    exists n: nat :: Ends(ViewOf(isa, code), Config(0, s, 0, 0), n, t)
  }

  /** The emitted code ends exactly when the kernel does, and in the same state. */
  lemma CodeIsCorrect<M(!new)>(isa: Isa<M>, p: Program, s: State<M>, t: State<M>)
    requires UniqueLabels(Emit(p))
    ensures Evaluates(Meaning(isa), p, s, t) <==> Runs(isa, Emit(p), s, t)
  {
    ViewIsSound(isa, Emit(p));
    EmittedStands(ViewOf(isa, Emit(p)), Emit(p), 0, p);
    WholeProgram(ViewOf(isa, Emit(p)), p, Config(0, s, 0, 0), t);
  }
}
