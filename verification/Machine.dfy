/**
 What the emitted assembly does (include/isa_x86-64.h): a machine that runs flat
 code with labels and jumps, and the loops that the code was made from.
 */
module Machine {
  import opened Wrappers
  import opened Splitting
  import opened Ptt

  // ----- registers and operands

  const TWO_TO_THE_63: int := 0x8000_0000_0000_0000
  const TWO_TO_THE_64: int := 0x1_0000_0000_0000_0000

  /** The value of a 64-bit register, as a signed number. */
  function Wrap(x: int): (w: int)
    ensures -TWO_TO_THE_63 <= w < TWO_TO_THE_63
    ensures -TWO_TO_THE_63 <= x < TWO_TO_THE_63 ==> w == x
  {
    (x + TWO_TO_THE_63) % TWO_TO_THE_64 - TWO_TO_THE_63
  }

  /** The registers, and everything else that instructions of the kernel read and write. */
  datatype State<M> = State(regs: map<string, int>, memory: M)

  function Read<M>(s: State<M>, r: string): int {
    if r in s.regs then s.regs[r] else 0
  }

  function Write<M>(s: State<M>, r: string, v: int): State<M> {
    s.(regs := s.regs[r := v])
  }

  /** Which operands are numbers, and what the instructions of the kernel do. */
  datatype Isa<!M> = Isa(literal: string -> Option<int>, exec: (string, State<M>) -> State<M>)

  function Operand<M>(isa: Isa<M>, x: string, s: State<M>): int {
    match isa.literal(x)
    case Some(v) => Wrap(v)
    case None => Read(s, x)
  }

  function Holds(c: Condition, a: int, b: int): bool {
    match c
    case Less => a < b
    case LessEqual => a <= b
    case Greater => a > b
    case GreaterEqual => a >= b
    case Equal => a == b
    case NotEqual => a != b
  }

  // ----- the machine

  /** Where the machine is, and what was last compared. */
  datatype Config<M> = Config(pc: nat, s: State<M>, left: int, right: int)

  function Effect<M>(isa: Isa<M>, l: Line, s: State<M>): State<M> {
    match l
    case Source(text) => isa.exec(text, s)
    case Xor(r) => Write(s, r, 0)
    case Mov(r, v) => Write(s, r, Operand(isa, v, s))
    case Add(r, v) => Write(s, r, Wrap(Read(s, r) + Operand(isa, v, s)))
    case Sub(r, v) => Write(s, r, Wrap(Read(s, r) - Operand(isa, v, s)))
    case _ => s
  }

  /** Where the label stands; the end of the program when there is none. */
  function Target(prog: seq<Line>, name: string): (t: nat)
    ensures t <= |prog| && (t < |prog| ==> prog[t] == Label(name))
    ensures forall i :: 0 <= i < t ==> prog[i] != Label(name)
  {
    if prog == [] || prog[0] == Label(name) then 0 else 1 + Target(prog[1..], name)
  }

  function Step<M>(isa: Isa<M>, prog: seq<Line>, c: Config<M>): Config<M> {
    if c.pc >= |prog| then c
    else
      match prog[c.pc]
      case Cmp(a, b) => Config(c.pc + 1, c.s, Read(c.s, a), Read(c.s, b))
      case Jump(condition, name) =>
        c.(pc := if Holds(condition, c.left, c.right) then Target(prog, name) else c.pc + 1)
      case l => Config(c.pc + 1, Effect(isa, l, c.s), c.left, c.right)
  }

  function Next<M>(isa: Isa<M>, prog: seq<Line>): Config<M> -> Config<M> {
    c => Step(isa, prog, c)
  }

  function Steps<C>(next: C -> C, c: C, n: nat): C
    decreases n
  {
    if n == 0 then c else Steps(next, next(c), n - 1)
  }

  lemma {:induction false} StepsSum<C>(next: C -> C, c: C, m: nat, n: nat)
    ensures Steps(next, c, m + n) == Steps(next, Steps(next, c, m), n)
    decreases m
  {
    if m > 0 {
      StepsSum(next, next(c), m - 1, n);
    }
  }

  // ----- structured programs

  /** Kernels with the arguments of their loops; `open` and `close` are kept as comments. */
  datatype Program =
    | Skip
    | Instruction(text: string, rest: Program)
    | Loop(a: LoopArgs, condition: Condition, open: string, close: string, body: Program, rest: Program)
    | Block(open: string, close: string, body: Program, rest: Program)

  function Emit(p: Program): seq<Line> {
    match p
    case Skip => []
    case Instruction(text, rest) => [Source(text)] + Emit(rest)
    case Loop(a, condition, open, close, body, rest) =>
      [Comment(open)] + Header(a) + Emit(body) + ([Comment(close)] + Footer(a, condition)) + Emit(rest)
    case Block(open, close, body, rest) => [Comment(open)] + Emit(body) + [Comment(close)] + Emit(rest)
  }

  function StartValue<M>(isa: Isa<M>, start: string, s: State<M>): int {
    if StartsWith(start, '0') then 0 else Operand(isa, start, s)
  }

  /** The end value: a number or register, or a base with an offset added or subtracted. */
  function EndValue<M>(isa: Isa<M>, condreg: string, cond: string, s: State<M>): int {
    var plus, minus := IndexOf(cond, '+'), IndexOf(cond, '-');
    if StartsWith(cond, '0') then 0
    else if 0 < plus < |cond| then
      var base := Operand(isa, "#" + cond[..plus], s);
      Wrap(base + Operand(isa, cond[plus + 1..], Write(s, condreg, base)))
    else if 0 < minus < |cond| then
      var base := Operand(isa, "#" + cond[..minus], s);
      Wrap(base - Operand(isa, cond[minus + 1..], Write(s, condreg, base)))
    else Operand(isa, "#" + cond, s)
  }

  /** The loop registers are set, the counter first. */
  function Enter<M>(isa: Isa<M>, a: LoopArgs, s: State<M>): State<M> {
    var t := Write(s, a.reg, StartValue(isa, a.start, s));
    Write(t, a.condreg, EndValue(isa, a.condreg, a.cond, t))
  }

  function Advance<M>(isa: Isa<M>, a: LoopArgs, s: State<M>): State<M> {
    Write(s, a.reg, Wrap(Read(s, a.reg) + Operand(isa, a.step, s)))
  }

  function Again<M>(a: LoopArgs, condition: Condition, s: State<M>): bool {
    Holds(condition, Read(s, a.reg), Read(s, a.condreg))
  }

  /** What instructions and loops do to the state. */
  datatype Semantics<!M> = Semantics(
    exec: (string, State<M>) -> State<M>,
    enter: (LoopArgs, State<M>) -> State<M>,
    advance: (LoopArgs, State<M>) -> State<M>,
    again: (LoopArgs, Condition, State<M>) -> bool)

  /** What they do on this machine. */
  function Meaning<M>(isa: Isa<M>): Semantics<M> {
    Semantics(isa.exec, (a, s) => Enter(isa, a, s), (a, s) => Advance(isa, a, s), (a, c, s) => Again(a, c, s))
  }

  /** The state after the program, if no loop in it is run through more than `fuel` times. */
  function Eval<M>(m: Semantics<M>, p: Program, s: State<M>, fuel: nat): Option<State<M>>
    decreases p, 0, 0
  {
    match p
    case Skip => Some(s)
    case Instruction(text, rest) => Eval(m, rest, m.exec(text, s), fuel)
    case Loop(a, condition, _, _, body, rest) =>
      (match Iterate(m, a, condition, body, m.enter(a, s), fuel, fuel)
       case None => None
       case Some(t) => Eval(m, rest, t, fuel))
    case Block(_, _, body, rest) =>
      (match Eval(m, body, s, fuel)
       case None => None
       case Some(t) => Eval(m, rest, t, fuel))
  }

  /** do body; reg += step while reg <direction> condreg, at most `times` times. */
  function Iterate<M>(
    m: Semantics<M>, a: LoopArgs, condition: Condition, body: Program, s: State<M>, fuel: nat, times: nat)
    : Option<State<M>>
    decreases body, 1, times
  {
    if times == 0 then None
    else
      match Eval(m, body, s, fuel)
      case None => None
      case Some(t) =>
        var u := m.advance(a, t);
        if m.again(a, condition, u) then Iterate(m, a, condition, body, u, fuel, times - 1) else Some(u)
  }

  // ----- code at a place in the program

  ghost predicate At(prog: seq<Line>, p: nat, code: seq<Line>) {
    p + |code| <= |prog| && forall i :: 0 <= i < |code| ==> prog[p + i] == code[i]
  }

  lemma AtParts(prog: seq<Line>, p: nat, a: seq<Line>, b: seq<Line>)
    requires At(prog, p, a + b)
    ensures At(prog, p, a) && At(prog, p + |a|, b)
  {
    forall i | 0 <= i < |a|
      ensures prog[p + i] == a[i]
    {
      assert (a + b)[i] == a[i];
    }
    forall i | 0 <= i < |b|
      ensures prog[p + |a| + i] == b[i]
    {
      assert (a + b)[|a| + i] == b[i] && prog[p + (|a| + i)] == (a + b)[|a| + i];
    }
  }

  ghost predicate UniqueLabels(prog: seq<Line>) {
    forall i, j :: 0 <= i < j < |prog| && prog[i].Label? ==> prog[i] != prog[j]
  }

  lemma TargetIs(prog: seq<Line>, i: nat, name: string)
    requires i < |prog| && prog[i] == Label(name) && UniqueLabels(prog)
    ensures Target(prog, name) == i
  {
    var t := Target(prog, name);
    assert t <= i;
  }

  predicate Straight(l: Line) {
    !l.Cmp? && !l.Jump?
  }

  function Effects<M>(isa: Isa<M>, code: seq<Line>, s: State<M>): State<M>
    decreases |code|
  {
    if code == [] then s else Effects(isa, code[1..], Effect(isa, code[0], s))
  }

  /** Code without jumps is run from its first line to its last. */
  lemma {:induction false} StraightRun<M>(isa: Isa<M>, prog: seq<Line>, code: seq<Line>, c: Config<M>)
    requires At(prog, c.pc, code) && forall i :: 0 <= i < |code| ==> Straight(code[i])
    ensures Steps(Next(isa, prog), c, |code|) == Config(c.pc + |code|, Effects(isa, code, c.s), c.left, c.right)
    decreases |code|
  {
    if code != [] {
      assert prog[c.pc + 0] == code[0] && Straight(code[0]);
      var d := Next(isa, prog)(c);
      assert d == Config(c.pc + 1, Effect(isa, code[0], c.s), c.left, c.right);
      forall i | 0 <= i < |code| - 1
        ensures prog[d.pc + i] == code[1..][i]
      {
        assert prog[c.pc + (i + 1)] == code[i + 1];
      }
      StraightRun(isa, prog, code[1..], d);
    }
  }
}
