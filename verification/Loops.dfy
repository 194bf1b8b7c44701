/**
 What the loops of the kernel language mean: how often a counting loop is run
 through, and where the emitted jump and the loaded values are not what the
 kernel says.
 */
module Loops {
  import opened Wrappers
  import opened Splitting
  import opened Ptt
  import opened Machine
  import opened Simulation

  // ----- the number of passes

  /** How often the body is run, as Iterate runs it. */
  function Passes<M>(
    m: Semantics<M>, a: LoopArgs, condition: Condition, body: Program, s: State<M>, fuel: nat, times: nat): Option<nat>
    decreases times
  {
    if times == 0 then None
    else
      match Eval(m, body, s, fuel)
      case None => None
      case Some(t) =>
        var u := m.advance(a, t);
        if !m.again(a, condition, u) then Some(1)
        else
          match Passes(m, a, condition, body, u, fuel, times - 1)
          case None => None
          case Some(k) => Some(k + 1)
  }

  lemma {:induction false} PassesOfIterate<M>(
    m: Semantics<M>, a: LoopArgs, condition: Condition, body: Program, s: State<M>, fuel: nat, times: nat)
    ensures Passes(m, a, condition, body, s, fuel, times).Some?
       <==> Iterate(m, a, condition, body, s, fuel, times).Some?
    ensures Passes(m, a, condition, body, s, fuel, times).Some? ==>
      1 <= Passes(m, a, condition, body, s, fuel, times).value <= times
    decreases times
  {
    if times > 0 && Eval(m, body, s, fuel).Some? {
      var u := m.advance(a, Eval(m, body, s, fuel).value);
      PassesOfIterate(m, a, condition, body, u, fuel, times - 1);
    }
  }

  /** The body ends, and leaves counter and end value alone. */
  ghost predicate Preserves<M(!new)>(m: Semantics<M>, body: Program, fuel: nat, a: LoopArgs) {
    forall s: State<M> ::
      && Eval(m, body, s, fuel).Some?
      && Read(Eval(m, body, s, fuel).value, a.reg) == Read(s, a.reg)
      && Read(Eval(m, body, s, fuel).value, a.condreg) == Read(s, a.condreg)
  }

  function CeilDiv(x: int, k: int): int
    requires k > 0
  {
    (x + k - 1) / k
  }

  lemma OneLess(x: int, k: int)
    requires 0 < k
    ensures CeilDiv(x, k) == CeilDiv(x - k, k) + 1
    ensures 0 < x <= k ==> CeilDiv(x, k) == 1
  {
    assert (x - 1) + k == x + k - 1;
    DivStep(x - 1, k);
    if 0 < x <= k {
      assert 0 <= x - 1 < k;
      assert (x - 1) / k == 0;
    }
  }

  lemma DivStep(y: int, k: int)
    requires 0 < k
    ensures (y + k) / k == y / k + 1
  {
    var q := y / k;
    assert y == k * q + y % k;
    Distribute(k, q);
    QuotientIs(y + k, k, q + 1);
  }

  lemma Distribute(k: int, q: int)
    ensures k * (q + 1) == k * q + k
  {
  }

  lemma MulMonotonic(k: int, a: int, b: int)
    requires 0 < k && a <= b
    ensures k * a <= k * b
  {
  }

  lemma QuotientIs(y: int, k: int, q: int)
    requires 0 < k && k * q <= y < k * q + k
    ensures y / k == q
  {
    var p := y / k;
    assert y == k * p + y % k;
    Distribute(k, p);
    Distribute(k, q);
    if p < q {
      MulMonotonic(k, p + 1, q);
    } else if q < p {
      MulMonotonic(k, q + 1, p);
    }
  }

  /** The counter behind the last pass, if it has not overflowed. */
  function LastValue(i: int, e: int, k: int): int
    requires k > 0
  {
    if i < e then i + CeilDiv(e - i, k) * k else i + k
  }

  lemma LastValueNext(i: int, e: int, k: int)
    requires 0 < k
    ensures i + k < e ==> LastValue(i, e, k) == LastValue(i + k, e, k)
    ensures i < e <= i + k ==> LastValue(i, e, k) == i + k
  {
    OneLess(e - i, k);
    if i + k < e {
      Distribute(k, CeilDiv(e - i - k, k));
    }
  }

  lemma {:induction false} LastValueBelow(i: int, e: int, k: int)
    requires 0 < k && i < e
    ensures e <= LastValue(i, e, k) < e + k
    decreases e - i
  {
    LastValueNext(i, e, k);
    if i + k < e {
      LastValueBelow(i + k, e, k);
    }
  }

  predicate IsWord(x: int) {
    -TWO_TO_THE_63 <= x < TWO_TO_THE_63
  }

  lemma WrapOnce(x: int)
    requires TWO_TO_THE_63 <= x < TWO_TO_THE_63 + TWO_TO_THE_64
    ensures Wrap(x) == x - TWO_TO_THE_64
  {
  }

  /** How often a loop is run through that counts up from i to e in steps of k. */
  function PassCount(i: int, e: int, k: int): int
    requires k > 0
  {
    if i < e then CeilDiv(e - i, k) else 1
  }

  lemma PassCountNext(i: int, e: int, k: int)
    requires 0 < k
    ensures i + k < e ==> PassCount(i, e, k) == PassCount(i + k, e, k) + 1
    ensures i + k < e ==> CeilDiv(e - i, k) == CeilDiv(e - (i + k), k) + 1 && CeilDiv(e - (i + k), k) >= 1
    ensures e <= i + k ==> PassCount(i, e, k) == 1
  {
    OneLess(e - i, k);
    if i + k < e {
      AtLeastOne(e - i - k, k);
    }
  }

  /**
   A loop that counts up in steps of k while the counter is less than the end
   value is run through ceil((e - i) / k) times if it starts below the end value,
   and once if it does not: exactly if the counter does not overflow with the last
   step, or, after a start that is not below the end value, overflows to a value
   that is not below it either.
   */
  lemma {:induction false} CountingUp<M(!new)>(
    isa: Isa<M>, a: LoopArgs, body: Program, s: State<M>, fuel: nat, times: nat, k: int)
    requires Preserves(Meaning(isa), body, fuel, a) && a.reg != a.condreg
    requires isa.literal(a.step) == Some(k) && 0 < k < TWO_TO_THE_63
    requires IsWord(Read(s, a.reg)) && IsWord(Read(s, a.condreg))
    requires times > 0 && times >= CeilDiv(Read(s, a.condreg) - Read(s, a.reg), k)
    ensures var i, e := Read(s, a.reg), Read(s, a.condreg);
            Passes(Meaning(isa), a, Less, body, s, fuel, times) == Some(PassCount(i, e, k))
            <==> LastValue(i, e, k) < TWO_TO_THE_63 || e <= LastValue(i, e, k) - TWO_TO_THE_64
    decreases times
  {
    var i, e := Read(s, a.reg), Read(s, a.condreg);
    LastValueNext(i, e, k);
    PassCountNext(i, e, k);
    if i + k < e {
      OnePass(isa, a, body, s, fuel, times, k);
      var u := AfterPass(isa, a, body, s, fuel);
      CountingUp(isa, a, body, u, fuel, times - 1, k);
    } else {
      LastPass(isa, a, body, s, fuel, times, k);
    }
  }

  function AfterPass<M>(isa: Isa<M>, a: LoopArgs, body: Program, s: State<M>, fuel: nat): State<M>
    requires Eval(Meaning(isa), body, s, fuel).Some?
  {
    Advance(isa, a, Eval(Meaning(isa), body, s, fuel).value)
  }

  /** One pass, unfolded. */
  lemma OnePass<M(!new)>(
    isa: Isa<M>, a: LoopArgs, body: Program, s: State<M>, fuel: nat, times: nat, k: int)
    requires Preserves(Meaning(isa), body, fuel, a) && a.reg != a.condreg
    requires isa.literal(a.step) == Some(k) && times > 0
    ensures var u, e := AfterPass(isa, a, body, s, fuel), Read(s, a.condreg);
      && Read(u, a.reg) == Wrap(Read(s, a.reg) + k) && Read(u, a.condreg) == e
      && Passes(Meaning(isa), a, Less, body, s, fuel, times) ==
         if Read(u, a.reg) >= e then Some(1)
         else
           match Passes(Meaning(isa), a, Less, body, u, fuel, times - 1)
           case None => None
           case Some(n) => Some(n + 1)
  {
  }

  /** The step that reaches the end value or overflows. */
  lemma LastPass<M(!new)>(
    isa: Isa<M>, a: LoopArgs, body: Program, s: State<M>, fuel: nat, times: nat, k: int)
    requires Preserves(Meaning(isa), body, fuel, a) && a.reg != a.condreg
    requires isa.literal(a.step) == Some(k) && 0 < k < TWO_TO_THE_63 && times > 0
    requires IsWord(Read(s, a.reg)) && IsWord(Read(s, a.condreg)) && Read(s, a.condreg) <= Read(s, a.reg) + k
    ensures var j, e := Read(s, a.reg) + k, Read(s, a.condreg);
            Passes(Meaning(isa), a, Less, body, s, fuel, times) == Some(1)
            <==> j < TWO_TO_THE_63 || e <= j - TWO_TO_THE_64
  {
    var j := Read(s, a.reg) + k;
    OnePass(isa, a, body, s, fuel, times, k);
    PassesOfIterate(Meaning(isa), a, Less, body, AfterPass(isa, a, body, s, fuel), fuel, times - 1);
    if j >= TWO_TO_THE_63 {
      WrapOnce(j);
    }
  }

  /** The same for a loop from its header on: start and end value are those in the LOOP line. */
  lemma LoopCount<M(!new)>(
    isa: Isa<M>, a: LoopArgs, body: Program, s: State<M>, fuel: nat, times: nat, k: int, i: int, e: int)
    requires Preserves(Meaning(isa), body, fuel, a) && a.reg != a.condreg
    requires isa.literal(a.step) == Some(k) && 0 < k < TWO_TO_THE_63
    requires i == StartValue(isa, a.start, s)
    requires e == EndValue(isa, a.condreg, a.cond, Write(s, a.reg, i))
    requires IsWord(i) && IsWord(e) && i < e && times >= CeilDiv(e - i, k)
    ensures Passes(Meaning(isa), a, Less, body, Enter(isa, a, s), fuel, times) == Some(CeilDiv(e - i, k))
       <==> i + CeilDiv(e - i, k) * k < TWO_TO_THE_63
  {
    var t := Enter(isa, a, s);
    assert Read(t, a.reg) == i && Read(t, a.condreg) == e;
    AtLeastOne(e - i, k);
    LastValueBelow(i, e, k);
    CountingUp(isa, a, body, t, fuel, times, k);
  }

  lemma {:induction false} AtLeastOne(x: int, k: int)
    requires 0 < k && 0 < x
    ensures CeilDiv(x, k) >= 1
    decreases x
  {
    OneLess(x, k);
    if x > k {
      AtLeastOne(x - k, k);
    }
  }

  // ----- where the code departs from the kernel

  function Means(direction: string, a: int, b: int): bool {
    if direction == "<" then a < b
    else if direction == "<=" then a <= b
    else if direction == ">" then a > b
    else if direction == ">=" then a >= b
    else if direction == "==" then a == b
    else a != b
  }

  /** The jump goes by the direction for every direction but <= and >=, which are taken for < and >. */
  lemma DirectionKept(direction: string)
    requires direction in ["<", "<=", ">", ">=", "==", "!="]
    ensures JumpFor(direction).Some?
    ensures (forall a, b :: Holds(JumpFor(direction).value, a, b) == Means(direction, a, b))
       <==> direction != "<=" && direction != ">="
    ensures direction == "<=" ==> forall a, b :: Holds(JumpFor(direction).value, a, b) <==> a < b
    ensures direction == ">=" ==> forall a, b :: Holds(JumpFor(direction).value, a, b) <==> a > b
  {
    if direction == "<=" {
      assert JumpFor(direction) == Some(Less);
      assert Holds(Less, 0, 0) != Means("<=", 0, 0);
    } else if direction == ">=" {
      assert JumpFor(direction) == Some(Greater);
      assert Holds(Greater, 0, 0) != Means(">=", 0, 0);
    } else {
      assert direction[0] == '<' || direction[0] == '>' || direction[0] == '=' || direction[0] == '!';
    }
  }

  /** The end value that is written: a number or register, or a base with an offset added or subtracted. */
  function WrittenEnd<M>(isa: Isa<M>, cond: string, s: State<M>): int {
    var plus, minus := IndexOf(cond, '+'), IndexOf(cond, '-');
    if 0 < plus < |cond| then Wrap(Operand(isa, "#" + cond[..plus], s) + Operand(isa, cond[plus + 1..], s))
    else if 0 < minus < |cond| then Wrap(Operand(isa, "#" + cond[..minus], s) - Operand(isa, cond[minus + 1..], s))
    else Operand(isa, "#" + cond, s)
  }

  /** The offset of an end value, if there is one. */
  function OffsetOf(cond: string): Option<string> {
    var plus, minus := IndexOf(cond, '+'), IndexOf(cond, '-');
    if 0 < plus < |cond| then Some(cond[plus + 1..])
    else if 0 < minus < |cond| then Some(cond[minus + 1..])
    else None
  }

  /** The offset is a register, and the one that the end value is loaded into. */
  predicate OffsetIsLoaded<M>(isa: Isa<M>, condreg: string, cond: string) {
    OffsetOf(cond) == Some(condreg) && isa.literal(condreg).None?
  }

  /** A counter starts from the value that is written unless that begins with a 0 and is not zero. */
  lemma StartKept<M>(isa: Isa<M>, a: LoopArgs, s: State<M>)
    requires a.reg != a.condreg
    ensures Read(Enter(isa, a, s), a.reg) == Operand(isa, a.start, s)
       <==> !StartsWith(a.start, '0') || Operand(isa, a.start, s) == 0
    ensures isa.literal("0x10") == Some(16) && a.start == "0x10" ==>
      Read(Enter(isa, a, s), a.reg) == 0 && Operand(isa, a.start, s) == 16
  {
  }

  /**
   The end register holds the value that is written, unless that begins with a 0
   and is not zero, or has the register itself as an offset when this register
   and the base differ.
   */
  lemma EndKept<M>(isa: Isa<M>, a: LoopArgs, s: State<M>)
    ensures var t := Write(s, a.reg, StartValue(isa, a.start, s));
      var kept := Read(Enter(isa, a, s), a.condreg) == WrittenEnd(isa, a.cond, t);
      if StartsWith(a.cond, '0') then kept <==> WrittenEnd(isa, a.cond, t) == 0
      else OffsetIsLoaded(isa, a.condreg, a.cond) || kept
  {
    var t := Write(s, a.reg, StartValue(isa, a.start, s));
    if !StartsWith(a.cond, '0') && !OffsetIsLoaded(isa, a.condreg, a.cond) {
      EndAsWritten(isa, a.condreg, a.cond, t);
    }
  }

  lemma EndAsWritten<M>(isa: Isa<M>, condreg: string, cond: string, t: State<M>)
    requires !StartsWith(cond, '0') && !OffsetIsLoaded(isa, condreg, cond)
    ensures EndValue(isa, condreg, cond, t) == WrittenEnd(isa, cond, t)
  {
    var offset := OffsetOf(cond);
    if offset.Some? {
      forall base
        ensures Operand(isa, offset.value, Write(t, condreg, base)) == Operand(isa, offset.value, t)
      {
      }
    }
  }

  /** An end value with an offset that is the register itself is twice the base, or nothing. */
  lemma LoadedOffset<M>(isa: Isa<M>, condreg: string, base: string, s: State<M>)
    requires base != "" && '+' !in base && '-' !in base && !StartsWith(base, '0')
    requires '+' !in condreg && isa.literal(condreg).None?
    ensures EndValue(isa, condreg, base + "+" + condreg, s) == Wrap(2 * Operand(isa, "#" + base, s))
    ensures EndValue(isa, condreg, base + "-" + condreg, s) == 0
  {
    OffsetAt(base, '+', condreg);
    OffsetAt(base, '-', condreg);
    NoSuchIndex(base + "-" + condreg, '+');
  }

  lemma OffsetAt(base: string, sign: char, offset: string)
    requires base != "" && sign !in base
    ensures var cond := base + [sign] + offset;
      && IndexOf(cond, sign) == |base| < |cond| && cond[..|base|] == base && cond[|base| + 1..] == offset
      && cond[0] == base[0]
  {
    var cond := base + [sign] + offset;
    assert cond[..|base|] == base && cond[|base|] == sign && cond[|base| + 1..] == offset;
    FirstIndex(cond, sign, |base|);
  }

  lemma NoSuchIndex(s: string, c: char)
    requires c !in s
    ensures IndexOf(s, c) == |s|
  {
    assert s[..|s|] == s;
    FirstIndex(s, c, |s|);
  }

  /** An end value with an offset that is added or subtracted, other than the register that is being loaded. */
  lemma EndIsSum<M>(isa: Isa<M>, condreg: string, base: string, offset: string, s: State<M>)
    requires base != "" && '+' !in base && !StartsWith(base, '0')
    requires isa.literal(offset).Some? || offset != condreg
    ensures EndValue(isa, condreg, base + "+" + offset, s)
         == Wrap(Operand(isa, "#" + base, s) + Operand(isa, offset, s))
    ensures '+' !in offset && '-' !in base ==>
      EndValue(isa, condreg, base + "-" + offset, s) == Wrap(Operand(isa, "#" + base, s) - Operand(isa, offset, s))
  {
    OffsetAt(base, '+', offset);
    if '+' !in offset && '-' !in base {
      OffsetAt(base, '-', offset);
      NoSuchIndex(base + "-" + offset, '+');
    }
  }

  // ----- kernels that mean what they say

  /** A machine that takes the start value, the end value and the direction of a loop as they are written. */
  function Written<M>(isa: Isa<M>): Semantics<M> {
    Semantics(
      isa.exec,
      (a, s) => WrittenEnter(isa, a, s),
      (a, s) => Advance(isa, a, s),
      (a: LoopArgs, c, s) => Means(a.direction, Read(s, a.reg), Read(s, a.condreg)))
  }

  function WrittenEnter<M>(isa: Isa<M>, a: LoopArgs, s: State<M>): State<M> {
    var t := Write(s, a.reg, Operand(isa, a.start, s));
    Write(t, a.condreg, WrittenEnd(isa, a.cond, t))
  }

  const PLAIN := ["<", ">", "==", "!="]

  /** One of four directions, no value that begins with a 0 and is not zero, no offset that is being loaded. */
  predicate SaysWhatItMeans<M>(isa: Isa<M>, a: LoopArgs) {
    && a.direction in PLAIN
    && (StartsWith(a.start, '0') ==> isa.literal(a.start) == Some(0))
    && (StartsWith(a.cond, '0') ==> OffsetOf(a.cond) == None && isa.literal("#" + a.cond) == Some(0))
    && !OffsetIsLoaded(isa, a.condreg, a.cond)
  }

  lemma EnterAsWritten<M>(isa: Isa<M>, a: LoopArgs, s: State<M>)
    requires SaysWhatItMeans(isa, a)
    ensures Enter(isa, a, s) == WrittenEnter(isa, a, s)
  {
    var t := Write(s, a.reg, StartValue(isa, a.start, s));
    if !StartsWith(a.cond, '0') {
      EndAsWritten(isa, a.condreg, a.cond, t);
    }
  }

  lemma AgainAsWritten<M>(isa: Isa<M>, a: LoopArgs, condition: Condition, s: State<M>)
    requires a.direction in PLAIN && JumpFor(a.direction) == Some(condition)
    ensures Again(a, condition, s) == Means(a.direction, Read(s, a.reg), Read(s, a.condreg))
  {
    DirectionKept(a.direction);
  }

  /** All loops of the program are of this kind, and close with the jump for their direction. */
  predicate AllSayWhatTheyMean<M>(isa: Isa<M>, p: Program) {
    match p
    case Skip => true
    case Instruction(_, rest) => AllSayWhatTheyMean(isa, rest)
    case Loop(a, condition, _, _, body, rest) =>
      && SaysWhatItMeans(isa, a) && JumpFor(a.direction) == Some(condition)
      && AllSayWhatTheyMean(isa, body) && AllSayWhatTheyMean(isa, rest)
    case Block(_, _, body, rest) => AllSayWhatTheyMean(isa, body) && AllSayWhatTheyMean(isa, rest)
  }

  lemma LoopAsWritten<M(!new)>(isa: Isa<M>, a: LoopArgs, condition: Condition)
    requires SaysWhatItMeans(isa, a) && JumpFor(a.direction) == Some(condition)
    ensures SameLoop(Meaning(isa), Written(isa), a, condition)
  {
    forall s: State<M>
      ensures SameAt(Meaning(isa), Written(isa), a, condition, s)
    {
      EnterAsWritten(isa, a, s);
      AgainAsWritten(isa, a, condition, s);
    }
  }

  lemma {:induction false} LoopsAsWritten<M(!new)>(isa: Isa<M>, p: Program)
    requires AllSayWhatTheyMean(isa, p)
    ensures SameLoops(Meaning(isa), Written(isa), p)
  {
    match p {
      case Skip =>
      case Instruction(_, rest) => LoopsAsWritten(isa, rest);
      case Loop(a, condition, _, _, body, rest) =>
        LoopAsWritten(isa, a, condition);
        LoopsAsWritten(isa, body);
        LoopsAsWritten(isa, rest);
      case Block(_, _, body, rest) =>
        LoopsAsWritten(isa, body);
        LoopsAsWritten(isa, rest);
    }
  }

  /** Such programs do what they say. */
  lemma ProgramAsWritten<M(!new)>(isa: Isa<M>, p: Program, s: State<M>, t: State<M>)
    requires AllSayWhatTheyMean(isa, p)
    ensures Evaluates(Meaning(isa), p, s, t) <==> Evaluates(Written(isa), p, s, t)
  {
    LoopsAsWritten(isa, p);
    SameEvaluations(Meaning(isa), Written(isa), p, s, t);
  }
}
