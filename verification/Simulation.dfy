/**
 Structured programs and a machine that runs their code, seen from far enough away
 that neither instructions nor lines matter: the machine makes the moves that a
 view of it promises, and so it comes to the end of a program exactly when the
 program has a value.
 */
module Simulation {
  import opened Wrappers
  import opened Ptt
  import opened Machine

  /**
   A machine with `size` lines: where comments, instructions, loop headers and
   loop footers stand, and how many lines a header has.
   */
  datatype View<!M> = View(
    size: nat,
    next: Config<M> -> Config<M>,
    meaning: Semantics<M>,
    comment: nat -> bool,
    source: (nat, string) -> bool,
    header: (nat, LoopArgs) -> bool,
    footer: (nat, LoopArgs, Condition) -> bool,
    lines: LoopArgs -> nat)

  // ----- the moves

  /** The first k steps start before the end of the program. */
  ghost predicate OnTheWay<M>(v: View<M>, c: Config<M>, k: nat) {
    forall j :: 0 <= j < k ==> Steps(v.next, c, j).pc < v.size
  }

  /** Behind the last line nothing happens any more. */
  ghost predicate EndMove<M>(v: View<M>, c: Config<M>) {
    c.pc >= v.size ==> v.next(c) == c
  }

  ghost predicate CommentMove<M>(v: View<M>, c: Config<M>) {
    v.comment(c.pc) ==> c.pc < v.size && v.next(c) == c.(pc := c.pc + 1)
  }

  ghost predicate SourceMove<M>(v: View<M>, c: Config<M>, text: string) {
    v.source(c.pc, text) ==>
      c.pc < v.size && v.next(c) == Config(c.pc + 1, v.meaning.exec(text, c.s), c.left, c.right)
  }

  ghost predicate HeaderMove<M>(v: View<M>, c: Config<M>, a: LoopArgs) {
    v.header(c.pc, a) ==>
      var h := v.lines(a);
      && h > 0 && OnTheWay(v, c, h)
      && Steps(v.next, c, h) == Config(c.pc + h, v.meaning.enter(a, c.s), c.left, c.right)
  }

  /** The footer goes to the last line of the header, and on to the line after it, or on behind itself. */
  ghost predicate FooterMove<M>(v: View<M>, c: Config<M>, a: LoopArgs, condition: Condition, head: nat) {
    v.header(head, a) && v.footer(c.pc, a, condition) ==>
      var d := Steps(v.next, c, 4);
      && OnTheWay(v, c, 4) && d.s == v.meaning.advance(a, c.s)
      && if v.meaning.again(a, condition, d.s)
         then d.pc < v.size && v.next(d) == d.(pc := head + v.lines(a))
         else d.pc == c.pc + 4
  }

  ghost predicate Sound<M(!new)>(v: View<M>) {
    && (forall c {:trigger EndMove(v, c)} :: EndMove(v, c))
    && (forall c {:trigger CommentMove(v, c)} :: CommentMove(v, c))
    && (forall c, text {:trigger SourceMove(v, c, text)} :: SourceMove(v, c, text))
    && (forall c, a {:trigger HeaderMove(v, c, a)} :: HeaderMove(v, c, a))
    && (forall c, a, condition, head {:trigger FooterMove(v, c, a, condition, head)} ::
          FooterMove(v, c, a, condition, head))
  }

  function SizeOf<M>(v: View<M>, p: Program): nat {
    match p
    case Skip => 0
    case Instruction(_, rest) => 1 + SizeOf(v, rest)
    case Loop(a, _, _, _, body, rest) => v.lines(a) + SizeOf(v, body) + 4 + SizeOf(v, rest)
    case Block(_, _, body, rest) => 2 + SizeOf(v, body) + SizeOf(v, rest)
  }

  /** The code of the program stands from line i on. */
  ghost predicate Stands<M>(v: View<M>, i: nat, p: Program)
    decreases p
  {
    match p
    case Skip => true
    case Instruction(text, rest) => v.source(i, text) && Stands(v, i + 1, rest)
    case Loop(a, condition, _, _, body, rest) =>
      var b := i + v.lines(a);
      && v.header(i, a) && Stands(v, b, body)
      && v.footer(b + SizeOf(v, body), a, condition) && Stands(v, b + SizeOf(v, body) + 4, rest)
    case Block(_, _, body, rest) =>
      && v.comment(i) && Stands(v, i + 1, body)
      && v.comment(i + 1 + SizeOf(v, body)) && Stands(v, i + 2 + SizeOf(v, body), rest)
  }

  lemma LoopStands<M>(v: View<M>, i: nat, p: Program, h: nat, b: nat)
    requires p.Loop? && v.lines(p.a) == h && SizeOf(v, p.body) == b
    requires v.header(i, p.a) && Stands(v, i + h, p.body)
    requires v.footer(i + h + b, p.a, p.condition) && Stands(v, i + h + b + 4, p.rest)
    ensures Stands(v, i, p) && SizeOf(v, p) == h + b + 4 + SizeOf(v, p.rest)
  {
  }

  lemma BlockStands<M>(v: View<M>, i: nat, p: Program, b: nat)
    requires p.Block? && SizeOf(v, p.body) == b && v.comment(i) && Stands(v, i + 1, p.body)
    requires v.comment(i + 1 + b) && Stands(v, i + 2 + b, p.rest)
    ensures Stands(v, i, p) && SizeOf(v, p) == 2 + b + SizeOf(v, p.rest)
  {
  }

  // ----- steps in a row

  lemma Chain<C>(next: C -> C, c: C, i: nat, j: nat, k: nat)
    ensures Steps(next, c, i + j) == Steps(next, Steps(next, c, i), j)
    ensures Steps(next, c, i + j + k) == Steps(next, Steps(next, Steps(next, c, i), j), k)
  {
    StepsSum(next, c, i, j);
    StepsSum(next, c, i, j + k);
    StepsSum(next, Steps(next, c, i), j, k);
  }

  /** A step, i steps, a step and j steps. */
  lemma BlockChain<C>(next: C -> C, c: C, i: nat, j: nat)
    ensures Steps(next, c, 1 + i + (1 + j)) == Steps(next, next(Steps(next, next(c), i)), j)
  {
    StepsSum(next, next(c), i, 1 + j);
  }

  /** i steps, four, one and k steps. */
  lemma LoopChain<C>(next: C -> C, c: C, i: nat, k: nat)
    ensures Steps(next, c, i + 4) == Steps(next, Steps(next, c, i), 4)
    ensures Steps(next, c, i + 4 + (1 + k)) == Steps(next, next(Steps(next, c, i + 4)), k)
  {
    StepsSum(next, c, i, 4);
    StepsSum(next, c, i + 4, 1 + k);
  }

  /** One pass through a loop, unfolded. */
  lemma OnePass<M>(
    m: Semantics<M>, a: LoopArgs, condition: Condition, body: Program, s: State<M>, fuel: nat, times: nat)
    requires times > 0
    ensures Iterate(m, a, condition, body, s, fuel, times).Some? ==> Eval(m, body, s, fuel).Some?
    ensures Eval(m, body, s, fuel).Some? ==>
      var u := m.advance(a, Eval(m, body, s, fuel).value);
      Iterate(m, a, condition, body, s, fuel, times) ==
        if m.again(a, condition, u) then Iterate(m, a, condition, body, u, fuel, times - 1) else Some(u)
  {
  }

  // ----- from the structured program to the machine

  /** If the program has a value, the machine gets to the end of its code in this state. */
  lemma {:induction false} Forward<M(!new)>(v: View<M>, p: Program, c: Config<M>, fuel: nat)
    returns (n: nat, d: Config<M>)
    requires Sound(v) && Stands(v, c.pc, p) && Eval(v.meaning, p, c.s, fuel).Some?
    ensures d == Steps(v.next, c, n) && d.pc == c.pc + SizeOf(v, p)
    ensures d.s == Eval(v.meaning, p, c.s, fuel).value
    decreases p, 0, 1
  {
    match p {
      case Skip =>
        n, d := 0, c;
      case Instruction(text, rest) =>
        assert SourceMove(v, c, text);
        var n1;
        n1, d := Forward(v, rest, v.next(c), fuel);
        n := n1 + 1;
      case Block(_, _, body, rest) =>
        n, d := ForwardBlock(v, p, c, fuel);
      case Loop(a, condition, _, _, body, rest) =>
        n, d := ForwardWholeLoop(v, p, c, fuel);
    }
  }

  lemma ForwardWholeLoop<M(!new)>(v: View<M>, p: Program, c: Config<M>, fuel: nat) returns (n: nat, d: Config<M>)
    requires p.Loop? && Sound(v) && Stands(v, c.pc, p) && Eval(v.meaning, p, c.s, fuel).Some?
    ensures d == Steps(v.next, c, n) && d.pc == c.pc + SizeOf(v, p)
    ensures d.s == Eval(v.meaning, p, c.s, fuel).value
    decreases p, 0, 0
  {
    assert HeaderMove(v, c, p.a);
    var h := v.lines(p.a);
    var c1 := Steps(v.next, c, h);
    var n1, c2 := ForwardLoop(v, p.a, p.condition, p.body, c1, c.pc, fuel, fuel);
    var n2;
    n2, d := Forward(v, p.rest, c2, fuel);
    n := h + n1 + n2;
    Chain(v.next, c, h, n1, n2);
  }

  lemma ForwardBlock<M(!new)>(v: View<M>, p: Program, c: Config<M>, fuel: nat) returns (n: nat, d: Config<M>)
    requires p.Block? && Sound(v) && Stands(v, c.pc, p) && Eval(v.meaning, p, c.s, fuel).Some?
    ensures d == Steps(v.next, c, n) && d.pc == c.pc + SizeOf(v, p)
    ensures d.s == Eval(v.meaning, p, c.s, fuel).value
    decreases p, 0, 0
  {
    assert CommentMove(v, c);
    var n1, c1 := Forward(v, p.body, v.next(c), fuel);
    assert CommentMove(v, c1);
    var n2;
    n2, d := Forward(v, p.rest, v.next(c1), fuel);
    n := 1 + n1 + (1 + n2);
    BlockChain(v.next, c, n1, n2);
  }

  lemma {:induction false} ForwardLoop<M(!new)>(
    v: View<M>, a: LoopArgs, condition: Condition, body: Program, c: Config<M>, head: nat, fuel: nat, times: nat)
    returns (n: nat, d: Config<M>)
    requires Sound(v) && v.header(head, a) && c.pc == head + v.lines(a) && Stands(v, c.pc, body)
    requires v.footer(c.pc + SizeOf(v, body), a, condition)
    requires Iterate(v.meaning, a, condition, body, c.s, fuel, times).Some?
    ensures d == Steps(v.next, c, n) && d.pc == c.pc + SizeOf(v, body) + 4
    ensures d.s == Iterate(v.meaning, a, condition, body, c.s, fuel, times).value
    decreases body, 1, times
  {
    OnePass(v.meaning, a, condition, body, c.s, fuel, times);
    var n1, c1 := Forward(v, body, c, fuel);
    assert FooterMove(v, c1, a, condition, head);
    n, d := n1 + 4, Steps(v.next, c1, 4);
    LoopChain(v.next, c, n1, 0);
    if v.meaning.again(a, condition, d.s) {
      var n3;
      n3, d := ForwardLoop(v, a, condition, body, v.next(d), head, fuel, times - 1);
      n := n1 + 4 + (1 + n3);
      LoopChain(v.next, c, n1, n3);
    }
  }

  // ----- from the machine to the structured program

  /** After n steps the machine is at the end, in state t. */
  ghost predicate Ends<M>(v: View<M>, c: Config<M>, n: nat, t: State<M>) {
    Steps(v.next, c, n).pc == v.size && Steps(v.next, c, n).s == t
  }

  /** If it comes to the end, then by way of every configuration on the way there. */
  lemma EndsAfter<M>(v: View<M>, c: Config<M>, n: nat, k: nat, t: State<M>)
    requires Ends(v, c, n, t) && k <= n
    ensures Ends(v, Steps(v.next, c, k), n - k, t)
  {
    StepsSum(v.next, c, k, n - k);
  }

  /** With a line before it the machine has a step to go. */
  lemma EndsNext<M>(v: View<M>, c: Config<M>, n: nat, t: State<M>)
    requires Ends(v, c, n, t) && c.pc < v.size
    ensures n > 0 && Ends(v, v.next(c), n - 1, t)
  {
  }

  /** It is not at the end while there are lines before it. */
  lemma NotYet<M>(v: View<M>, c: Config<M>, n: nat, k: nat, t: State<M>)
    requires Ends(v, c, n, t) && OnTheWay(v, c, k)
    ensures n >= k && Ends(v, Steps(v.next, c, k), n - k, t)
  {
    assert n < k ==> Steps(v.next, c, n).pc < v.size;
    EndsAfter(v, c, n, k, t);
  }

  /** A run to the end of everything passes the end of this part, in the state that is the value of the part. */
  lemma {:induction false} Backward<M(!new)>(v: View<M>, p: Program, c: Config<M>, n: nat, t: State<M>, fuel: nat)
    returns (k: nat, d: Config<M>)
    requires Sound(v) && Stands(v, c.pc, p) && Ends(v, c, n, t) && fuel >= n
    ensures k <= n && d == Steps(v.next, c, k) && d.pc == c.pc + SizeOf(v, p)
    ensures Eval(v.meaning, p, c.s, fuel) == Some(d.s)
    decreases n, 1
  {
    match p {
      case Skip =>
        k, d := 0, c;
      case Instruction(text, rest) =>
        assert SourceMove(v, c, text);
        EndsNext(v, c, n, t);
        var k1;
        k1, d := Backward(v, rest, v.next(c), n - 1, t, fuel);
        k := k1 + 1;
      case Block(_, _, body, rest) =>
        k, d := BackwardBlock(v, p, c, n, t, fuel);
      case Loop(a, condition, _, _, body, rest) =>
        k, d := BackwardWholeLoop(v, p, c, n, t, fuel);
    }
  }

  lemma BackwardWholeLoop<M(!new)>(v: View<M>, p: Program, c: Config<M>, n: nat, t: State<M>, fuel: nat)
    returns (k: nat, d: Config<M>)
    requires p.Loop? && Sound(v) && Stands(v, c.pc, p) && Ends(v, c, n, t) && fuel >= n
    ensures k <= n && d == Steps(v.next, c, k) && d.pc == c.pc + SizeOf(v, p)
    ensures Eval(v.meaning, p, c.s, fuel) == Some(d.s)
    decreases n, 0
  {
    assert HeaderMove(v, c, p.a);
    var h := v.lines(p.a);
    var c1 := Steps(v.next, c, h);
    NotYet(v, c, n, h, t);
    var k1, c2 := BackwardLoop(v, p.a, p.condition, p.body, c1, c.pc, n - h, t, fuel, fuel);
    EndsAfter(v, c1, n - h, k1, t);
    var k2;
    k2, d := Backward(v, p.rest, c2, n - h - k1, t, fuel);
    k := h + k1 + k2;
    Chain(v.next, c, h, k1, k2);
  }

  lemma BackwardBlock<M(!new)>(v: View<M>, p: Program, c: Config<M>, n: nat, t: State<M>, fuel: nat)
    returns (k: nat, d: Config<M>)
    requires p.Block? && Sound(v) && Stands(v, c.pc, p) && Ends(v, c, n, t) && fuel >= n
    ensures k <= n && d == Steps(v.next, c, k) && d.pc == c.pc + SizeOf(v, p)
    ensures Eval(v.meaning, p, c.s, fuel) == Some(d.s)
    decreases n, 0
  {
    assert CommentMove(v, c);
    EndsNext(v, c, n, t);
    var k1, c2 := Backward(v, p.body, v.next(c), n - 1, t, fuel);
    EndsAfter(v, v.next(c), n - 1, k1, t);
    assert CommentMove(v, c2);
    EndsNext(v, c2, n - 1 - k1, t);
    var k2;
    k2, d := Backward(v, p.rest, v.next(c2), n - 2 - k1, t, fuel);
    k := 1 + k1 + (1 + k2);
    BlockChain(v.next, c, k1, k2);
  }

  lemma {:induction false} BackwardLoop<M(!new)>(
    v: View<M>, a: LoopArgs, condition: Condition, body: Program, c: Config<M>, head: nat,
    n: nat, t: State<M>, fuel: nat, times: nat) returns (k: nat, d: Config<M>)
    requires Sound(v) && v.header(head, a) && c.pc == head + v.lines(a) && Stands(v, c.pc, body)
    requires v.footer(c.pc + SizeOf(v, body), a, condition)
    requires Ends(v, c, n, t) && fuel >= n && times >= n && times > 0
    ensures k <= n && d == Steps(v.next, c, k) && d.pc == c.pc + SizeOf(v, body) + 4
    ensures Iterate(v.meaning, a, condition, body, c.s, fuel, times) == Some(d.s)
    decreases n, 2
  {
    OnePass(v.meaning, a, condition, body, c.s, fuel, times);
    var k1, c1 := Backward(v, body, c, n, t, fuel);
    EndsAfter(v, c, n, k1, t);
    assert FooterMove(v, c1, a, condition, head);
    NotYet(v, c1, n - k1, 4, t);
    k, d := k1 + 4, Steps(v.next, c1, 4);
    LoopChain(v.next, c, k1, 0);
    if v.meaning.again(a, condition, d.s) {
      EndsNext(v, d, n - k1 - 4, t);
      var k3;
      k3, d := BackwardLoop(v, a, condition, body, v.next(d), head, n - k1 - 5, t, fuel, times - 1);
      k := k1 + 4 + (1 + k3);
      LoopChain(v.next, c, k1, k3);
    }
  }

  lemma {:induction false} Halted<M(!new)>(v: View<M>, c: Config<M>, n: nat)
    requires Sound(v) && c.pc >= v.size
    ensures Steps(v.next, c, n) == c
    decreases n
  {
    if n > 0 {
      assert EndMove(v, c);
      Halted(v, c, n - 1);
    }
  }

  /** The structured program ends in state t. */
  ghost predicate Evaluates<M>(m: Semantics<M>, p: Program, s: State<M>, t: State<M>) {
    exists fuel: nat :: Eval(m, p, s, fuel) == Some(t)
  }

  /** From the first line to the last: a value is an end, and an end is the value. */
  lemma WholeProgram<M(!new)>(v: View<M>, p: Program, c: Config<M>, t: State<M>)
    requires Sound(v) && Stands(v, 0, p) && SizeOf(v, p) == v.size && c.pc == 0
    ensures Evaluates(v.meaning, p, c.s, t) <==> exists n: nat :: Ends(v, c, n, t)
  {
    if Evaluates(v.meaning, p, c.s, t) {
      var fuel: nat :| Eval(v.meaning, p, c.s, fuel) == Some(t);
      var n, d := Forward(v, p, c, fuel);
      assert Ends(v, c, n, t);
    }
    if exists n: nat :: Ends(v, c, n, t) {
      var n: nat :| Ends(v, c, n, t);
      var k, d := Backward(v, p, c, n, t, n);
      EndsAfter(v, c, n, k, t);
      Halted(v, d, n - k);
      assert Eval(v.meaning, p, c.s, n) == Some(t);
    }
  }

  // ----- programs in two meanings

  /** The loop does the same in both. */
  ghost predicate SameAt<M>(m: Semantics<M>, n: Semantics<M>, a: LoopArgs, condition: Condition, s: State<M>) {
    && m.enter(a, s) == n.enter(a, s) && m.advance(a, s) == n.advance(a, s)
    && m.again(a, condition, s) == n.again(a, condition, s)
  }

  ghost predicate SameLoop<M(!new)>(m: Semantics<M>, n: Semantics<M>, a: LoopArgs, condition: Condition) {
    forall s :: SameAt(m, n, a, condition, s)
  }

  ghost predicate SameLoops<M(!new)>(m: Semantics<M>, n: Semantics<M>, p: Program) {
    match p
    case Skip => true
    case Instruction(_, rest) => SameLoops(m, n, rest)
    case Loop(a, condition, _, _, body, rest) =>
      SameLoop(m, n, a, condition) && SameLoops(m, n, body) && SameLoops(m, n, rest)
    case Block(_, _, body, rest) => SameLoops(m, n, body) && SameLoops(m, n, rest)
  }

  lemma {:induction false} SameEval<M(!new)>(m: Semantics<M>, n: Semantics<M>, p: Program, s: State<M>, fuel: nat)
    requires m.exec == n.exec && SameLoops(m, n, p)
    ensures Eval(m, p, s, fuel) == Eval(n, p, s, fuel)
    decreases p, 0, 0
  {
    match p {
      case Skip =>
      case Instruction(text, rest) =>
        SameEval(m, n, rest, m.exec(text, s), fuel);
      case Loop(a, condition, _, _, body, rest) =>
        assert SameAt(m, n, a, condition, s);
        SameIterate(m, n, a, condition, body, m.enter(a, s), fuel, fuel);
        var t := Iterate(m, a, condition, body, m.enter(a, s), fuel, fuel);
        if t.Some? {
          SameEval(m, n, rest, t.value, fuel);
        }
      case Block(_, _, body, rest) =>
        SameEval(m, n, body, s, fuel);
        var t := Eval(m, body, s, fuel);
        if t.Some? {
          SameEval(m, n, rest, t.value, fuel);
        }
    }
  }

  lemma {:induction false} SameIterate<M(!new)>(
    m: Semantics<M>, n: Semantics<M>, a: LoopArgs, condition: Condition, body: Program, s: State<M>,
    fuel: nat, times: nat)
    requires m.exec == n.exec && SameLoop(m, n, a, condition) && SameLoops(m, n, body)
    ensures Iterate(m, a, condition, body, s, fuel, times) == Iterate(n, a, condition, body, s, fuel, times)
    decreases body, 1, times
  {
    if times > 0 {
      SameEval(m, n, body, s, fuel);
      var t := Eval(m, body, s, fuel);
      if t.Some? {
        assert SameAt(m, n, a, condition, t.value);
        var u := m.advance(a, t.value);
        assert SameAt(m, n, a, condition, u);
        SameIterate(m, n, a, condition, body, u, fuel, times - 1);
      }
    }
  }

  lemma SameEvaluations<M(!new)>(m: Semantics<M>, n: Semantics<M>, p: Program, s: State<M>, t: State<M>)
    requires m.exec == n.exec && SameLoops(m, n, p)
    ensures Evaluates(m, p, s, t) <==> Evaluates(n, p, s, t)
  {
    forall fuel: nat
      ensures Eval(m, p, s, fuel) == Eval(n, p, s, fuel)
    {
      SameEval(m, n, p, s, fuel);
    }
  }
}
