/**
 Expression trees, and the proof that the token machine of the calculator
 computes their value: + - * / % associate to the left, ^ to the right, and a
 call takes exactly its own arguments.
 */
module Expressions {
  import opened Calculator
  import opened Wrappers

  datatype Expr =
    | Literal(n: number)
    | Binary(op: Op, l: Expr, r: Expr)
    | Paren(e: Expr)
    | Call(f: Func, args: Args)

  /** One or more arguments. */
  datatype Args = Last(e: Expr) | More(e: Expr, rest: Args)

  function OpLevel(op: Op): nat {
    match op
    case Plus => 1
    case Minus => 1
    case Power => 3
    case _ => 2
  }

  function Level(e: Expr): nat {
    if e.Binary? then OpLevel(e.op) else 4
  }

  /**
   The trees of the grammar E -> E (+|-) T, T -> T (*|/|%) P, P -> A ^ P,
   A -> number | (E) | f(E, ..., E).
   */
  predicate WellFormed(e: Expr) {
    match e
    case Literal(_) => true
    case Paren(e') => WellFormed(e')
    case Call(_, args) => ArgsWellFormed(args)
    case Binary(op, l, r) =>
      && WellFormed(l) && WellFormed(r)
      && (if op == Power then Level(l) == 4 && Level(r) >= 3
          else Level(l) >= OpLevel(op) && Level(r) > OpLevel(op))
  }

  predicate ArgsWellFormed(args: Args) {
    WellFormed(args.e) && (args.More? ==> ArgsWellFormed(args.rest))
  }

  /** The tokens an expression is written with. */
  function Tokens(e: Expr): seq<Token> {
    match e
    case Literal(n) => [Num(n)]
    case Binary(op, l, r) => Tokens(l) + [Operator(op)] + Tokens(r)
    case Paren(e') => [LParen] + Tokens(e') + [RParen]
    case Call(f, args) => [Function(f), LParen] + ArgTokens(args) + [RParen]
  }

  function ArgTokens(args: Args): seq<Token> {
    match args
    case Last(e) => Tokens(e)
    case More(e, rest) => Tokens(e) + [Comma] + ArgTokens(rest)
  }

  function Count(args: Args): nat {
    if args.Last? then 1 else 1 + Count(args.rest)
  }

  /** The value of a tree; none if it divides by zero or gives one-argument functions more. */
  function Value(fpu: Fpu, e: Expr): Option<number> {
    match e
    case Literal(n) => Some(n)
    case Paren(e') => Value(fpu, e')
    case Binary(op, l, r) =>
      (match Value(fpu, l)
       case None => None
       case Some(a) =>
         match Value(fpu, r)
         case None => None
         case Some(b) => ApplyRounded(fpu, op, a, b))
    case Call(f, args) =>
      match Values(fpu, args)
      case None => None
      case Some(vs) => CallValue(fpu, f, vs)
  }

  function Values(fpu: Fpu, args: Args): (r: Option<seq<number>>)
    ensures r.Some? ==> |r.value| == Count(args)
  {
    match Value(fpu, args.e)
    case None => None
    case Some(v) =>
      if args.Last? then Some([v])
      else
        match Values(fpu, args.rest)
        case None => None
        case Some(vs) => Some([v] + vs)
  }

  /** Functions see their arguments from the last one to the first. */
  function CallValue(fpu: Fpu, f: Func, vs: seq<number>): Option<number>
    requires vs != []
  {
    match f
    case Unary(name) => if |vs| == 1 then Some(fpu.round(fpu.unary(name, vs[0]))) else None
    case _ => Some(fpu.round(Aggregate(fpu, f, Reverse(vs))))
  }

  function Reverse(s: seq<number>): (r: seq<number>)
    ensures |r| == |s|
    ensures forall i :: 0 <= i < |s| ==> r[i] == s[|s| - 1 - i]
  {
    if s == [] then [] else Reverse(s[1..]) + [s[0]]
  }

  /**
   Where the calculator accepts calls of one-argument functions: only when
   nothing else lies on the output stack. `below` counts what lies there when
   the evaluation of e begins.
   */
  predicate Placed(e: Expr, below: nat) {
    match e
    case Literal(_) => true
    case Paren(e') => Placed(e', below)
    case Binary(_, l, r) => Placed(l, below) && Placed(r, below + 1)
    case Call(f, args) => (f.Unary? ==> below == 0) && ArgsPlaced(args, below + 1)
  }

  predicate ArgsPlaced(args: Args, below: nat) {
    Placed(args.e, below) && (args.More? ==> ArgsPlaced(args.rest, below + 1))
  }

  function Vals(vs: seq<number>): (items: seq<Item>)
    ensures |items| == |vs|
    ensures forall i :: 0 <= i < |vs| ==> items[i] == Val(vs[i])
  {
    seq(|vs|, i requires 0 <= i < |vs| => Val(vs[i]))
  }

  // ----- the context an expression is evaluated in

  function Top(ops: seq<Token>): Token
    requires ops != []
  {
    ops[|ops| - 1]
  }

  /** No operator of level lvl or above drives the top of the operator stack away. */
  predicate Holds(ops: seq<Token>, lvl: nat) {
    ops == [] || match Top(ops)
                 case LParen => true
                 case Operator(op) => OpLevel(op) < lvl || (op == Power && lvl == 3)
                 case _ => false
  }

  /** What follows drives away every pending operator of level lvl or above. */
  predicate Ends(rest: seq<Token>, lvl: nat, ops: seq<Token>) {
    rest == [] || match rest[0]
                  case RParen => ops != []
                  case Comma => ops != []
                  case Operator(op) => if op == Power then lvl == 4 else OpLevel(op) <= lvl
                  case _ => false
  }

  /** Driving an operator whose operands are in place evaluates it. */
  lemma DriveOne(fpu: Fpu, d: Drive, op: Op, a: number, b: number, out: seq<Item>, ops: seq<Token>)
    requires Drives(d, ops + [Operator(op)])
    ensures PopWhile(fpu, d, State(out + [Val(a), Val(b)], ops + [Operator(op)]))
         == match ApplyRounded(fpu, op, a, b)
            case None => Fault
            case Some(v) => PopWhile(fpu, d, State(out + [Val(v)], ops))
  {
    var st := State(out + [Val(a), Val(b)], ops + [Operator(op)]);
    var n := |st.out|;
    assert st.out[n - 2] == Val(a) && st.out[n - 1] == Val(b) && st.out[..n - 2] == out;
    assert st.ops[..|st.ops| - 1] == ops && st.ops[|st.ops| - 1] == Operator(op);
  }

  /** The drive that a token starts when an expression ends before it. */
  function DriveOf(t: Token): Drive {
    if t.RParen? || t.Comma? then ToParen else ForOperator(t)
  }

  /** A pending operator of level lvl or above is driven by the token that ends the expression. */
  lemma EndDrives(op: Op, ops: seq<Token>, rest: seq<Token>, lvl: nat)
    requires lvl <= OpLevel(op) && Ends(rest, lvl, ops) && rest != []
    ensures rest[0].RParen? || rest[0].Comma? || rest[0].Operator?
    ensures Drives(DriveOf(rest[0]), ops + [Operator(op)])
  {
  }

  /** Such a token does the same in two states that its drive makes equal, and fails where its drive fails. */
  lemma StepAfterDrive(fpu: Fpu, t: Token, st: State, st': State)
    requires t.RParen? || t.Comma? || t.Operator?
    ensures PopWhile(fpu, DriveOf(t), st).Fault? ==> Step(fpu, t, st).Fault?
    ensures PopWhile(fpu, DriveOf(t), st) == PopWhile(fpu, DriveOf(t), st') ==> Step(fpu, t, st) == Step(fpu, t, st')
  {
  }

  /** An operator on top of the stack, its operands in place, is evaluated next. */
  lemma Reduce(fpu: Fpu, op: Op, a: number, b: number, out: seq<Item>, ops: seq<Token>, rest: seq<Token>, lvl: nat)
    requires lvl <= OpLevel(op) && Ends(rest, lvl, ops)
    ensures Run(fpu, rest, State(out + [Val(a), Val(b)], ops + [Operator(op)]))
         == match ApplyRounded(fpu, op, a, b)
            case None => Fault
            case Some(v) => Run(fpu, rest, State(out + [Val(v)], ops))
  {
    var st := State(out + [Val(a), Val(b)], ops + [Operator(op)]);
    var v := ApplyRounded(fpu, op, a, b);
    var st' := if v.Some? then State(out + [Val(v.value)], ops) else st;
    if rest == [] {
      DriveOne(fpu, All, op, a, b, out, ops);
    } else {
      EndDrives(op, ops, rest, lvl);
      DriveOne(fpu, DriveOf(rest[0]), op, a, b, out, ops);
      StepAfterDrive(fpu, rest[0], st, st');
    }
  }

  /** What the machine does with the tokens of e, in any context that e may stand in. */
  ghost predicate Evaluates(fpu: Fpu, e: Expr, rest: seq<Token>, out: seq<Item>, ops: seq<Token>) {
    Run(fpu, Tokens(e) + rest, State(out, ops)) ==
      if Placed(e, |out|) && Value(fpu, e).Some?
      then Run(fpu, rest, State(out + [Val(Value(fpu, e).value)], ops))
      else Fault
  }

  lemma RunOne(fpu: Fpu, t: Token, rest: seq<Token>, st: State)
    ensures Run(fpu, [t] + rest, st) ==
      match Step(fpu, t, st)
      case Ok(st') => Run(fpu, rest, st')
      case Fault => Fault
      case Crash => Crash
  {
    assert ([t] + rest)[1..] == rest;
  }

  /** The token machine computes the value of the tree. */
  lemma {:induction false} Correct(
    fpu: Fpu, e: Expr, lvl: nat, rest: seq<Token>, out: seq<Item>, ops: seq<Token>)
    requires WellFormed(e) && 1 <= lvl <= Level(e)
    requires Holds(ops, lvl) && Ends(rest, lvl, ops)
    ensures Evaluates(fpu, e, rest, out, ops)
    decreases e, 1
  {
    match e
    case Literal(n) =>
      RunOne(fpu, Num(n), rest, State(out, ops));
    case Paren(e') =>
      var inner := [RParen] + rest;
      assert Tokens(e) + rest == [LParen] + (Tokens(e') + inner);
      RunOne(fpu, LParen, Tokens(e') + inner, State(out, ops));
      Correct(fpu, e', 1, inner, out, ops + [LParen]);
      CloseGroup(fpu, rest, out, ops, e');
    case Binary(op, l, r) =>
      CorrectBinary(fpu, e, lvl, rest, out, ops);
    case Call(f, args) =>
      CorrectCall(fpu, e, rest, out, ops);
  }

  lemma CloseGroup(fpu: Fpu, rest: seq<Token>, out: seq<Item>, ops: seq<Token>, e: Expr)
    requires ops == [] || !Top(ops).Function?
    ensures forall v :: Run(fpu, [RParen] + rest, State(out + [Val(v)], ops + [LParen]))
                     == Run(fpu, rest, State(out + [Val(v)], ops))
  {
    forall v
      ensures Run(fpu, [RParen] + rest, State(out + [Val(v)], ops + [LParen]))
           == Run(fpu, rest, State(out + [Val(v)], ops))
    {
      var st, st' := State(out + [Val(v)], ops + [LParen]), State(out + [Val(v)], ops);
      CloseBracket(fpu, st, ops);
      RunStep(fpu, RParen, rest, st, st');
    }
  }

  lemma CloseBracket(fpu: Fpu, st: State, ops: seq<Token>)
    requires st.ops == ops + [LParen] && (ops == [] || !Top(ops).Function?)
    ensures Step(fpu, RParen, st) == Ok(st.(ops := ops))
  {
    assert !Drives(ToParen, st.ops);
    assert st.ops[..|st.ops| - 1] == ops;
  }

  lemma {:induction false} CorrectBinary(
    fpu: Fpu, e: Expr, lvl: nat, rest: seq<Token>, out: seq<Item>, ops: seq<Token>)
    requires e.Binary? && WellFormed(e) && 1 <= lvl <= Level(e)
    requires Holds(ops, lvl) && Ends(rest, lvl, ops)
    ensures Evaluates(fpu, e, rest, out, ops)
    decreases e, 0
  {
    var Binary(op, l, r) := e;
    var afterL := [Operator(op)] + (Tokens(r) + rest);
    assert Tokens(e) + rest == Tokens(l) + afterL;
    Correct(fpu, l, if op == Power then 4 else OpLevel(op), afterL, out, ops);
    if Placed(l, |out|) && Value(fpu, l).Some? {
      CorrectRight(fpu, op, r, Value(fpu, l).value, lvl, rest, out, ops);
    }
  }

  /** An operator and its right operand, when the value of the left one is on the stack. */
  lemma {:induction false} CorrectRight(
    fpu: Fpu, op: Op, r: Expr, a: number, lvl: nat, rest: seq<Token>, out: seq<Item>, ops: seq<Token>)
    requires WellFormed(r) && Level(r) >= (if op == Power then 3 else OpLevel(op) + 1)
    requires 1 <= lvl <= OpLevel(op) && Holds(ops, lvl) && Ends(rest, lvl, ops)
    ensures Run(fpu, [Operator(op)] + (Tokens(r) + rest), State(out + [Val(a)], ops)) ==
      if Placed(r, |out| + 1) && Value(fpu, r).Some?
      then (match ApplyRounded(fpu, op, a, Value(fpu, r).value)
            case None => Fault
            case Some(v) => Run(fpu, rest, State(out + [Val(v)], ops)))
      else Fault
    decreases r, 2
  {
    var inner := if op == Power then 3 else OpLevel(op) + 1;
    assert Holds(ops + [Operator(op)], inner) && Ends(rest, inner, ops + [Operator(op)]);
    PushOp(fpu, op, lvl, Tokens(r) + rest, out + [Val(a)], ops);
    Correct(fpu, r, inner, rest, out + [Val(a)], ops + [Operator(op)]);
    if Value(fpu, r).Some? {
      var b := Value(fpu, r).value;
      assert out + [Val(a)] + [Val(b)] == out + [Val(a), Val(b)];
      Reduce(fpu, op, a, b, out, ops, rest, lvl);
    }
  }

  lemma {:induction false} CorrectCall(
    fpu: Fpu, e: Expr, rest: seq<Token>, out: seq<Item>, ops: seq<Token>)
    requires e.Call? && WellFormed(e)
    requires Holds(ops, 4)
    ensures Evaluates(fpu, e, rest, out, ops)
    decreases e, 0
  {
    var Call(f, args) := e;
    var tail := [RParen] + rest;
    OpenCall(fpu, f, ArgTokens(args) + tail, out, ops);
    CallTokens(f, args, rest);
    CorrectArgs(fpu, args, tail, out + [Marker], ops + [Function(f)] + [LParen]);
    if ArgsPlaced(args, |out| + 1) && Values(fpu, args).Some? {
      CloseCall(fpu, f, Values(fpu, args).value, rest, out, ops);
    }
  }

  lemma PushOp(fpu: Fpu, op: Op, lvl: nat, rest: seq<Token>, out: seq<Item>, ops: seq<Token>)
    requires Holds(ops, lvl) && lvl <= OpLevel(op)
    ensures Run(fpu, [Operator(op)] + rest, State(out, ops)) == Run(fpu, rest, State(out, ops + [Operator(op)]))
  {
    assert !Drives(ForOperator(Operator(op)), ops);
    RunOne(fpu, Operator(op), rest, State(out, ops));
  }

  lemma OpenCall(fpu: Fpu, f: Func, rest: seq<Token>, out: seq<Item>, ops: seq<Token>)
    requires Holds(ops, 4)
    ensures Run(fpu, [Function(f)] + ([LParen] + rest), State(out, ops))
         == Run(fpu, rest, State(out + [Marker], ops + [Function(f)] + [LParen]))
  {
    var st, st' := State(out, ops + [Function(f)]), State(out + [Marker], ops + [Function(f)] + [LParen]);
    PushFunction(fpu, f, out, ops);
    RunStep(fpu, Function(f), [LParen] + rest, State(out, ops), st);
    OpenBracket(fpu, f, out, ops);
    RunStep(fpu, LParen, rest, st, st');
  }

  lemma PushFunction(fpu: Fpu, f: Func, out: seq<Item>, ops: seq<Token>)
    requires Holds(ops, 4)
    ensures Step(fpu, Function(f), State(out, ops)) == Ok(State(out, ops + [Function(f)]))
  {
    assert !Drives(ForFunction(Function(f)), ops);
  }

  lemma OpenBracket(fpu: Fpu, f: Func, out: seq<Item>, ops: seq<Token>)
    ensures Step(fpu, LParen, State(out, ops + [Function(f)]))
         == Ok(State(out + [Marker], ops + [Function(f)] + [LParen]))
  {
  }

  lemma RunStep(fpu: Fpu, t: Token, rest: seq<Token>, st: State, st': State)
    requires Step(fpu, t, st) == Ok(st')
    ensures Run(fpu, [t] + rest, st) == Run(fpu, rest, st')
  {
    RunOne(fpu, t, rest, st);
  }

  /** Arguments leave their values on the stack, in order. */
  lemma {:induction false} CorrectArgs(
    fpu: Fpu, args: Args, tail: seq<Token>, out: seq<Item>, ops: seq<Token>)
    requires ArgsWellFormed(args)
    requires tail != [] && tail[0] == RParen
    requires ops != [] && Top(ops) == LParen
    ensures Run(fpu, ArgTokens(args) + tail, State(out, ops)) ==
      if ArgsPlaced(args, |out|) && Values(fpu, args).Some?
      then Run(fpu, tail, State(out + Vals(Values(fpu, args).value), ops))
      else Fault
    decreases args, 0
  {
    var e := args.e;
    match args
    case Last(_) =>
      Correct(fpu, e, 1, tail, out, ops);
      if Value(fpu, e).Some? {
        assert [Val(Value(fpu, e).value)] == Vals([Value(fpu, e).value]);
      }
    case More(_, rest) =>
      var next := [Comma] + (ArgTokens(rest) + tail);
      assert ArgTokens(args) + tail == Tokens(e) + next;
      Correct(fpu, e, 1, next, out, ops);
      if Placed(e, |out|) && Value(fpu, e).Some? {
        var v := Value(fpu, e).value;
        NextArg(fpu, ArgTokens(rest) + tail, out + [Val(v)], ops);
        CorrectArgs(fpu, rest, tail, out + [Val(v)], ops);
        if Values(fpu, rest).Some? {
          ConsVals(v, Values(fpu, rest).value, out);
        }
      }
  }

  lemma NextArg(fpu: Fpu, rest: seq<Token>, out: seq<Item>, ops: seq<Token>)
    requires ops != [] && Top(ops) == LParen
    ensures Run(fpu, [Comma] + rest, State(out, ops)) == Run(fpu, rest, State(out, ops))
  {
    assert !Drives(ToParen, ops);
    RunOne(fpu, Comma, rest, State(out, ops));
  }

  lemma ConsVals(v: number, vs: seq<number>, out: seq<Item>)
    ensures out + [Val(v)] + Vals(vs) == out + Vals([v] + vs)
  {
  }

  /** A closing parenthesis after the arguments calls the function. */
  lemma CallTokens(f: Func, args: Args, rest: seq<Token>)
    ensures Tokens(Call(f, args)) + rest == [Function(f)] + ([LParen] + (ArgTokens(args) + ([RParen] + rest)))
  {
  }

  /** The closing bracket of a call has the call evaluated. */
  lemma CloseStep(fpu: Fpu, f: Func, all: seq<Item>, rest: seq<Token>, ops: seq<Token>)
    requires Holds(ops, 4)
    ensures Run(fpu, [RParen] + rest, State(all, ops + [Function(f)] + [LParen])) ==
      match DoFunc(fpu, all, f)
      case Ok(out') => Run(fpu, rest, State(out', ops))
      case Fault => Fault
      case Crash => Crash
  {
    var st := State(all, ops + [Function(f)] + [LParen]);
    RunOne(fpu, RParen, rest, st);
    assert !Drives(ToParen, st.ops);
    assert st.ops[..|st.ops| - 1] == ops + [Function(f)];
    EvalCall(fpu, f, all, ops);
  }

  lemma CallResult(fpu: Fpu, f: Func, vs: seq<number>, out: seq<Item>)
    requires vs != []
    ensures DoFunc(fpu, out + [Marker] + Vals(vs), f) ==
      if (f.Unary? ==> out == []) && CallValue(fpu, f, vs).Some? then Ok(out + [Val(CallValue(fpu, f, vs).value)])
      else Fault
  {
    if f.Unary? {
      UnaryResult(fpu, f, vs, out);
    } else {
      AggregateResult(fpu, f, vs, out);
    }
  }

  lemma CloseCall(fpu: Fpu, f: Func, vs: seq<number>, rest: seq<Token>, out: seq<Item>, ops: seq<Token>)
    requires vs != [] && Holds(ops, 4)
    ensures Run(fpu, [RParen] + rest, State(out + [Marker] + Vals(vs), ops + [Function(f)] + [LParen])) ==
      if (f.Unary? ==> out == []) && CallValue(fpu, f, vs).Some?
      then Run(fpu, rest, State(out + [Val(CallValue(fpu, f, vs).value)], ops))
      else Fault
  {
    CloseStep(fpu, f, out + [Marker] + Vals(vs), rest, ops);
    CallResult(fpu, f, vs, out);
  }

  lemma EvalCall(fpu: Fpu, f: Func, out: seq<Item>, ops: seq<Token>)
    requires Holds(ops, 4)
    ensures PopWhile(fpu, Calls, State(out, ops + [Function(f)])) ==
      match DoFunc(fpu, out, f)
      case Ok(out') => Ok(State(out', ops))
      case Fault => Fault
      case Crash => Crash
  {
    var st := State(out, ops + [Function(f)]);
    assert !Drives(Calls, ops);
    assert st.ops[..|st.ops| - 1] == ops && Top(st.ops) == Function(f);
    PopTop(fpu, st, Calls, ops, Function(f));
  }

  /** The loop stops behind one token. */
  lemma PopTop(fpu: Fpu, st: State, d: Drive, ops: seq<Token>, t: Token)
    requires st.ops != [] && st.ops[..|st.ops| - 1] == ops && Top(st.ops) == t && Drives(d, st.ops) && !Drives(d, ops)
    ensures PopWhile(fpu, d, st) ==
      match EvalPush(fpu, st.out, t)
      case Ok(out') => Ok(State(out', ops))
      case Fault => Fault
      case Crash => Crash
  {
  }

  lemma UnaryResult(fpu: Fpu, f: Func, vs: seq<number>, out: seq<Item>)
    requires vs != [] && f.Unary?
    ensures DoFunc(fpu, out + [Marker] + Vals(vs), f) ==
      if out == [] && |vs| == 1 then Ok([Val(fpu.round(fpu.unary(f.name, vs[0])))]) else Fault
  {
    var all := out + [Marker] + Vals(vs);
    var rest := all[..|all| - 1];
    if out == [] && |vs| == 1 {
      assert all == [Marker, Val(vs[0])];
      assert rest == [Marker] && rest[..|rest| - 0] == rest;
      var result := [Val(fpu.round(fpu.unary(f.name, vs[0])))];
      assert rest[..|rest| - 1] + result == result;
    }
  }

  lemma AggregateResult(fpu: Fpu, f: Func, vs: seq<number>, out: seq<Item>)
    requires vs != [] && !f.Unary?
    ensures DoFunc(fpu, out + [Marker] + Vals(vs), f) ==
      Ok(out + [Val(fpu.round(Aggregate(fpu, f, Reverse(vs))))])
  {
    InputsAbove(out, vs);
    CallConsumes(fpu, f, out + [Marker] + Vals(vs), |vs| - 1);
    ConsumeArgs(fpu, f, vs, out);
  }

  lemma CallConsumes(fpu: Fpu, f: Func, all: seq<Item>, more: nat)
    requires !f.Unary? && |all| >= 2 && AboveMarker(all[..|all| - 1]) == more
    ensures DoFunc(fpu, all, f) == Consume(fpu, all, f, more)
  {
  }

  lemma InputsAbove(out: seq<Item>, vs: seq<number>)
    requires vs != []
    ensures var all := out + [Marker] + Vals(vs); |all| >= 2 && AboveMarker(all[..|all| - 1]) == |vs| - 1
  {
    var all := out + [Marker] + Vals(vs);
    assert all[..|all| - 1] == out + [Marker] + Vals(vs[..|vs| - 1]);
    AboveMarkerIs(out, vs[..|vs| - 1]);
  }

  lemma ConsumeArgs(fpu: Fpu, f: Func, vs: seq<number>, out: seq<Item>)
    requires vs != [] && !f.Unary?
    ensures Consume(fpu, out + [Marker] + Vals(vs), f, |vs| - 1) ==
      Ok(out + [Val(fpu.round(Aggregate(fpu, f, Reverse(vs))))])
  {
    var all, kept := out + [Marker] + Vals(vs), |out| + 1;
    assert |all| - 1 - (|vs| - 1) == kept;
    assert Popped(fpu, all[kept..]) == Reverse(vs) by {
      assert all[kept..] == Vals(vs);
      PoppedVals(fpu, vs);
    }
    PutAtMarker(out, Vals(vs), fpu.round(Aggregate(fpu, f, Reverse(vs))));
  }

  lemma PoppedVals(fpu: Fpu, vs: seq<number>)
    ensures Popped(fpu, Vals(vs)) == Reverse(vs)
  {
  }

  lemma PutAtMarker(out: seq<Item>, above: seq<Item>, result: number)
    ensures PutResult((out + [Marker] + above)[..|out| + 1], result) == Ok(out + [Val(result)])
  {
    assert (out + [Marker] + above)[..|out| + 1] == out + [Marker];
    assert (out + [Marker])[..|out|] == out;
  }

  lemma {:induction false} AboveMarkerIs(out: seq<Item>, vs: seq<number>)
    ensures AboveMarker(out + [Marker] + Vals(vs)) == |vs|
  {
    var all := out + [Marker] + Vals(vs);
    if vs != [] {
      AboveMarkerIs(out, vs[..|vs| - 1]);
      assert all[..|all| - 1] == out + [Marker] + Vals(vs[..|vs| - 1]);
    }
  }

  /**
   The main theorem: for every tree of the grammar the calculator leaves exactly
   the value of the tree, and it fails exactly when the tree has no value or
   calls a one-argument function where something else is on the stack.
   */
  lemma CalculatorIsCorrect(fpu: Fpu, e: Expr)
    requires WellFormed(e)
    ensures Run(fpu, Tokens(e), State([], [])) ==
      if Placed(e, 0) && Value(fpu, e).Some? then Ok([Val(Value(fpu, e).value)]) else Fault
  {
    Correct(fpu, e, 1, [], [], []);
    assert Tokens(e) + [] == Tokens(e);
    if Value(fpu, e).Some? {
      assert [] + [Val(Value(fpu, e).value)] == [Val(Value(fpu, e).value)];
    }
  }

  predicate NoUnary(e: Expr) {
    match e
    case Literal(_) => true
    case Paren(e') => NoUnary(e')
    case Binary(_, l, r) => NoUnary(l) && NoUnary(r)
    case Call(f, args) => !f.Unary? && ArgsNoUnary(args)
  }

  predicate ArgsNoUnary(args: Args) {
    NoUnary(args.e) && (args.More? ==> ArgsNoUnary(args.rest))
  }

  /** Some / or % in the tree has a right operand that is zero. */
  predicate ZeroDivisor(fpu: Fpu, e: Expr) {
    match e
    case Literal(_) => false
    case Paren(e') => ZeroDivisor(fpu, e')
    case Binary(op, l, r) =>
      || ZeroDivisor(fpu, l)
      || ZeroDivisor(fpu, r)
      || ((op == Divide || op == Modulo) && Value(fpu, r).Some? && fpu.isZero(Value(fpu, r).value))
    case Call(_, args) => ArgsZeroDivisor(fpu, args)
  }

  predicate ArgsZeroDivisor(fpu: Fpu, args: Args) {
    ZeroDivisor(fpu, args.e) || (args.More? && ArgsZeroDivisor(fpu, args.rest))
  }

  lemma {:induction false} NoValueMeansZeroDivisor(fpu: Fpu, e: Expr, below: nat)
    requires NoUnary(e)
    ensures Value(fpu, e) == None <==> ZeroDivisor(fpu, e)
    ensures Placed(e, below)
    decreases e
  {
    match e
    case Literal(_) =>
    case Paren(e') => NoValueMeansZeroDivisor(fpu, e', below);
    case Binary(op, l, r) =>
      NoValueMeansZeroDivisor(fpu, l, below);
      NoValueMeansZeroDivisor(fpu, r, below + 1);
    case Call(f, args) => ArgsNoValueMeansZeroDivisor(fpu, args, below + 1);
  }

  lemma {:induction false} ArgsNoValueMeansZeroDivisor(fpu: Fpu, args: Args, below: nat)
    requires ArgsNoUnary(args)
    ensures Values(fpu, args) == None <==> ArgsZeroDivisor(fpu, args)
    ensures ArgsPlaced(args, below)
    decreases args
  {
    NoValueMeansZeroDivisor(fpu, args.e, below);
    if args.More? {
      ArgsNoValueMeansZeroDivisor(fpu, args.rest, below + 1);
    }
  }

  /** Without one-argument functions, division by zero is the only way to fail. */
  lemma FailsOnlyOnZeroDivisor(fpu: Fpu, e: Expr)
    requires WellFormed(e) && NoUnary(e)
    ensures Run(fpu, Tokens(e), State([], [])) == Fault <==> ZeroDivisor(fpu, e)
    ensures !ZeroDivisor(fpu, e) ==>
      Value(fpu, e).Some? && Run(fpu, Tokens(e), State([], [])) == Ok([Val(Value(fpu, e).value)])
  {
    CalculatorIsCorrect(fpu, e);
    NoValueMeansZeroDivisor(fpu, e, 0);
  }

  /** n1 + abs(n2) has a value, and abs(n2) + n1 is computed, but n1 + abs(n2) is refused. */
  lemma UnaryOnTheRightFails(fpu: Fpu, n1: number, n2: number)
    ensures var abs := Call(Unary("abs"), Last(Literal(n2)));
      var sum, sum' := Binary(Plus, Literal(n1), abs), Binary(Plus, abs, Literal(n1));
      && WellFormed(sum) && WellFormed(sum')
      && Value(fpu, sum).Some? && Run(fpu, Tokens(sum), State([], [])) == Fault
      && Value(fpu, sum').Some? && Run(fpu, Tokens(sum'), State([], [])) == Ok([Val(Value(fpu, sum').value)])
  {
    var arg := Last(Literal(n2));
    var abs := Call(Unary("abs"), arg);
    assert ArgsWellFormed(arg) && WellFormed(abs);
    assert Values(fpu, arg) == Some([n2]) && ArgsPlaced(arg, 1);
    CalculatorIsCorrect(fpu, Binary(Plus, Literal(n1), abs));
    CalculatorIsCorrect(fpu, Binary(Plus, abs, Literal(n1)));
  }

  // ----- what the aggregates mean

  /** The order that comparing floating-point numbers other than "not a number" gives. */
  ghost predicate IsOrder(less: (number, number) -> bool) {
    && (forall a, b :: less(a, b) ==> !less(b, a))
    && (forall a, b, c :: less(a, b) ==> less(a, c) || less(c, b))
  }

  ghost predicate Ascending(less: (number, number) -> bool, s: seq<number>) {
    forall i, j :: 0 <= i < j < |s| ==> !less(s[j], s[i])
  }

  lemma {:induction false} InsertKeepsElements(less: (number, number) -> bool, n: number, s: seq<number>)
    ensures multiset(InsertSorted(less, n, s)) == multiset(s) + multiset{n}
    ensures forall x :: x in InsertSorted(less, n, s) ==> x == n || x in s
  {
    if s != [] && less(s[0], n) {
      InsertKeepsElements(less, n, s[1..]);
      assert s == [s[0]] + s[1..];
    }
  }

  lemma {:induction false} InsertKeepsOrder(less: (number, number) -> bool, n: number, s: seq<number>)
    requires IsOrder(less) && Ascending(less, s)
    ensures Ascending(less, InsertSorted(less, n, s))
  {
    if s != [] && less(s[0], n) {
      InsertKeepsOrder(less, n, s[1..]);
      InsertKeepsElements(less, n, s[1..]);
      var rest := InsertSorted(less, n, s[1..]);
      forall x | x in rest
        ensures !less(x, s[0])
      {
        if x != n {
          var j :| 0 <= j < |s[1..]| && s[1..][j] == x;
          assert s[j + 1] == x;
        }
      }
    }
  }

  lemma {:induction false} InsertAllSorts(less: (number, number) -> bool, s: seq<number>, rest: seq<number>)
    requires IsOrder(less) && Ascending(less, s)
    ensures Ascending(less, InsertAll(less, s, rest))
    ensures multiset(InsertAll(less, s, rest)) == multiset(s) + multiset(rest)
    decreases rest
  {
    if rest != [] {
      InsertKeepsOrder(less, rest[0], s);
      InsertKeepsElements(less, rest[0], s);
      InsertAllSorts(less, InsertSorted(less, rest[0], s), rest[1..]);
      assert rest == [rest[0]] + rest[1..];
    }
  }

  /** The median of n arguments is the ceil(n/2)-th smallest of them. */
  lemma MedianIsMiddle(fpu: Fpu, args: seq<number>) returns (sorted: seq<number>)
    requires IsOrder(fpu.less) && args != []
    ensures multiset(sorted) == multiset(args) && Ascending(fpu.less, sorted)
    ensures |sorted| == |args| && MedianOf(fpu, args) == sorted[(|args| + 1) / 2 - 1]
  {
    sorted := InsertAll(fpu.less, [args[0]], args[1..]);
    InsertAllSorts(fpu.less, [args[0]], args[1..]);
    InsertAllLength(fpu.less, [args[0]], args[1..]);
    assert args == [args[0]] + args[1..];
  }

  /** The minimum is an argument that no argument is less than; dually the maximum. */
  lemma {:induction false} ExtremesAreExtreme(fpu: Fpu, best: number, rest: seq<number>)
    requires IsOrder(fpu.less)
    ensures Least(fpu, best, rest) in [best] + rest
    ensures forall x :: x in [best] + rest ==> !fpu.less(x, Least(fpu, best, rest))
    ensures Greatest(fpu, best, rest) in [best] + rest
    ensures forall x :: x in [best] + rest ==> !fpu.less(Greatest(fpu, best, rest), x)
    decreases rest
  {
    if rest != [] {
      var low := if fpu.less(rest[0], best) then rest[0] else best;
      var high := if fpu.less(best, rest[0]) then rest[0] else best;
      ExtremesAreExtreme(fpu, low, rest[1..]);
      ExtremesAreExtreme(fpu, high, rest[1..]);
      assert rest == [rest[0]] + rest[1..];
      assert low in [low] + rest[1..] && high in [high] + rest[1..];
      forall x | x in [best] + rest
        ensures !fpu.less(x, Least(fpu, best, rest)) && !fpu.less(Greatest(fpu, best, rest), x)
      {
        if x in rest[1..] {
          assert x in [low] + rest[1..] && x in [high] + rest[1..];
        }
      }
    }
  }
}
