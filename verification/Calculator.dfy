/**
 The expression calculator of src/calculator.c, from the token list on: an
 operator-precedence parser that evaluates while it converts to postfix.

 Arithmetic on numbers is a parameter; in particular rounding, which every intermediate result goes through when it is
 printed to a token and read back, is an arbitrary function.
 */
module Calculator {
  import opened Wrappers

  /** A double: a quotient, its denominator less one, or one of the values that are no numbers. */
  datatype number = Finite(numerator: int, denominator: nat) | Special(code: nat)

  datatype Op = Plus | Minus | Times | Divide | Modulo | Power

  /** Functions of any number of arguments, and functions of one. */
  datatype Func = Min | Max | Sum | Avg | Mean | Median | Var | Unary(name: string)

  datatype Token =
    | Num(n: number)
    | Operator(op: Op)
    | LParen
    | RParen
    | Function(f: Func)
    | Comma
    | Identifier(name: string)

  datatype Symbol = addop | multop | expop | lparen | rparen | value | function_ | identifier | argsep

  /** What lies on the output stack: numbers, markers, and operators without operands. */
  datatype Item = Val(n: number) | Marker | Stray(op: Op)

  /** Floating-point arithmetic, left open. */
  datatype Fpu = Fpu(
    add: (number, number) -> number,
    sub: (number, number) -> number,
    mul: (number, number) -> number,
    div: (number, number) -> number,
    pow: (number, number) -> number,
    toInt: number -> number,
    isZero: number -> bool,
    less: (number, number) -> bool,
    ofInt: nat -> number,
    round: number -> number,
    unary: (string, number) -> number)

  function TokenType(t: Token): Symbol {
    match t
    case Num(_) => value
    case Operator(Plus) => addop
    case Operator(Minus) => addop
    case Operator(Power) => expop
    case Operator(_) => multop
    case LParen => lparen
    case RParen => rparen
    case Function(_) => function_
    case Comma => argsep
    case Identifier(_) => identifier
  }

  predicate LeftAssoc(t: Token) {
    TokenType(t) == addop || TokenType(t) == multop
  }

  /** Negative, zero or positive: the first token binds less, equally or more tightly. */
  function Precedence(t1: Token, t2: Token): int {
    var s1, s2 := TokenType(t1), TokenType(t2);
    if s1 == s2 then 0
    else if s1 == addop && (s2 == multop || s2 == expop) then -1
    else if s2 == addop && (s1 == multop || s1 == expop) then 1
    else if s1 == multop && s2 == expop then -1
    else if s1 == expop && s2 == multop then 1
    else if s1 == function_ && (s2 == addop || s2 == multop || s2 == expop || s2 == lparen) then 1
    else if (s1 == addop || s1 == multop || s1 == expop) && s2 == function_ then -1
    else 0
  }

  predicate IsOperator(t: Token) {
    TokenType(t) == addop || TokenType(t) == multop || TokenType(t) == expop
  }

  /** The result of an evaluation step; Crash stands for a NULL dereference. */
  datatype Result<+T> = Ok(value: T) | Fault | Crash

  /** The number a stack item is read as; strtod gives 0 for what is no number. */
  function NumberOf(fpu: Fpu, item: Item): number {
    match item
    case Val(n) => n
    case Marker => fpu.ofInt(0)
    case Stray(_) => fpu.ofInt(0)
  }

  // ----- operators

  function Apply(fpu: Fpu, op: Op, l: number, r: number): Option<number> {
    match op
    case Plus => Some(fpu.add(l, r))
    case Minus => Some(fpu.sub(l, r))
    case Times => Some(fpu.mul(l, r))
    case Power => Some(fpu.pow(l, r))
    case Divide => if fpu.isZero(r) then None else Some(fpu.div(l, r))
    case Modulo =>
      if fpu.isZero(r) then None
      else Some(fpu.sub(l, fpu.mul(fpu.toInt(fpu.div(l, r)), r)))
  }

  function ApplyRounded(fpu: Fpu, op: Op, l: number, r: number): Option<number> {
    match Apply(fpu, op, l, r)
    case None => None
    case Some(n) => Some(fpu.round(n))
  }

  // ----- functions; arguments are listed from the top of the stack down

  function Least(fpu: Fpu, best: number, rest: seq<number>): number
    decreases rest
  {
    if rest == [] then best
    else Least(fpu, if fpu.less(rest[0], best) then rest[0] else best, rest[1..])
  }

  function Greatest(fpu: Fpu, best: number, rest: seq<number>): number
    decreases rest
  {
    if rest == [] then best
    else Greatest(fpu, if fpu.less(best, rest[0]) then rest[0] else best, rest[1..])
  }

  function Total(fpu: Fpu, acc: number, rest: seq<number>): number
    decreases rest
  {
    if rest == [] then acc else Total(fpu, fpu.add(acc, rest[0]), rest[1..])
  }

  function Average(fpu: Fpu, args: seq<number>): number
    requires args != []
  {
    fpu.div(Total(fpu, args[0], args[1..]), fpu.ofInt(|args|))
  }

  /** Squared distances, summed from the last argument back to the first. */
  function Squares(fpu: Fpu, mean: number, acc: number, args: seq<number>): number
    decreases args
  {
    if args == [] then acc
    else
      var last := |args| - 1;
      Squares(fpu, mean, fpu.add(acc, fpu.pow(fpu.sub(args[last], mean), fpu.ofInt(2))), args[..last])
  }

  function VarianceOf(fpu: Fpu, args: seq<number>): number
    requires args != []
  {
    fpu.div(Squares(fpu, Average(fpu, args), fpu.ofInt(0), args), fpu.ofInt(|args|))
  }

  /** Insertion before the first element that is not less. */
  function InsertSorted(less: (number, number) -> bool, n: number, s: seq<number>): seq<number> {
    if s != [] && less(s[0], n) then [s[0]] + InsertSorted(less, n, s[1..]) else [n] + s
  }

  function InsertAll(less: (number, number) -> bool, s: seq<number>, rest: seq<number>): seq<number>
    decreases rest
  {
    if rest == [] then s else InsertAll(less, InsertSorted(less, rest[0], s), rest[1..])
  }

  lemma InsertAllLength(less: (number, number) -> bool, s: seq<number>, rest: seq<number>)
    ensures |InsertAll(less, s, rest)| == |s| + |rest|
    decreases rest
  {
    if rest != [] {
      InsertLength(less, rest[0], s);
      InsertAllLength(less, InsertSorted(less, rest[0], s), rest[1..]);
    }
  }

  lemma InsertLength(less: (number, number) -> bool, n: number, s: seq<number>)
    ensures |InsertSorted(less, n, s)| == |s| + 1
  {
  }

  function MedianOf(fpu: Fpu, args: seq<number>): number
    requires args != []
  {
    InsertAllLength(fpu.less, [args[0]], args[1..]);
    InsertAll(fpu.less, [args[0]], args[1..])[(|args| + 1) / 2 - 1]
  }

  function Aggregate(fpu: Fpu, f: Func, args: seq<number>): number
    requires args != [] && !f.Unary?
  {
    match f
    case Min => Least(fpu, args[0], args[1..])
    case Max => Greatest(fpu, args[0], args[1..])
    case Sum => Total(fpu, args[0], args[1..])
    case Avg => Average(fpu, args)
    case Mean => Average(fpu, args)
    case Median => MedianOf(fpu, args)
    case Var => VarianceOf(fpu, args)
  }

  // ----- the stack machine

  /** How many items lie above the topmost marker. */
  function AboveMarker(out: seq<Item>): (n: nat)
    ensures n <= |out|
    ensures forall i :: |out| - n <= i < |out| ==> out[i] != Marker
    ensures n < |out| ==> out[|out| - n - 1] == Marker
  {
    if out == [] || out[|out| - 1] == Marker then 0 else 1 + AboveMarker(out[..|out| - 1])
  }

  /** The numbers of the items, from the top of the stack down. */
  function Popped(fpu: Fpu, items: seq<Item>): (s: seq<number>)
    ensures |s| == |items|
    ensures forall i :: 0 <= i < |s| ==> s[i] == NumberOf(fpu, items[|items| - 1 - i])
  {
    if items == [] then []
    else [NumberOf(fpu, items[|items| - 1])] + Popped(fpu, items[..|items| - 1])
  }

  /** A result takes the place of the marker, if the marker is on top. */
  function PutResult(kept: seq<Item>, result: number): Result<seq<Item>> {
    if kept == [] then Crash
    else if kept[|kept| - 1] == Marker then Ok(kept[..|kept| - 1] + [Val(result)])
    else Ok(kept + [Val(result)])
  }

  /** A call that takes its first input and `more` further items off the stack. */
  function Consume(fpu: Fpu, out: seq<Item>, f: Func, more: nat): Result<seq<Item>>
    requires more < |out|
  {
    var kept := |out| - 1 - more;
    var args := Popped(fpu, out[kept..]);
    var result := if f.Unary? then fpu.unary(f.name, args[0]) else Aggregate(fpu, f, args);
    PutResult(out[..kept], fpu.round(result))
  }

  function DoFunc(fpu: Fpu, out: seq<Item>, f: Func): Result<seq<Item>> {
    var n := |out|;
    if n == 0 || out == [Marker] || (n > 2 && f.Unary?) then Fault
    else Consume(fpu, out, f, if f.Unary? then 0 else AboveMarker(out[..n - 1]))
  }

  function EvalPush(fpu: Fpu, out: seq<Item>, t: Token): Result<seq<Item>> {
    match t
    case Function(f) => DoFunc(fpu, out, f)
    case Operator(op) =>
      var n := |out|;
      if n < 2 then Ok(out + [Stray(op)])
      else
        (match ApplyRounded(fpu, op, NumberOf(fpu, out[n - 2]), NumberOf(fpu, out[n - 1]))
         case None => Fault
         case Some(v) => Ok(out[..n - 2] + [Val(v)]))
    case Num(v) => Ok(out + [Val(v)])
    case _ => Ok(out)
  }

  /** Output stack and operator stack. */
  datatype State = State(out: seq<Item>, ops: seq<Token>)

  /** Moves the top operator to the output. */
  function EvalTop(fpu: Fpu, st: State): Result<State>
    requires st.ops != []
  {
    var n := |st.ops|;
    match EvalPush(fpu, st.out, st.ops[n - 1])
    case Fault => Fault
    case Crash => Crash
    case Ok(out) => Ok(State(out, st.ops[..n - 1]))
  }

  /** Which operators an incoming token drives from the operator stack. */
  datatype Drive = ForOperator(t: Token) | ForFunction(t: Token) | ToParen | Calls | All

  predicate Drives(d: Drive, ops: seq<Token>) {
    && ops != []
    && var top := ops[|ops| - 1];
       match d
       case ForOperator(t) =>
         IsOperator(top) && (if LeftAssoc(t) then Precedence(t, top) <= 0 else Precedence(t, top) < 0)
       case ForFunction(t) => Precedence(t, top) <= 0
       case ToParen => top != LParen && |ops| > 1
       case Calls => top.Function?
       case All => true
  }

  function PopWhile(fpu: Fpu, d: Drive, st: State): (r: Result<State>)
    ensures r.Ok? ==> !Drives(d, r.value.ops) && r.value.ops <= st.ops
    decreases |st.ops|
  {
    if !Drives(d, st.ops) then Ok(st)
    else
      match EvalTop(fpu, st)
      case Fault => Fault
      case Crash => Crash
      case Ok(st') => PopWhile(fpu, d, st')
  }

  function PushOperator(r: Result<State>, t: Token): Result<State> {
    match r
    case Ok(st) => Ok(st.(ops := st.ops + [t]))
    case Fault => Fault
    case Crash => Crash
  }

  function CloseParen(fpu: Fpu, st: State): Result<State> {
    match PopWhile(fpu, ToParen, st)
    case Fault => Fault
    case Crash => Crash
    case Ok(st') =>
      var n := |st'.ops|;
      if n > 0 && st'.ops[n - 1] != LParen then Fault
      else PopWhile(fpu, Calls, st'.(ops := if n > 0 then st'.ops[..n - 1] else []))
  }

  function Step(fpu: Fpu, t: Token, st: State): Result<State> {
    match t
    case Num(v) => Ok(st.(out := st.out + [Val(v)]))
    case Function(_) => PushOperator(PopWhile(fpu, ForFunction(t), st), t)
    case Comma => PopWhile(fpu, ToParen, st)
    case Operator(_) => PushOperator(PopWhile(fpu, ForOperator(t), st), t)
    case LParen =>
      var n := |st.ops|;
      if n > 0 && st.ops[n - 1].Function?
      then Ok(State(st.out + [Marker], st.ops + [t]))
      else Ok(st.(ops := st.ops + [t]))
    case RParen => CloseParen(fpu, st)
    case Identifier(_) => Ok(st)
  }

  /** The whole run: all tokens, then all operators that are left. */
  function Run(fpu: Fpu, tokens: seq<Token>, st: State): Result<seq<Item>> {
    if tokens == [] then
      (match PopWhile(fpu, All, st)
       case Ok(st') => Ok(st'.out)
       case Fault => Fault
       case Crash => Crash)
    else
      match Step(fpu, tokens[0], st)
      case Ok(st') => Run(fpu, tokens[1..], st')
      case Fault => Fault
      case Crash => Crash
  }
}
