/**
 The calculator as it runs: postfix, evalStackPush, doOp and doFunc of
 src/calculator.c on bounded stacks. Each method is proved to do what the
 machine of module Calculator does. The bounded stacks never overflow, for any
 list of tokens.
 */
module Postfix {
  import opened BoundedStack
  import opened Calculator
  import opened Wrappers

  const EFAULT := 14

  /** How a run of the source ends: with 0 or -EFAULT, or not at all. */
  datatype Exit = Done(err: int) | Crashed

  /** The outcome of a step in the machine, as the source reports it. */
  ghost predicate Reports<T>(exit: Exit, r: Result<T>) {
    match r
    case Ok(_) => exit == Done(0)
    case Fault => exit == Done(-EFAULT)
    case Crash => exit == Crashed
  }

  // ----- capacity

  /** Parentheses never reach the output; every other operator may, as one item. */
  function Pending(ops: seq<Token>): (n: nat)
    ensures n <= |ops|
  {
    if ops == [] then 0
    else Pending(ops[..|ops| - 1]) + (if ops[|ops| - 1] == LParen then 0 else 1)
  }

  lemma PendingPush(ops: seq<Token>, t: Token)
    ensures Pending(ops + [t]) == Pending(ops) + (if t == LParen then 0 else 1)
  {
    assert (ops + [t])[..|ops|] == ops;
  }

  /** The items that are or may come on the output stack. */
  function Load(st: State): nat {
    |st.out| + Pending(st.ops)
  }

  lemma EvalPushLoad(fpu: Fpu, out: seq<Item>, t: Token)
    ensures EvalPush(fpu, out, t).Ok? ==>
      |EvalPush(fpu, out, t).value| <= |out| + (if t == LParen then 0 else 1)
  {
  }

  lemma EvalTopLoad(fpu: Fpu, st: State)
    requires st.ops != []
    ensures EvalTop(fpu, st).Ok? ==>
      Load(EvalTop(fpu, st).value) <= Load(st) && |EvalTop(fpu, st).value.ops| < |st.ops|
  {
    EvalPushLoad(fpu, st.out, st.ops[|st.ops| - 1]);
  }

  lemma {:induction false} PopWhileLoad(fpu: Fpu, d: Drive, st: State)
    ensures PopWhile(fpu, d, st).Ok? ==> Load(PopWhile(fpu, d, st).value) <= Load(st)
    decreases |st.ops|
  {
    if Drives(d, st.ops) && EvalTop(fpu, st).Ok? {
      EvalTopLoad(fpu, st);
      PopWhileLoad(fpu, d, EvalTop(fpu, st).value);
    }
  }

  /** A token adds at most one to the load and to the operator stack. */
  lemma StepLoad(fpu: Fpu, t: Token, st: State)
    ensures Step(fpu, t, st).Ok? ==>
      Load(Step(fpu, t, st).value) <= Load(st) + 1 && |Step(fpu, t, st).value.ops| <= |st.ops| + 1
  {
    match t
    case Num(_) =>
    case Identifier(_) =>
    case LParen => PendingPush(st.ops, t);
    case Comma => PopWhileLoad(fpu, ToParen, st);
    case RParen =>
      PopWhileLoad(fpu, ToParen, st);
      if PopWhile(fpu, ToParen, st).Ok? {
        var st' := PopWhile(fpu, ToParen, st).value;
        var n := |st'.ops|;
        PopWhileLoad(fpu, Calls, st'.(ops := if n > 0 then st'.ops[..n - 1] else []));
      }
    case Function(_) =>
      PopWhileLoad(fpu, ForFunction(t), st);
      if PopWhile(fpu, ForFunction(t), st).Ok? {
        PendingPush(PopWhile(fpu, ForFunction(t), st).value.ops, t);
      }
    case Operator(_) =>
      PopWhileLoad(fpu, ForOperator(t), st);
      if PopWhile(fpu, ForOperator(t), st).Ok? {
        PendingPush(PopWhile(fpu, ForOperator(t), st).value.ops, t);
      }
  }

  /** The state after the first i tokens. */
  function RunPrefix(fpu: Fpu, tokens: seq<Token>, i: nat): Result<State>
    requires i <= |tokens|
  {
    if i == 0 then Ok(State([], []))
    else
      match RunPrefix(fpu, tokens, i - 1)
      case Ok(st) => Step(fpu, tokens[i - 1], st)
      case Fault => Fault
      case Crash => Crash
  }

  /**
   For any token list at all: after i tokens, output items and operators that
   may still become output items are at most i together, and so are the
   operators. Stacks with room for one item per token therefore never overflow.
   */
  lemma {:induction false} NeverOverflows(fpu: Fpu, tokens: seq<Token>, i: nat)
    requires i <= |tokens| && RunPrefix(fpu, tokens, i).Ok?
    ensures Load(RunPrefix(fpu, tokens, i).value) <= i
    ensures |RunPrefix(fpu, tokens, i).value.ops| <= i
  {
    if i > 0 {
      NeverOverflows(fpu, tokens, i - 1);
      StepLoad(fpu, tokens[i - 1], RunPrefix(fpu, tokens, i - 1).value);
    }
  }

  /** Running from the state after i tokens is running all tokens. */
  lemma {:induction false} RunFromPrefix(fpu: Fpu, tokens: seq<Token>, i: nat)
    requires i <= |tokens|
    ensures Run(fpu, tokens, State([], [])) ==
      match RunPrefix(fpu, tokens, i)
      case Ok(st) => Run(fpu, tokens[i..], st)
      case Fault => Fault
      case Crash => Crash
  {
    if i > 0 {
      RunFromPrefix(fpu, tokens, i - 1);
      assert tokens[i - 1..][1..] == tokens[i..];
    } else {
      assert tokens[0..] == tokens;
    }
  }

  // ----- the methods

  /** doOp: takes two operands off and pushes the rounded result; on a zero divisor it pushes what it has and fails. */
  method DoOp(fpu: Fpu, nan: number, inf: number, s: Stack<Item>, op: Op) returns (err: int)
    requires s.Valid() && |s.Items()| >= 2
    modifies s`top, s.content
    ensures s.Valid()
    ensures match EvalPush(fpu, old(s.Items()), Operator(op))
            case Ok(out) => err == 0 && s.Items() == out
            case _ => err == -EFAULT
  {
    err := 0;
    var roperand := s.Pop();
    var loperand := s.Pop();
    assert old(s.Items()) == s.Items() + [loperand.value] + [roperand.value];
    ghost var rest := s.Items();
    ghost var was := old(s.Items());
    assert was[..|rest|] == rest && was[|rest|] == loperand.value && was[|rest| + 1] == roperand.value;
    var lside, rside := NumberOf(fpu, loperand.value), NumberOf(fpu, roperand.value);
    var ret;
    match op {
      case Power => ret := fpu.pow(lside, rside);
      case Times => ret := fpu.mul(lside, rside);
      case Divide =>
        if fpu.isZero(rside) {
          ret := if fpu.isZero(lside) then nan else inf;
          err := -EFAULT;
        } else {
          ret := fpu.div(lside, rside);
        }
      case Modulo =>
        if fpu.isZero(rside) {
          ret := if fpu.isZero(lside) then nan else inf;
          err := -EFAULT;
        } else {
          ret := fpu.toInt(fpu.div(lside, rside));
          ret := fpu.sub(lside, fpu.mul(ret, rside));
        }
      case Plus => ret := fpu.add(lside, rside);
      case Minus => ret := fpu.sub(lside, rside);
    }
    assert s.Items() == rest;
    var pushed := s.Push(Some(Val(fpu.round(ret))));
    assert was[..|was| - 2] == rest;
  }

  /** The items above the topmost marker are read as args, the top first. */
  ghost predicate AreInputs(fpu: Fpu, items: seq<Item>, args: seq<number>) {
    && |args| <= |items|
    && (forall i :: 0 <= i < |args| ==>
          items[|items| - 1 - i] != Marker && NumberOf(fpu, items[|items| - 1 - i]) == args[i])
    && (|args| < |items| ==> items[|items| - 1 - |args|] == Marker)
  }

  /** k inputs have been taken off the stack. */
  ghost predicate Taken(s: Stack<Item>, was: seq<Item>, k: nat)
    reads s, s.content
  {
    s.Valid() && k <= |was| && s.Items() == was[..|was| - k]
  }

  /** The test of the aggregation loops: is there an input on top of the stack? */
  method InputOnTop(fpu: Fpu, s: Stack<Item>, ghost was: seq<Item>, ghost args: seq<number>, ghost k: nat)
    returns (more: bool)
    requires AreInputs(fpu, was, args) && k <= |args| && Taken(s, was, k)
    ensures more <==> k < |args|
  {
    assert k < |args| ==> NumberOf(fpu, was[|was| - 1 - k]) == args[k];
    var top := s.Top();
    more := top.Some? && top.value != Marker;
  }

  /** Pops one input and reads its number. */
  method PopInput(fpu: Fpu, s: Stack<Item>, ghost was: seq<Item>, ghost args: seq<number>, ghost k: nat)
    returns (input: Item, num: number)
    requires AreInputs(fpu, was, args) && k < |args| && Taken(s, was, k)
    modifies s`top
    ensures Taken(s, was, k + 1) && num == NumberOf(fpu, input) == args[k]
  {
    var r := s.Pop();
    input := r.value;
    num := NumberOf(fpu, input);
    assert was[..|was| - k][..|was| - k - 1] == was[..|was| - (k + 1)];
  }

  method Minimum(fpu: Fpu, s: Stack<Item>, num: number, ghost args: seq<number>) returns (result: number)
    requires s.Valid() && AreInputs(fpu, s.Items(), args)
    modifies s`top
    ensures Taken(s, old(s.Items()), |args|)
    ensures result == Least(fpu, num, args)
  {
    ghost var was, k := s.Items(), 0;
    result := num;
    var more := InputOnTop(fpu, s, was, args, k);
    while more
      invariant k <= |args| && Taken(s, was, k) && (more <==> k < |args|)
      invariant Least(fpu, result, args[k..]) == Least(fpu, num, args)
      decreases |args| - k
    {
      var _, next := PopInput(fpu, s, was, args, k);
      if fpu.less(next, result) {
        result := next;
      }
      k := k + 1;
      more := InputOnTop(fpu, s, was, args, k);
    }
  }

  method Maximum(fpu: Fpu, s: Stack<Item>, num: number, ghost args: seq<number>) returns (result: number)
    requires s.Valid() && AreInputs(fpu, s.Items(), args)
    modifies s`top
    ensures Taken(s, old(s.Items()), |args|)
    ensures result == Greatest(fpu, num, args)
  {
    ghost var was, k := s.Items(), 0;
    result := num;
    var more := InputOnTop(fpu, s, was, args, k);
    while more
      invariant k <= |args| && Taken(s, was, k) && (more <==> k < |args|)
      invariant Greatest(fpu, result, args[k..]) == Greatest(fpu, num, args)
      decreases |args| - k
    {
      var _, next := PopInput(fpu, s, was, args, k);
      if fpu.less(result, next) {
        result := next;
      }
      k := k + 1;
      more := InputOnTop(fpu, s, was, args, k);
    }
  }

  method Summation(fpu: Fpu, s: Stack<Item>, num: number, ghost args: seq<number>) returns (result: number)
    requires s.Valid() && AreInputs(fpu, s.Items(), args)
    modifies s`top
    ensures Taken(s, old(s.Items()), |args|)
    ensures result == Total(fpu, num, args)
  {
    ghost var was, k := s.Items(), 0;
    result := num;
    var more := InputOnTop(fpu, s, was, args, k);
    while more
      invariant k <= |args| && Taken(s, was, k) && (more <==> k < |args|)
      invariant Total(fpu, result, args[k..]) == Total(fpu, num, args)
      decreases |args| - k
    {
      var _, next := PopInput(fpu, s, was, args, k);
      result := fpu.add(result, next);
      k := k + 1;
      more := InputOnTop(fpu, s, was, args, k);
    }
  }

  method ArithmeticMean(fpu: Fpu, s: Stack<Item>, num: number, ghost args: seq<number>) returns (result: number)
    requires s.Valid() && AreInputs(fpu, s.Items(), args)
    modifies s`top
    ensures Taken(s, old(s.Items()), |args|)
    ensures result == Average(fpu, [num] + args)
  {
    ghost var was, k := s.Items(), 0;
    result := num;
    var counter := 1;
    var more := InputOnTop(fpu, s, was, args, k);
    while more
      invariant k <= |args| && Taken(s, was, k) && (more <==> k < |args|)
      invariant counter == 1 + k && Total(fpu, result, args[k..]) == Total(fpu, num, args)
      decreases |args| - k
    {
      var _, next := PopInput(fpu, s, was, args, k);
      result := fpu.add(result, next);
      counter := counter + 1;
      k := k + 1;
      more := InputOnTop(fpu, s, was, args, k);
    }
    assert ([num] + args)[1..] == args;
    result := fpu.div(result, fpu.ofInt(counter));
  }

  /** The items are read as these numbers, the bottom first. */
  ghost predicate ReadAs(fpu: Fpu, items: seq<Item>, ns: seq<number>) {
    && |items| == |ns|
    && forall i :: 0 <= i < |ns| ==> NumberOf(fpu, items[i]) == ns[i]
  }

  /** Sums the squared distances from the mean while it empties a stack. */
  method SumSquares(fpu: Fpu, tmp: Stack<Item>, mean: number, ghost ns: seq<number>) returns (result: number)
    requires tmp.Valid()
    modifies tmp`top
    ensures old(ReadAs(fpu, tmp.Items(), ns)) ==> result == Squares(fpu, mean, fpu.ofInt(0), ns)
  {
    result := fpu.ofInt(0);
    ghost var left := ns;
    while tmp.Size() > 0
      invariant tmp.Valid()
      invariant old(ReadAs(fpu, tmp.Items(), ns)) ==>
        ReadAs(fpu, tmp.Items(), left) && Squares(fpu, mean, result, left) == Squares(fpu, mean, fpu.ofInt(0), ns)
      decreases tmp.Size()
    {
      var token := tmp.Pop();
      left := if left == [] then [] else left[..|left| - 1];
      result := fpu.add(result, fpu.pow(fpu.sub(NumberOf(fpu, token.value), mean), fpu.ofInt(2)));
    }
  }

  /** The stack holds items with these numbers, if it had room for them. */
  ghost predicate Keeps(fpu: Fpu, tmp: Stack<Item>, ns: seq<number>)
    reads tmp, tmp.content
  {
    tmp.Valid() && (|ns| <= tmp.size ==> ReadAs(fpu, tmp.Items(), ns))
  }

  method Keep(fpu: Fpu, tmp: Stack<Item>, token: Item, ghost ns: seq<number>)
    requires Keeps(fpu, tmp, ns)
    modifies tmp`top, tmp.content
    ensures Keeps(fpu, tmp, ns + [NumberOf(fpu, token)]) && tmp.size == old(tmp.size)
  {
    var pushed := tmp.Push(Some(token));
  }

  /** Moves one input to the second stack. */
  method MoveInput(
    fpu: Fpu, s: Stack<Item>, tmp: Stack<Item>, ghost was: seq<Item>, ghost num: number, ghost args: seq<number>,
    ghost k: nat) returns (next: number)
    requires AreInputs(fpu, was, args) && k < |args| && Taken(s, was, k) && s != tmp && s.content != tmp.content
    requires Keeps(fpu, tmp, [num] + args[..k])
    modifies s`top, tmp`top, tmp.content
    ensures Taken(s, was, k + 1) && next == args[k] && tmp.size == old(tmp.size)
    ensures Keeps(fpu, tmp, [num] + args[..k + 1])
  {
    var token;
    token, next := PopInput(fpu, s, was, args, k);
    Keep(fpu, tmp, token, [num] + args[..k]);
    assert [num] + args[..k] + [next] == [num] + args[..k + 1];
  }

  /** Moves the inputs to a second stack, summing them up. */
  method MoveInputs(fpu: Fpu, s: Stack<Item>, tmp: Stack<Item>, num: number, ghost args: seq<number>)
    returns (sum: number, counter: nat)
    requires s.Valid() && AreInputs(fpu, s.Items(), args) && s != tmp && s.content != tmp.content
    requires Keeps(fpu, tmp, [num])
    modifies s`top, tmp`top, tmp.content
    ensures Taken(s, old(s.Items()), |args|) && tmp.size == old(tmp.size)
    ensures counter == 1 + |args| && sum == Total(fpu, num, args) && Keeps(fpu, tmp, [num] + args)
  {
    ghost var was, k := s.Items(), 0;
    sum, counter := num, 1;
    assert [num] + args[..0] == [num];
    var more := InputOnTop(fpu, s, was, args, k);
    while more
      invariant k <= |args| && Taken(s, was, k) && (more <==> k < |args|)
      invariant Keeps(fpu, tmp, [num] + args[..k]) && counter == 1 + k && tmp.size == old(tmp.size)
      invariant Total(fpu, sum, args[k..]) == Total(fpu, num, args)
      decreases |args| - k
    {
      var next := MoveInput(fpu, s, tmp, was, num, args, k);
      sum := fpu.add(sum, next);
      k := k + 1;
      counter := counter + 1;
      more := InputOnTop(fpu, s, was, args, k);
    }
    assert args[..k] == args;
  }

  /** Variance: the inputs are kept on a second stack until their mean is known. */
  method Variance(fpu: Fpu, s: Stack<Item>, input: Item, ghost args: seq<number>) returns (result: number)
    requires s.Valid() && AreInputs(fpu, s.Items(), args)
    modifies s`top
    ensures Taken(s, old(s.Items()), |args|)
    ensures |args| < |old(s.Items())| ==> result == VarianceOf(fpu, [NumberOf(fpu, input)] + args)
  {
    var num := NumberOf(fpu, input);
    ghost var was := s.Items();
    var tmp := new Stack<Item>(if s.Size() > 0 then s.Size() else 1);
    Keep(fpu, tmp, input, []);
    assert s.Items() == was;
    assert [] + [num] == [num];
    var sum, counter := MoveInputs(fpu, s, tmp, num, args);
    ghost var all := [num] + args;
    assert all[1..] == args;
    var mean := fpu.div(sum, fpu.ofInt(counter));
    assert mean == Average(fpu, all);
    result := SumSquares(fpu, tmp, mean, all);
    result := fpu.div(result, fpu.ofInt(counter));
  }

  /** The items are read as these numbers, the top first. */
  ghost predicate ReadDown(fpu: Fpu, items: seq<Item>, ns: seq<number>) {
    && |items| == |ns|
    && forall i :: 0 <= i < |ns| ==> NumberOf(fpu, items[|items| - 1 - i]) == ns[i]
  }

  lemma ReadPush(fpu: Fpu, items: seq<Item>, ns: seq<number>, item: Item)
    ensures ReadAs(fpu, items, ns) <==> ReadAs(fpu, items + [item], ns + [NumberOf(fpu, item)])
    ensures ReadDown(fpu, items, ns) <==> ReadDown(fpu, items + [item], [NumberOf(fpu, item)] + ns)
  {
    var items', up, down := items + [item], ns + [NumberOf(fpu, item)], [NumberOf(fpu, item)] + ns;
    if ReadAs(fpu, items', up) {
      forall i | 0 <= i < |ns|
        ensures NumberOf(fpu, items[i]) == ns[i]
      {
        assert NumberOf(fpu, items'[i]) == up[i];
      }
    }
    if ReadDown(fpu, items', down) {
      forall i | 0 <= i < |ns|
        ensures NumberOf(fpu, items[|items| - 1 - i]) == ns[i]
      {
        assert NumberOf(fpu, items'[|items'| - 1 - (i + 1)]) == down[i + 1];
      }
    }
  }

  lemma ReadLast(fpu: Fpu, items: seq<Item>, ns: seq<number>, item: Item)
    requires ReadAs(fpu, items + [item], ns)
    ensures ns == ns[..|ns| - 1] + [NumberOf(fpu, item)] && ReadAs(fpu, items, ns[..|ns| - 1])
  {
    ReadPush(fpu, items, ns[..|ns| - 1], item);
  }

  lemma ReadFirst(fpu: Fpu, items: seq<Item>, ns: seq<number>, item: Item)
    requires ReadDown(fpu, items + [item], ns)
    ensures ns == [NumberOf(fpu, item)] + ns[1..] && ReadDown(fpu, items, ns[1..])
  {
    var items' := items + [item];
    assert NumberOf(fpu, items'[|items'| - 1 - 0]) == ns[0];
    ReadPush(fpu, items, ns[1..], item);
  }

  /** Insertion behind elements that are all less, before one that is not. */
  lemma {:induction false} InsertBetween(
    less: (number, number) -> bool, n: number, front: seq<number>, rest: seq<number>)
    requires forall x :: x in front ==> less(x, n)
    requires rest != [] ==> !less(rest[0], n)
    ensures InsertSorted(less, n, front + rest) == front + ([n] + rest)
  {
    if front != [] {
      InsertBetween(less, n, front[1..], rest);
      assert (front + rest)[1..] == front[1..] + rest;
    } else {
      assert front + rest == rest;
    }
  }

  /** Moves the numbers that are less than num to the stack `safe`. */
  method MoveSmaller(fpu: Fpu, tmp: Stack<Item>, safe: Stack<Item>, num: number, ghost a: seq<number>)
    returns (ghost front: seq<number>, ghost rest: seq<number>)
    requires tmp.Valid() && safe.Valid() && safe.Items() == []
    requires tmp != safe && tmp.content != safe.content
    requires ReadDown(fpu, tmp.Items(), a) && |a| <= safe.size
    modifies tmp`top, safe`top, safe.content
    ensures tmp.Valid() && safe.Valid() && a == front + rest
    ensures ReadAs(fpu, safe.Items(), front) && ReadDown(fpu, tmp.Items(), rest)
    ensures forall x :: x in front ==> fpu.less(x, num)
    ensures rest != [] ==> !fpu.less(rest[0], num)
  {
    front, rest := [], a;
    while tmp.Size() > 0
      invariant tmp.Valid() && safe.Valid() && a == front + rest
      invariant ReadAs(fpu, safe.Items(), front) && ReadDown(fpu, tmp.Items(), rest)
      invariant forall x :: x in front ==> fpu.less(x, num)
      decreases tmp.Size()
    {
      var top := tmp.Top();
      if !fpu.less(NumberOf(fpu, top.value), num) {
        return;
      }
      var token := tmp.Pop();
      ReadFirst(fpu, tmp.Items(), rest, token.value);
      ReadPush(fpu, safe.Items(), front, token.value);
      var pushed := safe.Push(token);
      front, rest := front + [NumberOf(fpu, token.value)], rest[1..];
    }
  }

  /** Moves the last item of one stack to the other, if that had room for all of them. */
  method BackOne(fpu: Fpu, tmp: Stack<Item>, safe: Stack<Item>, ghost left: seq<number>, ghost back: seq<number>)
    returns (ghost last: number)
    requires tmp.Valid() && safe.Valid() && safe.Items() != []
    requires tmp != safe && tmp.content != safe.content
    requires ReadAs(fpu, safe.Items(), left)
    requires |left + back| <= tmp.size ==> ReadDown(fpu, tmp.Items(), back)
    modifies tmp`top, tmp.content, safe`top
    ensures tmp.Valid() && safe.Valid() && |safe.Items()| == |old(safe.Items())| - 1
    ensures left != [] && left + back == left[..|left| - 1] + ([last] + back)
    ensures ReadAs(fpu, safe.Items(), left[..|left| - 1])
    ensures |left + back| <= tmp.size ==> ReadDown(fpu, tmp.Items(), [last] + back)
  {
    var token := safe.Pop();
    last := NumberOf(fpu, token.value);
    ReadLast(fpu, safe.Items(), left, token.value);
    ReadPush(fpu, tmp.Items(), back, token.value);
    var pushed := tmp.Push(token);
  }

  /** Moves all that lies on `safe` back. */
  method MoveBack(fpu: Fpu, tmp: Stack<Item>, safe: Stack<Item>, ghost front: seq<number>, ghost rest: seq<number>)
    requires tmp.Valid() && safe.Valid()
    requires tmp != safe && tmp.content != safe.content
    requires ReadAs(fpu, safe.Items(), front)
    requires |front + rest| <= tmp.size ==> ReadDown(fpu, tmp.Items(), rest)
    modifies tmp`top, tmp.content, safe`top
    ensures tmp.Valid() && safe.Valid() && safe.Items() == []
    ensures |front + rest| <= tmp.size ==> ReadDown(fpu, tmp.Items(), front + rest)
  {
    ghost var left, back := front, rest;
    while safe.Size() > 0
      invariant tmp.Valid() && safe.Valid() && left + back == front + rest
      invariant ReadAs(fpu, safe.Items(), left)
      invariant |front + rest| <= tmp.size ==> ReadDown(fpu, tmp.Items(), back)
      decreases safe.Size()
    {
      ghost var last := BackOne(fpu, tmp, safe, left, back);
      left, back := left[..|left| - 1], [last] + back;
    }
    assert left + back == back;
  }

  /** Insertion into the sorted stack, whose smallest number is on top. */
  method InsertInput(fpu: Fpu, tmp: Stack<Item>, safe: Stack<Item>, input: Item, ghost a: seq<number>)
    requires tmp.Valid() && safe.Valid() && safe.Items() == []
    requires tmp != safe && tmp.content != safe.content
    requires ReadDown(fpu, tmp.Items(), a) && |a| <= safe.size
    modifies tmp`top, tmp.content, safe`top, safe.content
    ensures tmp.Valid() && safe.Valid() && safe.Items() == []
    ensures |a| < tmp.size ==> ReadDown(fpu, tmp.Items(), InsertSorted(fpu.less, NumberOf(fpu, input), a))
  {
    ghost var front, rest := MoveSmaller(fpu, tmp, safe, NumberOf(fpu, input), a);
    InsertBetween(fpu.less, NumberOf(fpu, input), front, rest);
    ReadPush(fpu, tmp.Items(), rest, input);
    var pushed := tmp.Push(Some(input));
    MoveBack(fpu, tmp, safe, front, [NumberOf(fpu, input)] + rest);
  }

  /**
   Moves the inputs to a sorted stack; it has room for all of them when a
   marker lies below them.
   */
  method SortInputs(
    fpu: Fpu, s: Stack<Item>, tmp: Stack<Item>, safe: Stack<Item>, num: number, ghost args: seq<number>)
    returns (counter: nat)
    requires s.Valid() && AreInputs(fpu, s.Items(), args)
    requires tmp.Valid() && safe.Valid() && safe.Items() == []
    requires s != tmp && s != safe && tmp != safe
    requires s.content != tmp.content && s.content != safe.content && tmp.content != safe.content
    requires ReadDown(fpu, tmp.Items(), [num]) && tmp.size == safe.size >= |s.Items()| && tmp.size >= 1
    modifies s`top, tmp`top, tmp.content, safe`top, safe.content
    ensures Taken(s, old(s.Items()), |args|) && tmp.Valid()
    ensures counter == 1 + |args|
    ensures |args| < |old(s.Items())| ==> ReadDown(fpu, tmp.Items(), InsertAll(fpu.less, [num], args))
  {
    ghost var was, k := s.Items(), 0;
    ghost var a := [num];
    counter := 1;
    var more := InputOnTop(fpu, s, was, args, k);
    while more
      invariant k <= |args| && Taken(s, was, k) && (more <==> k < |args|)
      invariant tmp.Valid() && safe.Valid() && safe.Items() == [] && counter == 1 + k == |a|
      invariant tmp.size == old(tmp.size) && safe.size == old(safe.size)
      invariant |a| <= tmp.size ==> ReadDown(fpu, tmp.Items(), a)
      invariant InsertAll(fpu.less, a, args[k..]) == InsertAll(fpu.less, [num], args)
      decreases |args| - k
    {
      var input, next := PopInput(fpu, s, was, args, k);
      InsertInput(fpu, tmp, safe, input, a);
      InsertLength(fpu.less, next, a);
      a := InsertSorted(fpu.less, next, a);
      k := k + 1;
      counter := counter + 1;
      more := InputOnTop(fpu, s, was, args, k);
    }
  }

  /** All inputs, the first and those on the stack, sorted on a stack of their own. */
  method SortedStack(fpu: Fpu, s: Stack<Item>, input: Item, ghost args: seq<number>)
    returns (tmp: Stack<Item>, counter: nat)
    requires s.Valid() && AreInputs(fpu, s.Items(), args)
    modifies s`top
    ensures Taken(s, old(s.Items()), |args|) && counter == 1 + |args|
    ensures fresh(tmp) && fresh(tmp.content) && tmp.Valid()
    ensures |args| < |old(s.Items())| ==>
      ReadDown(fpu, tmp.Items(), InsertAll(fpu.less, [NumberOf(fpu, input)], args))
  {
    var room := if s.Size() > 0 then s.Size() else 1;
    tmp := new Stack<Item>(room);
    var safe := new Stack<Item>(room);
    var pushed := tmp.Push(Some(input));
    assert ReadDown(fpu, tmp.Items(), [NumberOf(fpu, input)]);
    counter := SortInputs(fpu, s, tmp, safe, NumberOf(fpu, input), args);
  }

  /** The median: the inputs are sorted on a stack, and the middle one is taken. */
  method MiddleInput(fpu: Fpu, s: Stack<Item>, input: Item, ghost args: seq<number>) returns (result: number)
    requires s.Valid() && AreInputs(fpu, s.Items(), args)
    modifies s`top
    ensures Taken(s, old(s.Items()), |args|)
    ensures |args| < |old(s.Items())| ==> result == MedianOf(fpu, [NumberOf(fpu, input)] + args)
  {
    ghost var num := NumberOf(fpu, input);
    var tmp, counter := SortedStack(fpu, s, input, args);
    assert ([num] + args)[1..] == args;
    InsertAllLength(fpu.less, [num], args);
    result := PopIndex(fpu, tmp, (counter + 1) / 2, InsertAll(fpu.less, [num], args));
  }

  /** Takes the k-th item from the top of a stack. */
  method PopIndex(fpu: Fpu, tmp: Stack<Item>, k: nat, ghost ns: seq<number>) returns (result: number)
    requires tmp.Valid() && 1 <= k <= |ns|
    modifies tmp`top
    ensures old(ReadDown(fpu, tmp.Items(), ns)) ==> result == ns[k - 1]
  {
    var counter := k;
    ghost var ok, left := ReadDown(fpu, tmp.Items(), ns), ns;
    while counter > 1
      invariant tmp.Valid() && 1 <= counter <= k
      invariant ok ==> left == ns[k - counter..] && ReadDown(fpu, tmp.Items(), left)
    {
      var dropped := tmp.Pop();
      if ok {
        ReadFirst(fpu, tmp.Items(), left, dropped.value);
        left := left[1..];
      }
      counter := counter - 1;
    }
    var r := tmp.Pop();
    if ok {
      ReadFirst(fpu, tmp.Items(), left, r.value);
    }
    result := if r.Some? then NumberOf(fpu, r.value) else fpu.ofInt(0);
  }

  /** Computes a function from its first input and those that follow on the stack. */
  method Compute(fpu: Fpu, s: Stack<Item>, f: Func, input: Item, ghost args: seq<number>) returns (result: number)
    requires s.Valid() && AreInputs(fpu, s.Items(), args)
    modifies s`top
    ensures Taken(s, old(s.Items()), if f.Unary? then 0 else |args|)
    ensures f.Unary? ==> result == fpu.unary(f.name, NumberOf(fpu, input))
    ensures !f.Unary? && |args| < |old(s.Items())| ==> result == Aggregate(fpu, f, [NumberOf(fpu, input)] + args)
  {
    var num := NumberOf(fpu, input);
    assert ([num] + args)[1..] == args;
    match f
    case Unary(name) => result := fpu.unary(name, num);
    case Min => result := Minimum(fpu, s, num, args);
    case Max => result := Maximum(fpu, s, num, args);
    case Sum => result := Summation(fpu, s, num, args);
    case Avg => result := ArithmeticMean(fpu, s, num, args);
    case Mean => result := ArithmeticMean(fpu, s, num, args);
    case Median => result := MiddleInput(fpu, s, input, args);
    case Var => result := Variance(fpu, s, input, args);
  }

  /** Gives up on a call: empties the stack and leaves "not a number". */
  method Refuse(nan: number, s: Stack<Item>)
    requires s.Valid()
    modifies s`top, s.content
    ensures s.Valid()
  {
    while s.Size() > 0
      invariant s.Valid()
      decreases s.Size()
    {
      var dropped := s.Pop();
    }
    var pushed := s.Push(Some(Val(nan)));
  }

  /** Puts a result in place of the marker; comparing with the top of an empty stack crashes. */
  method Replace(s: Stack<Item>, result: number) returns (exit: Exit)
    requires s.Valid() && |s.Items()| < s.size
    modifies s`top, s.content
    ensures s.Valid()
    ensures Reports(exit, PutResult(old(s.Items()), result))
    ensures exit == Done(0) ==> s.Items() == PutResult(old(s.Items()), result).value
  {
    var top := s.Top();
    if top.None? {
      return Crashed;
    }
    ghost var kept := s.Items();
    if top.value == Marker {
      var marker := s.Pop();
      assert s.Items() == kept[..|kept| - 1];
    }
    var pushed := s.Push(Some(Val(result)));
    exit := Done(0);
  }

  /** doFunc: calls a function on the inputs above the topmost marker. */
  method DoFunction(fpu: Fpu, nan: number, s: Stack<Item>, f: Func) returns (exit: Exit)
    requires s.Valid()
    modifies s`top, s.content
    ensures s.Valid()
    ensures Reports(exit, DoFunc(fpu, old(s.Items()), f))
    ensures exit == Done(0) ==> s.Items() == DoFunc(fpu, old(s.Items()), f).value
  {
    ghost var out := s.Items();
    var top := s.Top();
    if s.Size() == 0 || (s.Size() == 1 && top == Some(Marker)) || (s.Size() > 2 && f.Unary?) {
      assert s.Size() == 1 && top == Some(Marker) ==> out == [Marker];
      Refuse(nan, s);
      return Done(-EFAULT);
    }
    exit := CallFunction(fpu, s, f);
  }

  /** A call that is not refused. */
  method CallFunction(fpu: Fpu, s: Stack<Item>, f: Func) returns (exit: Exit)
    requires s.Valid() && s.Items() != [] && s.Items() != [Marker] && (f.Unary? ==> |s.Items()| <= 2)
    modifies s`top, s.content
    ensures s.Valid()
    ensures Reports(exit, DoFunc(fpu, old(s.Items()), f))
    ensures exit == Done(0) ==> s.Items() == DoFunc(fpu, old(s.Items()), f).value
  {
    ghost var out := s.Items();
    var input := s.Pop();
    assert s.Items() == out[..|out| - 1];
    var result := TakeInputs(fpu, s, f, input.value);
    CallTakesInputs(fpu, out, f, result);
    exit := Replace(s, fpu.round(result));
  }

  /** The inputs below the first one go off the stack. */
  method TakeInputs(fpu: Fpu, s: Stack<Item>, f: Func, input: Item) returns (result: number)
    requires s.Valid()
    modifies s`top
    ensures s.Valid() && |s.Items()| <= |old(s.Items())|
    ensures s.Items() == Below(fpu, old(s.Items()), f)
    ensures IsCall(fpu, old(s.Items()), f, NumberOf(fpu, input), result)
  {
    result := Compute(fpu, s, f, input, Inputs(fpu, s.Items()));
  }

  /** What lies below the inputs of a call, and what the call comes to; the first input is given separately. */
  ghost function Below(fpu: Fpu, rest: seq<Item>, f: Func): seq<Item> {
    rest[..|rest| - (if f.Unary? then 0 else |Inputs(fpu, rest)|)]
  }

  ghost predicate IsCall(fpu: Fpu, rest: seq<Item>, f: Func, num: number, result: number) {
    var args := Inputs(fpu, rest);
    && (f.Unary? ==> result == fpu.unary(f.name, num))
    && (!f.Unary? && |args| < |rest| ==> result == Aggregate(fpu, f, [num] + args))
  }

  /** The numbers of the items above the topmost marker, the top first. */
  ghost function Inputs(fpu: Fpu, items: seq<Item>): (args: seq<number>)
    ensures AreInputs(fpu, items, args) && |args| == AboveMarker(items)
    ensures args == Popped(fpu, items[|items| - AboveMarker(items)..])
  {
    Popped(fpu, items[|items| - AboveMarker(items)..])
  }

  /** The top item and those below it. */
  lemma TopAndBelow(fpu: Fpu, out: seq<Item>, more: nat)
    requires more < |out|
    ensures var rest := out[..|out| - 1];
      && rest[..|rest| - more] == out[..|out| - 1 - more]
      && Popped(fpu, out[|out| - 1 - more..]) == [NumberOf(fpu, out[|out| - 1])] + Popped(fpu, rest[|rest| - more..])
  {
    var rest, items := out[..|out| - 1], out[|out| - 1 - more..];
    assert items[..|items| - 1] == rest[|rest| - more..] && items[|items| - 1] == out[|out| - 1];
  }

  /** What a function makes of the inputs it has taken. */
  lemma ConsumeTakes(fpu: Fpu, out: seq<Item>, f: Func, more: nat, kept: seq<Item>, args: seq<number>, result: number)
    requires more < |out| && args == Popped(fpu, out[|out| - 1 - more..]) && kept == out[..|out| - 1 - more]
    requires f.Unary? ==> result == fpu.unary(f.name, args[0])
    requires !f.Unary? && kept != [] ==> result == Aggregate(fpu, f, args)
    ensures Consume(fpu, out, f, more) == PutResult(kept, fpu.round(result))
  {
  }

  /** What a call of the machine comes to, in terms of the first input and those below it. */
  lemma CallTakesInputs(fpu: Fpu, out: seq<Item>, f: Func, result: number)
    requires out != [] && out != [Marker] && (f.Unary? ==> |out| <= 2)
    requires IsCall(fpu, out[..|out| - 1], f, NumberOf(fpu, out[|out| - 1]), result)
    ensures DoFunc(fpu, out, f) == PutResult(Below(fpu, out[..|out| - 1], f), fpu.round(result))
  {
    var rest := out[..|out| - 1];
    if f.Unary? {
      UnaryTakes(fpu, out, f, result);
    } else {
      AggregateTakes(fpu, out, f, result, Inputs(fpu, rest));
    }
  }

  lemma NotRefused(fpu: Fpu, out: seq<Item>, f: Func, more: nat)
    requires !f.Unary? && out != [] && out != [Marker] && more == AboveMarker(out[..|out| - 1])
    ensures DoFunc(fpu, out, f) == Consume(fpu, out, f, more)
  {
  }

  lemma UnaryTakes(fpu: Fpu, out: seq<Item>, f: Func, result: number)
    requires f.Unary? && 0 < |out| <= 2 && out != [Marker]
    requires result == fpu.unary(f.name, NumberOf(fpu, out[|out| - 1]))
    ensures DoFunc(fpu, out, f) == PutResult(Below(fpu, out[..|out| - 1], f), fpu.round(result))
  {
    assert Below(fpu, out[..|out| - 1], f) == out[..|out| - 1];
    ConsumeTakes(fpu, out, f, 0, out[..|out| - 1], Popped(fpu, out[|out| - 1..]), result);
  }

  lemma AggregateTakes(fpu: Fpu, out: seq<Item>, f: Func, result: number, args: seq<number>)
    requires !f.Unary? && out != [] && out != [Marker]
    requires args == Inputs(fpu, out[..|out| - 1])
    requires |args| < |out| - 1 ==> result == Aggregate(fpu, f, [NumberOf(fpu, out[|out| - 1])] + args)
    ensures DoFunc(fpu, out, f) == PutResult(Below(fpu, out[..|out| - 1], f), fpu.round(result))
  {
    var rest, more := out[..|out| - 1], |args|;
    BelowInputs(fpu, rest, f, args);
    assert DoFunc(fpu, out, f) == Consume(fpu, out, f, more) by {
      NotRefused(fpu, out, f, more);
    }
    assert Consume(fpu, out, f, more) == PutResult(rest[..|rest| - more], fpu.round(result)) by {
      AggregateOf(fpu, out, rest, f, result, args, more);
    }
  }

  lemma BelowInputs(fpu: Fpu, rest: seq<Item>, f: Func, args: seq<number>)
    requires !f.Unary? && args == Inputs(fpu, rest)
    ensures |args| == AboveMarker(rest) && Below(fpu, rest, f) == rest[..|rest| - |args|]
    ensures args == Popped(fpu, rest[|rest| - |args|..])
  {
  }

  lemma AggregateOf(
    fpu: Fpu, out: seq<Item>, rest: seq<Item>, f: Func, result: number, args: seq<number>, more: nat)
    requires !f.Unary? && more < |out| && rest == out[..|out| - 1] && args == Popped(fpu, rest[|rest| - more..])
    requires more < |rest| ==> result == Aggregate(fpu, f, [NumberOf(fpu, out[|out| - 1])] + args)
    ensures Consume(fpu, out, f, more) == PutResult(rest[..|rest| - more], fpu.round(result))
  {
    TopAndBelow(fpu, out, more);
    ConsumeTakes(fpu, out, f, more, rest[..|rest| - more], Popped(fpu, out[|out| - 1 - more..]), result);
  }

  /** What is computed when a division fails or an input is missing: "not a number" and infinity. */
  datatype Specials = Specials(nan: number, inf: number)

  /** evalStackPush: evaluates an operator or a call, or pushes a number. */
  method EvalStackPush(fpu: Fpu, sp: Specials, s: Stack<Item>, val: Token) returns (exit: Exit)
    requires s.Valid() && (val != LParen ==> |s.Items()| < s.size)
    modifies s`top, s.content
    ensures s.Valid()
    ensures Reports(exit, EvalPush(fpu, old(s.Items()), val))
    ensures exit == Done(0) ==> s.Items() == EvalPush(fpu, old(s.Items()), val).value
  {
    exit := Done(0);
    match TokenType(val)
    case function_ =>
      exit := DoFunction(fpu, sp.nan, s, val.f);
    case addop => exit := EvalOperator(fpu, sp, s, val);
    case multop => exit := EvalOperator(fpu, sp, s, val);
    case expop => exit := EvalOperator(fpu, sp, s, val);
    case value =>
      var pushed := s.Push(Some(Val(val.n)));
    case _ =>
  }

  /** An operator is evaluated if it has two operands, and left on the stack otherwise. */
  method EvalOperator(fpu: Fpu, sp: Specials, s: Stack<Item>, val: Token) returns (exit: Exit)
    requires s.Valid() && |s.Items()| < s.size && val.Operator?
    modifies s`top, s.content
    ensures s.Valid()
    ensures Reports(exit, EvalPush(fpu, old(s.Items()), val))
    ensures exit == Done(0) ==> s.Items() == EvalPush(fpu, old(s.Items()), val).value
  {
    if s.Size() >= 2 {
      var err := DoOp(fpu, sp.nan, sp.inf, s, val.op);
      exit := Done(err);
    } else {
      var pushed := s.Push(Some(Stray(val.op)));
      exit := Done(0);
    }
  }

  /** The two stacks of postfix, and the machine state they represent. */
  ghost predicate Represents(output: Stack<Item>, operators: Stack<Token>, st: State)
    reads output, operators, output.content, operators.content
  {
    && output.Valid() && operators.Valid()
    && st == State(output.Items(), operators.Items())
  }

  /** The loops that move operators to the output while a condition holds. */
  method MoveWhile(fpu: Fpu, sp: Specials, d: Drive, output: Stack<Item>, operators: Stack<Token>, ghost st: State)
    returns (exit: Exit)
    requires Represents(output, operators, st) && Load(st) <= output.size
    requires output.content as object != operators.content
    modifies output`top, output.content, operators`top
    ensures output.Valid() && operators.Valid()
    ensures Reports(exit, PopWhile(fpu, d, st))
    ensures exit == Done(0) ==> Represents(output, operators, PopWhile(fpu, d, st).value)
  {
    ghost var now := st;
    exit := Done(0);
    while operators.Size() > 0
      invariant Represents(output, operators, now) && Load(now) <= output.size
      invariant PopWhile(fpu, d, now) == PopWhile(fpu, d, st) && exit == Done(0)
      decreases operators.Size()
    {
      var drives := DrivesTop(d, operators);
      if !drives {
        return;
      }
      EvalTopLoad(fpu, now);
      var op := operators.Pop();
      assert operators.Items() == now.ops[..|now.ops| - 1];
      exit := EvalStackPush(fpu, sp, output, op.value);
      if exit != Done(0) {
        return;
      }
      now := EvalTop(fpu, now).value;
    }
  }

  /** The loop conditions, read off the operator stack. */
  method DrivesTop(d: Drive, operators: Stack<Token>) returns (drives: bool)
    requires operators.Valid()
    ensures drives == Drives(d, operators.Items())
  {
    var top := operators.Top();
    if top.None? {
      return false;
    }
    match d
    case ForOperator(t) =>
      drives := IsOperator(top.value) &&
        (if LeftAssoc(t) then Precedence(t, top.value) <= 0 else Precedence(t, top.value) < 0);
    case ForFunction(t) => drives := Precedence(t, top.value) <= 0;
    case ToParen => drives := top.value != LParen && operators.Size() > 1;
    case Calls => drives := TokenType(top.value) == function_;
    case All => drives := true;
  }

  /** One token of postfix. */
  method StepToken(fpu: Fpu, sp: Specials, t: Token, output: Stack<Item>, operators: Stack<Token>, ghost st: State)
    returns (exit: Exit)
    requires Represents(output, operators, st)
    requires output.content as object != operators.content
    requires Load(st) < output.size && |st.ops| < operators.size
    modifies output`top, output.content, operators`top, operators.content
    ensures output.Valid() && operators.Valid()
    ensures Reports(exit, Step(fpu, t, st))
    ensures exit == Done(0) ==> Represents(output, operators, Step(fpu, t, st).value)
  {
    exit := Done(0);
    match TokenType(t)
    case value =>
      exit := EvalStackPush(fpu, sp, output, t);
    case function_ =>
      exit := MoveWhile(fpu, sp, ForFunction(t), output, operators, st);
      if exit == Done(0) {
        var pushed := operators.Push(Some(t));
      }
    case argsep =>
      exit := MoveWhile(fpu, sp, ToParen, output, operators, st);
    case addop => exit := StepOperator(fpu, sp, t, output, operators, st);
    case multop => exit := StepOperator(fpu, sp, t, output, operators, st);
    case expop => exit := StepOperator(fpu, sp, t, output, operators, st);
    case lparen =>
      var top := operators.Top();
      if top.Some? && TokenType(top.value) == function_ {
        var marked := output.Push(Some(Marker));
      }
      var pushed := operators.Push(Some(t));
    case rparen =>
      exit := StepClose(fpu, sp, output, operators, st);
    case _ =>
  }

  method StepOperator(fpu: Fpu, sp: Specials, t: Token, output: Stack<Item>, operators: Stack<Token>, ghost st: State)
    returns (exit: Exit)
    requires Represents(output, operators, st) && t.Operator?
    requires output.content as object != operators.content
    requires Load(st) < output.size && |st.ops| < operators.size
    modifies output`top, output.content, operators`top, operators.content
    ensures output.Valid() && operators.Valid()
    ensures Reports(exit, Step(fpu, t, st))
    ensures exit == Done(0) ==> Represents(output, operators, Step(fpu, t, st).value)
  {
    exit := MoveWhile(fpu, sp, ForOperator(t), output, operators, st);
    if exit == Done(0) {
      var pushed := operators.Push(Some(t));
    }
  }

  /** A closing parenthesis: operators down to the opening one, then the function before it. */
  method StepClose(fpu: Fpu, sp: Specials, output: Stack<Item>, operators: Stack<Token>, ghost st: State)
    returns (exit: Exit)
    requires Represents(output, operators, st)
    requires output.content as object != operators.content
    requires Load(st) < output.size
    modifies output`top, output.content, operators`top
    ensures output.Valid() && operators.Valid()
    ensures Reports(exit, CloseParen(fpu, st))
    ensures exit == Done(0) ==> Represents(output, operators, CloseParen(fpu, st).value)
  {
    exit := MoveWhile(fpu, sp, ToParen, output, operators, st);
    if exit != Done(0) {
      return;
    }
    ghost var st' := PopWhile(fpu, ToParen, st).value;
    PopWhileLoad(fpu, ToParen, st);
    var top := operators.Top();
    if top.Some? && top.value != LParen {
      return Done(-EFAULT);
    }
    ghost var n := |st'.ops|;
    var paren := operators.Pop();
    st' := st'.(ops := if n > 0 then st'.ops[..n - 1] else []);
    assert operators.Items() == st'.ops;
    exit := MoveWhile(fpu, sp, Calls, output, operators, st');
  }

  /** The state after i tokens leaves room for one more step, and Run goes on from it. */
  lemma PrefixStep(fpu: Fpu, tokens: seq<Token>, i: nat)
    requires i < |tokens| && RunPrefix(fpu, tokens, i).Ok?
    ensures Load(RunPrefix(fpu, tokens, i).value) <= i && |RunPrefix(fpu, tokens, i).value.ops| <= i
    ensures RunPrefix(fpu, tokens, i + 1) == Step(fpu, tokens[i], RunPrefix(fpu, tokens, i).value)
    ensures Step(fpu, tokens[i], RunPrefix(fpu, tokens, i).value).Fault? ==> Run(fpu, tokens, State([], [])).Fault?
    ensures Step(fpu, tokens[i], RunPrefix(fpu, tokens, i).value).Crash? ==> Run(fpu, tokens, State([], [])).Crash?
  {
    NeverOverflows(fpu, tokens, i);
    RunFromPrefix(fpu, tokens, i + 1);
  }

  /** When the tokens are used up, what Run computes is what the operators left over make of the output. */
  lemma PrefixEnd(fpu: Fpu, tokens: seq<Token>)
    requires RunPrefix(fpu, tokens, |tokens|).Ok?
    ensures Load(RunPrefix(fpu, tokens, |tokens|).value) <= |tokens|
    ensures Run(fpu, tokens, State([], [])) == Run(fpu, [], RunPrefix(fpu, tokens, |tokens|).value)
  {
    NeverOverflows(fpu, tokens, |tokens|);
    RunFromPrefix(fpu, tokens, |tokens|);
    assert tokens[|tokens|..] == [];
  }

  /** The token loop of postfix. */
  method TakeTokens(fpu: Fpu, sp: Specials, tokens: seq<Token>, output: Stack<Item>, operators: Stack<Token>)
    returns (exit: Exit, ghost st: State)
    requires Represents(output, operators, State([], []))
    requires output.content as object != operators.content
    requires output.size == operators.size == |tokens|
    modifies output`top, output.content, operators`top, operators.content
    ensures output.Valid() && operators.Valid()
    ensures exit == Done(0) ==> RunPrefix(fpu, tokens, |tokens|) == Ok(st) && Represents(output, operators, st)
    ensures exit != Done(0) ==> Reports(exit, Run(fpu, tokens, State([], [])))
  {
    exit, st := Done(0), State([], []);
    for i := 0 to |tokens|
      invariant Represents(output, operators, st) && exit == Done(0)
      invariant RunPrefix(fpu, tokens, i) == Ok(st)
    {
      PrefixStep(fpu, tokens, i);
      exit := StepToken(fpu, sp, tokens[i], output, operators, st);
      if exit != Done(0) {
        return;
      }
      st := Step(fpu, tokens[i], st).value;
    }
  }

  /**
   postfix: leaves on the output stack what the machine computes. The output
   stack has room for one item per token, as has the operator stack.
   */
  method ToPostfix(fpu: Fpu, sp: Specials, tokens: seq<Token>, output: Stack<Item>) returns (exit: Exit)
    requires output.Valid() && output.Items() == [] && output.size == |tokens|
    modifies output`top, output.content
    ensures output.Valid()
    ensures Reports(exit, Run(fpu, tokens, State([], [])))
    ensures exit == Done(0) ==> output.Items() == Run(fpu, tokens, State([], [])).value
  {
    ghost var st;
    var operators := new Stack<Token>(|tokens|);
    exit, st := TakeTokens(fpu, sp, tokens, output, operators);
    if exit != Done(0) {
      return;
    }
    PrefixEnd(fpu, tokens);
    exit := MoveWhile(fpu, sp, All, output, operators, st);
  }

  /** calculator_calc after tokenizing: the one value on the stack, or -EFAULT. */
  method Calc(fpu: Fpu, sp: Specials, tokens: seq<Token>) returns (exit: Exit, result: Item)
    ensures match Run(fpu, tokens, State([], []))
            case Ok(out) => if |out| == 1 then exit == Done(0) && out == [result] else exit == Done(-EFAULT)
            case Fault => exit == Done(-EFAULT)
            case Crash => exit == Crashed
  {
    result := Val(sp.nan);
    var expr := new Stack<Item>(|tokens|);
    exit := ToPostfix(fpu, sp, tokens, expr);
    if exit != Done(0) {
      return;
    }
    if expr.Size() != 1 {
      return Done(-EFAULT), result;
    }
    var top := expr.Pop();
    result := top.value;
  }
}
