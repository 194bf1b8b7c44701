/**
 What formulas mean, from their text to real numbers: the signs and names that stand
 in the text decide what is computed.
 */
module Texts {
  import opened Wrappers
  import opened Calculator
  import opened Expressions
  import opened Formulas
  import opened Meanings
  import Tokenizer

  /** With exact arithmetic the text of a tree gives the number that the tree means. */
  lemma FormulaMeans(
    fpu: Fpu, m: Reading, voc: Vocabulary, e: Expr, xs: seq<Tokenizer.Lexeme>, gaps: seq<nat>, max: nat)
    requires WellFormed(e) && Placed(e, 0) && Exact(fpu, m)
    requires Spelled(voc, xs, Tokens(e), max) && |gaps| == |xs| + 1 && NothingRunsOn(xs, gaps)
    ensures match Outcome(fpu, voc, Tokenizer.Text(xs, gaps, 0), max)
      case Ok(out) => |out| == 1 && out[0].Val? && forall x :: Means(m, e, x) <==> x == m.v(out[0].n)
      case Fault => forall x :: !Means(m, e, x)
      case Crash => false
  {
    FormulaIsCorrect(fpu, voc, e, xs, gaps, max);
    TreeMeans(fpu, m, e);
  }

  // ----- signs

  /** What a sign between two numbers means. */
  ghost predicate SignMeans(m: Reading, c: char, a: real, b: real, x: real) {
    && (c == '+' ==> x == a + b)
    && (c == '-' ==> x == a - b)
    && (c == '*' ==> x == a * b)
    && (c == '/' ==> b != 0.0 && x == a / b)
    && (c == '%' ==> b != 0.0 && x == a - Trunc(a / b) as real * b)
    && (c == '^' ==> x == m.pow(a, b))
  }

  const SIGNS: set<char> := {'+', '-', '*', '/', '%', '^'}

  /** The number that a literal is converted to. */
  function NumberFor(strtod: string -> number, l: Tokenizer.Literal): number {
    strtod(Tokenizer.TokenOf(Tokenizer.Number(l)))
  }

  function OpFor(c: char): Op {
    if c == '+' then Plus
    else if c == '-' then Minus
    else if c == '*' then Times
    else if c == '/' then Divide
    else if c == '%' then Modulo
    else Power
  }

  lemma OpMeansSign(m: Reading, c: char, a: real, b: real, x: real)
    requires c in SIGNS
    ensures OpMeans(m, OpFor(c), a, b, x) <==> SignMeans(m, c, a, b, x)
  {
  }

  /** Two numbers with a sign between them: what comes out, in terms of the sign in the text. */
  lemma OperatorText(
    fpu: Fpu, m: Reading, voc: Vocabulary, l: Tokenizer.Literal, c: char, r: Tokenizer.Literal,
    gaps: seq<nat>, max: nat)
    requires Exact(fpu, m) && c in SIGNS && |gaps| == 4
    requires Tokenizer.AllValid([Tokenizer.Number(l), Tokenizer.Sign(c), Tokenizer.Number(r)], max)
    requires NothingRunsOn([Tokenizer.Number(l), Tokenizer.Sign(c), Tokenizer.Number(r)], gaps)
    ensures var text := Tokenizer.Text([Tokenizer.Number(l), Tokenizer.Sign(c), Tokenizer.Number(r)], gaps, 0);
      var a, b := m.v(NumberFor(voc.value, l)), m.v(NumberFor(voc.value, r));
      match Outcome(fpu, voc, text, max)
      case Ok(out) => |out| == 1 && out[0].Val? && SignMeans(m, c, a, b, m.v(out[0].n))
      case Fault => (c == '/' || c == '%') && b == 0.0
      case Crash => false
  {
    var xs := [Tokenizer.Number(l), Tokenizer.Sign(c), Tokenizer.Number(r)];
    var na, nb := NumberFor(voc.value, l), NumberFor(voc.value, r);
    var e := Binary(OpFor(c), Literal(na), Literal(nb));
    assert Tokens(e) == [Num(na), Operator(OpFor(c)), Num(nb)];
    assert Placed(e.l, 0) && Placed(e.r, 1);
    SignSpelled(voc, l, c, r, max);
    FormulaMeans(fpu, m, voc, e, xs, gaps, max);
    var outcome := Outcome(fpu, voc, Tokenizer.Text(xs, gaps, 0), max);
    if outcome.Ok? {
      var x := m.v(outcome.value[0].n);
      assert Means(m, e, x);
      OpMeansSign(m, c, m.v(na), m.v(nb), x);
    } else {
      SignHasMeaning(m, c, m.v(na), m.v(nb), e);
    }
  }

  lemma SignSpelled(
    voc: Vocabulary, l: Tokenizer.Literal, c: char, r: Tokenizer.Literal, max: nat)
    requires c in SIGNS
    requires Tokenizer.AllValid([Tokenizer.Number(l), Tokenizer.Sign(c), Tokenizer.Number(r)], max)
    ensures Spelled(
      voc, [Tokenizer.Number(l), Tokenizer.Sign(c), Tokenizer.Number(r)],
      [Num(NumberFor(voc.value, l)), Operator(OpFor(c)), Num(NumberFor(voc.value, r))], max)
  {
  }

  lemma SignHasMeaning(m: Reading, c: char, a: real, b: real, e: Expr)
    requires c in SIGNS && e.Binary? && e.op == OpFor(c) && Means(m, e.l, a) && Means(m, e.r, b)
    requires forall x :: !Means(m, e, x)
    ensures (c == '/' || c == '%') && b == 0.0
  {
    if b != 0.0 || (c != '/' && c != '%') {
      var x := SignValue(m, c, a, b);
      OpMeansSign(m, c, a, b, x);
      assert Means(m, e, x);
      assert false;
    }
  }

  lemma SignValue(m: Reading, c: char, a: real, b: real) returns (x: real)
    requires c in SIGNS && (b != 0.0 || (c != '/' && c != '%'))
    ensures SignMeans(m, c, a, b, x)
  {
    if c == '+' {
      x := a + b;
    } else if c == '-' {
      x := a - b;
    } else if c == '*' {
      x := a * b;
    } else if c == '/' {
      x := a / b;
    } else if c == '%' {
      x := a - Trunc(a / b) as real * b;
    } else {
      x := m.pow(a, b);
    }
  }

  // ----- which sign goes first

  /** Of two signs in a row the second one goes first: * / % before + -, ^ before all of them, and ^ from the right. */
  predicate SecondFirst(c: char, d: char) {
    || (c in {'+', '-'} && d in {'*', '/', '%', '^'})
    || (c in {'*', '/', '%'} && d == '^')
    || (c == '^' && d == '^')
  }

  ghost predicate LeftMeans(m: Reading, p: real, c: char, q: real, d: char, r: real, x: real) {
    exists y :: SignMeans(m, c, p, q, y) && SignMeans(m, d, y, r, x)
  }

  ghost predicate RightMeans(m: Reading, p: real, c: char, q: real, d: char, r: real, x: real) {
    exists y :: SignMeans(m, d, q, r, y) && SignMeans(m, c, p, y, x)
  }

  function Tree(first: bool, p: number, c: char, q: number, d: char, r: number): Expr {
    if first then Binary(OpFor(d), Binary(OpFor(c), Literal(p), Literal(q)), Literal(r))
    else Binary(OpFor(c), Literal(p), Binary(OpFor(d), Literal(q), Literal(r)))
  }

  lemma BinaryMeansSign(m: Reading, c: char, l: Expr, r: Expr, x: real)
    requires c in SIGNS
    ensures Means(m, Binary(OpFor(c), l, r), x)
       <==> exists a, b :: Means(m, l, a) && Means(m, r, b) && SignMeans(m, c, a, b, x)
  {
    forall a, b
      ensures OpMeans(m, OpFor(c), a, b, x) <==> SignMeans(m, c, a, b, x)
    {
      OpMeansSign(m, c, a, b, x);
    }
  }

  lemma LiteralsMeanSign(m: Reading, c: char, p: number, q: number, y: real)
    requires c in SIGNS
    ensures Means(m, Binary(OpFor(c), Literal(p), Literal(q)), y) <==> SignMeans(m, c, m.v(p), m.v(q), y)
  {
    BinaryMeansSign(m, c, Literal(p), Literal(q), y);
    assert Means(m, Literal(p), m.v(p)) && Means(m, Literal(q), m.v(q));
  }

  lemma TreeMeansSigns(m: Reading, first: bool, p: number, c: char, q: number, d: char, r: number, x: real)
    requires c in SIGNS && d in SIGNS
    ensures Means(m, Tree(first, p, c, q, d, r), x)
       <==> if first then LeftMeans(m, m.v(p), c, m.v(q), d, m.v(r), x)
            else RightMeans(m, m.v(p), c, m.v(q), d, m.v(r), x)
  {
    if first {
      var l := Binary(OpFor(c), Literal(p), Literal(q));
      BinaryMeansSign(m, d, l, Literal(r), x);
      forall y
        ensures Means(m, l, y) <==> SignMeans(m, c, m.v(p), m.v(q), y)
      {
        LiteralsMeanSign(m, c, p, q, y);
      }
      assert Means(m, Literal(r), m.v(r));
    } else {
      var t := Binary(OpFor(d), Literal(q), Literal(r));
      BinaryMeansSign(m, c, Literal(p), t, x);
      forall y
        ensures Means(m, t, y) <==> SignMeans(m, d, m.v(q), m.v(r), y)
      {
        LiteralsMeanSign(m, d, q, r, y);
      }
      assert Means(m, Literal(p), m.v(p));
    }
  }

  lemma TreeIsFormed(p: number, c: char, q: number, d: char, r: number)
    requires c in SIGNS && d in SIGNS
    ensures var e := Tree(!SecondFirst(c, d), p, c, q, d, r);
      && WellFormed(e) && Placed(e, 0)
      && Tokens(e) == [Num(p), Operator(OpFor(c)), Num(q), Operator(OpFor(d)), Num(r)]
  {
    assert WellFormed(Literal(p)) && WellFormed(Literal(q)) && WellFormed(Literal(r));
    assert forall n, below :: Placed(Literal(n), below);
    assert forall n :: Tokens(Literal(n)) == [Num(n)];
    assert WellFormed(Binary(OpFor(c), Literal(p), Literal(q))) && WellFormed(Binary(OpFor(d), Literal(q), Literal(r)));
    assert Placed(Binary(OpFor(c), Literal(p), Literal(q)), 0) && Placed(Binary(OpFor(d), Literal(q), Literal(r)), 1);
  }

  function ThreeNumbers(
    l: Tokenizer.Literal, c: char, k: Tokenizer.Literal, d: char, r: Tokenizer.Literal): seq<Tokenizer.Lexeme>
  {
    [Tokenizer.Number(l), Tokenizer.Sign(c), Tokenizer.Number(k), Tokenizer.Sign(d), Tokenizer.Number(r)]
  }

  /** Three numbers with two signs between them: the signs in the text decide in which order they are computed. */
  lemma ThreeText(
    fpu: Fpu, m: Reading, voc: Vocabulary, l: Tokenizer.Literal, c: char, k: Tokenizer.Literal, d: char,
    r: Tokenizer.Literal, gaps: seq<nat>, max: nat)
    requires Exact(fpu, m) && c in SIGNS && d in SIGNS && |gaps| == 6
    requires Tokenizer.AllValid(ThreeNumbers(l, c, k, d, r), max) && NothingRunsOn(ThreeNumbers(l, c, k, d, r), gaps)
    ensures var p, q := m.v(NumberFor(voc.value, l)), m.v(NumberFor(voc.value, k));
      var s := m.v(NumberFor(voc.value, r));
      var means := (x: real) =>
        if SecondFirst(c, d) then RightMeans(m, p, c, q, d, s, x) else LeftMeans(m, p, c, q, d, s, x);
      match Outcome(fpu, voc, Tokenizer.Text(ThreeNumbers(l, c, k, d, r), gaps, 0), max)
      case Ok(out) => |out| == 1 && out[0].Val? && means(m.v(out[0].n))
      case Fault => forall x: real :: !means(x)
      case Crash => false
  {
    var np, nq, nr := NumberFor(voc.value, l), NumberFor(voc.value, k), NumberFor(voc.value, r);
    var first := !SecondFirst(c, d);
    var e := Tree(first, np, c, nq, d, nr);
    TreeIsFormed(np, c, nq, d, nr);
    ThreeSpelled(voc, l, c, k, d, r, max);
    FormulaMeans(fpu, m, voc, e, ThreeNumbers(l, c, k, d, r), gaps, max);
    forall x
      ensures Means(m, e, x)
         <==> if first then LeftMeans(m, m.v(np), c, m.v(nq), d, m.v(nr), x)
              else RightMeans(m, m.v(np), c, m.v(nq), d, m.v(nr), x)
    {
      TreeMeansSigns(m, first, np, c, nq, d, nr, x);
    }
  }

  lemma ThreeSpelled(
    voc: Vocabulary, l: Tokenizer.Literal, c: char, k: Tokenizer.Literal, d: char, r: Tokenizer.Literal, max: nat)
    requires c in SIGNS && d in SIGNS && Tokenizer.AllValid(ThreeNumbers(l, c, k, d, r), max)
    ensures Spelled(
      voc, ThreeNumbers(l, c, k, d, r),
      [Num(NumberFor(voc.value, l)), Operator(OpFor(c)), Num(NumberFor(voc.value, k)), Operator(OpFor(d)),
       Num(NumberFor(voc.value, r))], max)
  {
    var xs := ThreeNumbers(l, c, k, d, r);
    assert Tokenizer.ValidLexeme(xs[0], max) && Tokenizer.ValidLexeme(xs[1], max);
    assert Tokenizer.ValidLexeme(xs[2], max) && Tokenizer.ValidLexeme(xs[3], max);
    assert Tokenizer.ValidLexeme(xs[4], max);
    ValueSpelled(voc, l, max);
    ValueSpelled(voc, k, max);
    ValueSpelled(voc, r, max);
    SignIsSpelled(voc, c, max);
    SignIsSpelled(voc, d, max);
    var ts := [Num(NumberFor(voc.value, l)), Operator(OpFor(c)), Num(NumberFor(voc.value, k)), Operator(OpFor(d)),
               Num(NumberFor(voc.value, r))];
    PairedFive(
      Writes(voc, max), xs[0], ts[0], xs[1], ts[1], xs[2], ts[2], xs[3], ts[3], xs[4], ts[4]);
    SpelledIsPaired(voc, xs, ts, max);
  }

  lemma PairedFive<A, B>(
    rel: (A, B) -> bool, x0: A, t0: B, x1: A, t1: B, x2: A, t2: B, x3: A, t3: B, x4: A, t4: B)
    requires rel(x0, t0) && rel(x1, t1) && rel(x2, t2) && rel(x3, t3) && rel(x4, t4)
    ensures Paired(rel, [x0, x1, x2, x3, x4], [t0, t1, t2, t3, t4])
  {
  }

  lemma ValueSpelled(voc: Vocabulary, l: Tokenizer.Literal, max: nat)
    requires Tokenizer.ValidLexeme(Tokenizer.Number(l), max)
    ensures Writes(voc, max)(Tokenizer.Number(l), Num(NumberFor(voc.value, l)))
  {
  }

  lemma SignIsSpelled(voc: Vocabulary, c: char, max: nat)
    requires c in SIGNS && Tokenizer.ValidLexeme(Tokenizer.Sign(c), max)
    ensures Writes(voc, max)(Tokenizer.Sign(c), Operator(OpFor(c)))
  {
  }

  // ----- names

  /** What a name in front of a list of numbers means. */
  ghost predicate NameMeans(m: Reading, w: string, xs: seq<real>, x: real) {
    && (w == "min" ==> x in xs && forall y :: y in xs ==> x <= y)
    && (w == "max" ==> x in xs && forall y :: y in xs ==> y <= x)
    && (w == "sum" ==> x == SumOf(xs))
    && (w == "avg" || w == "mean" ==> IsMean(xs, x))
    && (w == "median" ==> x in xs && LessThan(xs, x) < (|xs| + 1) / 2 <= UpTo(xs, x))
    && (w == "var" ==> exists mean :: IsMean(xs, mean) && IsMeanSquare(xs, mean, x))
    && (w in UNARY ==> |xs| == 1 && x == m.unary(w, xs[0]))
  }

  /** The literals with commas between them. */
  function Listed(ls: seq<Tokenizer.Literal>): seq<Tokenizer.Lexeme>
    requires ls != []
  {
    if |ls| == 1 then [Tokenizer.Number(ls[0])]
    else [Tokenizer.Number(ls[0]), Tokenizer.Sign(',')] + Listed(ls[1..])
  }

  function CallText(w: string, ls: seq<Tokenizer.Literal>): seq<Tokenizer.Lexeme>
    requires ls != []
  {
    [Tokenizer.Word(w), Tokenizer.Sign('(')] + Listed(ls) + [Tokenizer.Sign(')')]
  }

  function ArgsFor(strtod: string -> number, ls: seq<Tokenizer.Literal>): Args
    requires ls != []
  {
    var e := Literal(NumberFor(strtod, ls[0]));
    if |ls| == 1 then Last(e) else More(e, ArgsFor(strtod, ls[1..]))
  }

  function NumbersFor(m: Reading, strtod: string -> number, ls: seq<Tokenizer.Literal>): (xs: seq<real>)
    ensures |xs| == |ls|
  {
    seq(|ls|, i requires 0 <= i < |ls| => m.v(NumberFor(strtod, ls[i])))
  }

  lemma {:induction false} ListedTokens(
    voc: Vocabulary, strtod: string -> number, ls: seq<Tokenizer.Literal>, max: nat)
    requires voc.value == strtod && ls != [] && max > 0
    requires forall i :: 0 <= i < |ls| ==> Tokenizer.ValidLexeme(Tokenizer.Number(ls[i]), max)
    ensures Spelled(voc, Listed(ls), ArgTokens(ArgsFor(strtod, ls)), max)
  {
    FirstSpelled(voc, strtod, ls[0], max);
    if |ls| > 1 {
      ListedTokens(voc, strtod, ls[1..], max);
      SpelledJoin(
        voc, [Tokenizer.Number(ls[0]), Tokenizer.Sign(',')], [Num(NumberFor(strtod, ls[0])), Comma],
        Listed(ls[1..]), ArgTokens(ArgsFor(strtod, ls[1..])), max);
      MoreTokens(NumberFor(strtod, ls[0]), ArgsFor(strtod, ls[1..]));
    }
  }

  lemma FirstSpelled(voc: Vocabulary, strtod: string -> number, l: Tokenizer.Literal, max: nat)
    requires voc.value == strtod && max > 0 && Tokenizer.ValidLexeme(Tokenizer.Number(l), max)
    ensures Spelled(voc, [Tokenizer.Number(l)], [Num(NumberFor(strtod, l))], max)
    ensures Spelled(
      voc, [Tokenizer.Number(l), Tokenizer.Sign(',')], [Num(NumberFor(strtod, l)), Comma], max)
  {
    assert Spells(voc, Tokenizer.Number(l), Num(NumberFor(strtod, l)));
  }

  lemma MoreTokens(n: number, rest: Args)
    ensures ArgTokens(More(Literal(n), rest)) == [Num(n), Comma] + ArgTokens(rest)
  {
    assert Tokens(Literal(n)) == [Num(n)];
  }

  lemma {:induction false} ListIsFormed(strtod: string -> number, ls: seq<Tokenizer.Literal>, below: nat)
    requires ls != []
    ensures ArgsWellFormed(ArgsFor(strtod, ls)) && ArgsPlaced(ArgsFor(strtod, ls), below)
  {
    if |ls| > 1 {
      ListIsFormed(strtod, ls[1..], below + 1);
    }
  }

  /** Two lists that belong together entry by entry. */
  ghost predicate Paired<A, B>(rel: (A, B) -> bool, xs: seq<A>, ts: seq<B>) {
    |xs| == |ts| && forall i :: 0 <= i < |xs| ==> rel(xs[i], ts[i])
  }

  lemma PairedJoin<A, B>(rel: (A, B) -> bool, xs: seq<A>, ts: seq<B>, ys: seq<A>, us: seq<B>)
    requires Paired(rel, xs, ts) && Paired(rel, ys, us)
    ensures Paired(rel, xs + ys, ts + us)
  {
  }

  function Writes(voc: Vocabulary, max: nat): (Tokenizer.Lexeme, Token) -> bool {
    (x, t) => Tokenizer.ValidLexeme(x, max) && Spells(voc, x, t)
  }

  lemma SpelledIsPaired(voc: Vocabulary, xs: seq<Tokenizer.Lexeme>, ts: seq<Token>, max: nat)
    ensures Spelled(voc, xs, ts, max) <==> Paired(Writes(voc, max), xs, ts)
  {
  }

  lemma SpelledJoin(
    voc: Vocabulary, xs: seq<Tokenizer.Lexeme>, ts: seq<Token>, ys: seq<Tokenizer.Lexeme>, us: seq<Token>, max: nat)
    requires Spelled(voc, xs, ts, max) && Spelled(voc, ys, us, max)
    ensures Spelled(voc, xs + ys, ts + us, max)
  {
    SpelledIsPaired(voc, xs, ts, max);
    SpelledIsPaired(voc, ys, us, max);
    PairedJoin(Writes(voc, max), xs, ts, ys, us);
    SpelledIsPaired(voc, xs + ys, ts + us, max);
  }

  lemma {:induction false} ListMeans(m: Reading, strtod: string -> number, ls: seq<Tokenizer.Literal>, xs: seq<real>)
    requires ls != []
    ensures ArgsMean(m, ArgsFor(strtod, ls), xs) <==> xs == NumbersFor(m, strtod, ls)
  {
    if |ls| > 1 {
      if xs != [] {
        ListMeans(m, strtod, ls[1..], xs[1..]);
        assert xs == [xs[0]] + xs[1..];
      }
      assert NumbersFor(m, strtod, ls)[1..] == NumbersFor(m, strtod, ls[1..]);
    }
  }

  lemma {:induction false} ListHasValues(fpu: Fpu, strtod: string -> number, ls: seq<Tokenizer.Literal>)
    requires ls != []
    ensures Values(fpu, ArgsFor(strtod, ls)).Some? && |Values(fpu, ArgsFor(strtod, ls)).value| == |ls|
  {
    if |ls| > 1 {
      ListHasValues(fpu, strtod, ls[1..]);
    }
  }

  lemma FunctionMeansName(m: Reading, w: string, f: Func, xs: seq<real>, x: real)
    requires FunctionNamed(w) == Some(f) && (w in UNARY ==> |xs| == 1) && CallMeans(m, f, xs, x)
    ensures NameMeans(m, w, xs, x)
  {
    if w in UNARY {
      UnaryNames();
      UnaryNamed(w);
    }
  }

  lemma UnaryIsNamed(w: string, f: Func)
    requires FunctionNamed(w) == Some(f)
    ensures f.Unary? <==> w in UNARY
  {
    if w in UNARY {
      UnaryNames();
      UnaryNamed(w);
    }
  }

  lemma CallIsSpelled(
    voc: Vocabulary, strtod: string -> number, w: string, f: Func, ls: seq<Tokenizer.Literal>, max: nat)
    requires voc.value == strtod && voc.named(w) == Some(f) && ls != []
    requires Tokenizer.ValidLexeme(Tokenizer.Word(w), max)
    requires forall i :: 0 <= i < |ls| ==> Tokenizer.ValidLexeme(Tokenizer.Number(ls[i]), max)
    ensures Spelled(voc, CallText(w, ls), Tokens(Call(f, ArgsFor(strtod, ls))), max)
  {
    var args := ArgsFor(strtod, ls);
    ListedTokens(voc, strtod, ls, max);
    NameSpelled(voc, w, f, max);
    var xs, ts := [Tokenizer.Word(w), Tokenizer.Sign('(')], [Function(f), LParen];
    SpelledJoin(voc, xs, ts, Listed(ls), ArgTokens(args), max);
    SpelledJoin(voc, xs + Listed(ls), ts + ArgTokens(args), [Tokenizer.Sign(')')], [RParen], max);
  }

  lemma NameSpelled(voc: Vocabulary, w: string, f: Func, max: nat)
    requires voc.named(w) == Some(f) && Tokenizer.ValidLexeme(Tokenizer.Word(w), max)
    ensures Spelled(voc, [Tokenizer.Word(w), Tokenizer.Sign('(')], [Function(f), LParen], max)
    ensures Spelled(voc, [Tokenizer.Sign(')')], [RParen], max)
  {
    assert Spells(voc, Tokenizer.Word(w), Function(f));
    assert Spells(voc, Tokenizer.Sign('('), LParen) && Spells(voc, Tokenizer.Sign(')'), RParen);
  }

  /** Nothing runs on where the only signs are brackets and commas. */
  lemma CallRunsOnNowhere(w: string, ls: seq<Tokenizer.Literal>, gaps: seq<nat>)
    requires ls != [] && |gaps| == |CallText(w, ls)| + 1
    ensures NothingRunsOn(CallText(w, ls), gaps)
  {
    ListedSigns(ls);
    forall i | 0 <= i < |CallText(w, ls)|
      ensures CallText(w, ls)[i] !in [Tokenizer.Sign('+'), Tokenizer.Sign('-')]
    {
      if 2 <= i < |CallText(w, ls)| - 1 {
        assert CallText(w, ls)[i] == Listed(ls)[i - 2];
      }
    }
  }

  lemma {:induction false} ListedSigns(ls: seq<Tokenizer.Literal>)
    requires ls != []
    ensures forall i :: 0 <= i < |Listed(ls)| ==> Listed(ls)[i].Number? || Listed(ls)[i] == Tokenizer.Sign(',')
  {
    if |ls| > 1 {
      ListedSigns(ls[1..]);
    }
  }

  /**
   A name with a list of numbers in brackets: what comes out, in terms of the name
   in the text. A name of a one-argument function has one number in brackets.
   */
  lemma NameText(
    fpu: Fpu, m: Reading, strtod: string -> number, w: string, ls: seq<Tokenizer.Literal>, gaps: seq<nat>, max: nat)
    requires Exact(fpu, m) && FunctionNamed(w).Some? && ls != [] && (w in UNARY ==> |ls| == 1)
    requires Tokenizer.ValidLexeme(Tokenizer.Word(w), max) && |gaps| == |CallText(w, ls)| + 1
    requires forall i :: 0 <= i < |ls| ==> Tokenizer.ValidLexeme(Tokenizer.Number(ls[i]), max)
    ensures var outcome := Outcome(fpu, Words(strtod), Tokenizer.Text(CallText(w, ls), gaps, 0), max);
      && outcome.Ok? && |outcome.value| == 1 && outcome.value[0].Val?
      && NameMeans(m, w, NumbersFor(m, strtod, ls), m.v(outcome.value[0].n))
  {
    var f, args := FunctionNamed(w).value, ArgsFor(strtod, ls);
    var e := Call(f, args);
    ListIsFormed(strtod, ls, 1);
    CallIsSpelled(Words(strtod), strtod, w, f, ls, max);
    CallRunsOnNowhere(w, ls, gaps);
    UnaryIsNamed(w, f);
    ListHasValues(fpu, strtod, ls);
    FormulaIsCorrect(fpu, Words(strtod), e, CallText(w, ls), gaps, max);
    assert Value(fpu, e) == CallValue(fpu, f, Values(fpu, args).value);
    var x := m.v(Value(fpu, e).value);
    TreeMeans(fpu, m, e);
    assert Means(m, e, x);
    var xs :| ArgsMean(m, args, xs) && CallMeans(m, f, xs, x);
    ListMeans(m, strtod, ls, xs);
    FunctionMeansName(m, w, f, xs, x);
  }
}
