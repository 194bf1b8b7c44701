/**
 calculator_calc of src/calculator.c from the text on: the tokens of module
 Tokenizer are those the machine of module Calculator takes, and the text of an
 expression tree, with or without blanks in it, gives the value of the tree.
 */
module Formulas {
  import opened Calculator
  import opened Expressions
  import opened Postfix
  import opened Wrappers
  import Tokenizer

  // ----- what a token is

  /** strtod, and isFunction with the function that a word names. */
  datatype Vocabulary = Vocabulary(value: string -> number, named: string -> Option<Func>)

  predicate IsSpecialValue(tk: string) {
    tk == "nan" || tk == "inf"
  }

  /** tokenType and, for values, buildNumber. */
  function Classify(voc: Vocabulary, tk: string): Token {
    match Tokenizer.TokenType(tk)
    case addop => Operator(if tk[0] == '-' then Minus else Plus)
    case multop => Operator(if tk[0] == '*' then Times else if tk[0] == '/' then Divide else Modulo)
    case expop => Operator(Power)
    case lparen => LParen
    case rparen => RParen
    case argsep => Comma
    case digit => Num(voc.value(tk))
    case _ =>
      if voc.named(tk).Some? then Function(voc.named(tk).value)
      else if IsSpecialValue(tk) then Num(voc.value(tk))
      else Identifier(tk)
  }

  function Classified(voc: Vocabulary, tks: seq<string>): (r: seq<Token>)
    ensures |r| == |tks|
  {
    seq(|tks|, i requires 0 <= i < |tks| => Classify(voc, tks[i]))
  }

  /** After such a token the calculator expects an operand. */
  predicate Opens(t: Token) {
    t.Operator? || t.LParen? || t.Comma?
  }

  /** The tokenizer and the calculator agree on where an operand is expected. */
  lemma SameExpectation(voc: Vocabulary, tks: seq<string>)
    requires tks != [] && tks[|tks| - 1] != ""
    ensures Tokenizer.OperandExpected(tks) <==> Opens(Classify(voc, tks[|tks| - 1]))
    ensures Tokenizer.OperandExpected(tks) <==>
      TokenType(Classify(voc, tks[|tks| - 1])) in {addop, multop, expop, lparen, argsep}
  {
  }

  // ----- how tokens are written

  function SignOf(op: Op): char {
    match op
    case Plus => '+'
    case Minus => '-'
    case Times => '*'
    case Divide => '/'
    case Modulo => '%'
    case Power => '^'
  }

  predicate IsValue(voc: Vocabulary, x: Tokenizer.Lexeme) {
    x.Number? || (x.Word? && IsSpecialValue(x.w) && voc.named(x.w) == None)
  }

  /** The lexeme is a way to write the token. */
  predicate Spells(voc: Vocabulary, x: Tokenizer.Lexeme, t: Token) {
    match t
    case Num(n) => IsValue(voc, x) && voc.value(Tokenizer.TokenOf(x)) == n
    case Operator(op) => x == Tokenizer.Sign(SignOf(op))
    case LParen => x == Tokenizer.Sign('(')
    case RParen => x == Tokenizer.Sign(')')
    case Comma => x == Tokenizer.Sign(',')
    case Function(f) => x.Word? && voc.named(x.w) == Some(f)
    case Identifier(_) => false
  }

  lemma NumberType(l: Tokenizer.Literal)
    requires Tokenizer.ValidLiteral(l)
    ensures var tk := Tokenizer.TokenOf(Tokenizer.Number(l));
      tk != "" && Tokenizer.TokenType(tk) == Tokenizer.digit
  {
    var u := Tokenizer.Unsigned(l);
    if l.whole == "" {
      assert u[0] == '.';
    } else {
      assert u[0] == l.whole[0];
    }
    var tk := Tokenizer.TokenOf(Tokenizer.Number(l));
    if l.negative {
      assert tk[1..] == u;
    }
  }

  /** A token that spells a token of the calculator is taken for it. */
  lemma SpelledIsClassified(voc: Vocabulary, x: Tokenizer.Lexeme, t: Token, max: nat)
    requires Tokenizer.ValidLexeme(x, max) && Spells(voc, x, t)
    ensures Tokenizer.TokenOf(x) != "" && Classify(voc, Tokenizer.TokenOf(x)) == t
  {
    if x.Number? {
      NumberType(x.l);
    } else if x.Word? {
      assert Tokenizer.TokenType(x.w) == Tokenizer.text;
    }
  }

  // ----- which tokens follow one another in a tree

  predicate Closes(t: Token) {
    t.Num? || t.RParen?
  }

  predicate StartsOperand(t: Token) {
    t.Num? || t.LParen? || t.Function?
  }

  predicate Allowed(a: Token, b: Token) {
    if Closes(a) then b.Operator? || b.RParen? || b.Comma?
    else if a.Function? then b.LParen?
    else Opens(a) && StartsOperand(b)
  }

  ghost predicate Chain(ts: seq<Token>) {
    && ts != [] && StartsOperand(ts[0]) && Closes(ts[|ts| - 1])
    && forall i :: 0 < i < |ts| ==> Allowed(ts[i - 1], ts[i])
  }

  lemma ChainJoin(s: seq<Token>, t: Token, u: seq<Token>)
    requires Chain(s) && Chain(u) && (t.Operator? || t.Comma?)
    ensures Chain(s + [t] + u)
  {
    var v := s + [t] + u;
    forall i | 0 < i < |v|
      ensures Allowed(v[i - 1], v[i])
    {
      if i > |s| + 1 {
        assert v[i - 1] == u[i - |s| - 2] && v[i] == u[i - |s| - 1];
      }
    }
  }

  lemma ChainBrackets(s: seq<Token>)
    requires Chain(s)
    ensures Chain([LParen] + s + [RParen])
    ensures forall f :: Chain([Function(f), LParen] + s + [RParen])
  {
    var v := [LParen] + s + [RParen];
    forall i | 0 < i < |v|
      ensures Allowed(v[i - 1], v[i])
    {
      if 1 < i <= |s| {
        assert v[i - 1] == s[i - 2] && v[i] == s[i - 1];
      }
    }
    forall f
      ensures Chain([Function(f), LParen] + s + [RParen])
    {
      assert [Function(f), LParen] + s + [RParen] == [Function(f)] + v;
    }
  }

  lemma {:induction false} TreeChain(e: Expr)
    ensures Chain(Tokens(e))
  {
    match e {
      case Literal(_) =>
      case Binary(op, l, r) =>
        TreeChain(l);
        TreeChain(r);
        ChainJoin(Tokens(l), Operator(op), Tokens(r));
      case Paren(e') =>
        TreeChain(e');
        ChainBrackets(Tokens(e'));
      case Call(f, args) =>
        ArgsChain(args);
        ChainBrackets(ArgTokens(args));
    }
  }

  lemma {:induction false} ArgsChain(args: Args)
    ensures Chain(ArgTokens(args))
  {
    TreeChain(args.e);
    if args.More? {
      ArgsChain(args.rest);
      ChainJoin(Tokens(args.e), Comma, ArgTokens(args.rest));
    }
  }

  // ----- the text of a tree

  ghost predicate Spelled(voc: Vocabulary, xs: seq<Tokenizer.Lexeme>, ts: seq<Token>, max: nat) {
    && |xs| == |ts| && Tokenizer.AllValid(xs, max)
    && forall i :: 0 <= i < |xs| ==> Spells(voc, xs[i], ts[i])
  }

  lemma SpelledTokens(voc: Vocabulary, xs: seq<Tokenizer.Lexeme>, ts: seq<Token>, max: nat)
    requires Spelled(voc, xs, ts, max)
    ensures Classified(voc, Tokenizer.TokensOf(xs)) == ts
  {
    forall i | 0 <= i < |xs|
      ensures Classified(voc, Tokenizer.TokensOf(xs))[i] == ts[i]
    {
      SpelledIsClassified(voc, xs[i], ts[i], max);
    }
  }

  /** A number with an exponent and a sign right behind it: the sign is taken for that of the exponent. */
  predicate RunsOn(x: Tokenizer.Lexeme, gap: nat, next: Tokenizer.Lexeme) {
    x.Number? && x.l.exponent.Some? && gap == 0 && next in [Tokenizer.Sign('+'), Tokenizer.Sign('-')]
  }

  ghost predicate NothingRunsOn(xs: seq<Tokenizer.Lexeme>, gaps: seq<nat>)
    requires |gaps| == |xs| + 1
  {
    forall i :: 0 <= i < |xs| - 1 ==> !RunsOn(xs[i], gaps[i + 1], xs[i + 1])
  }

  /** How the text goes on behind the lexeme i. */
  lemma TailStart(xs: seq<Tokenizer.Lexeme>, gaps: seq<nat>, i: nat)
    requires i <= |xs| && |gaps| == |xs| + 1 && (i < |xs| ==> Tokenizer.Print(xs[i]) != "")
    ensures var tail := Tokenizer.Text(xs, gaps, i);
      if gaps[i] > 0 then tail != "" && tail[0] == ' '
      else if i == |xs| then tail == ""
      else tail != "" && tail[0] == Tokenizer.Print(xs[i])[0]
  {
  }

  /** In front of the token i the tokenizer expects an operand if and only if one may come. */
  lemma ExpectedAt(voc: Vocabulary, xs: seq<Tokenizer.Lexeme>, ts: seq<Token>, max: nat, i: nat)
    requires Spelled(voc, xs, ts, max) && i < |xs|
    ensures Tokenizer.OperandExpected(Tokenizer.TokensOf(xs[..i])) <==> i == 0 || Opens(ts[i - 1])
  {
    var tks := Tokenizer.TokensOf(xs[..i]);
    if i > 0 {
      SpelledIsClassified(voc, xs[i - 1], ts[i - 1], max);
      assert tks[|tks| - 1] == Tokenizer.TokenOf(xs[i - 1]);
      SameExpectation(voc, tks);
    } else {
      assert tks == [];
    }
  }

  /** What may come behind an operand. */
  predicate Follows(tail: string) {
    tail == "" || Tokenizer.TypeOf(tail[0]) in {
      Tokenizer.space, Tokenizer.addop, Tokenizer.multop, Tokenizer.expop, Tokenizer.rparen, Tokenizer.argsep}
  }

  predicate PlusOrMinus(tail: string) {
    tail != "" && Tokenizer.TypeOf(tail[0]) == Tokenizer.addop
  }

  lemma ValueAlone(x: Tokenizer.Lexeme, tail: string, tks: seq<string>)
    requires !x.Sign? && Follows(tail) && Tokenizer.OperandExpected(tks)
    ensures Tokenizer.StandsAlone(x, tail, tks) <==> !(x.Number? && x.l.exponent.Some? && PlusOrMinus(tail))
  {
  }

  /** A token behind an operand, by the type of its first character. */
  lemma ClosingSign(voc: Vocabulary, x: Tokenizer.Lexeme, t: Token)
    requires Spells(voc, x, t) && (t.Operator? || t.RParen? || t.Comma?)
    ensures Tokenizer.Print(x) != "" && Follows(Tokenizer.Print(x))
    ensures PlusOrMinus(Tokenizer.Print(x)) <==> x in [Tokenizer.Sign('+'), Tokenizer.Sign('-')]
  {
  }

  /** The text `tail` starts with `gap` blanks and the lexeme y, or ends there. */
  predicate Behind(tail: string, gap: nat, y: Option<Tokenizer.Lexeme>) {
    if gap > 0 then tail != "" && tail[0] == ' '
    else if y.None? then tail == ""
    else Tokenizer.Print(y.value) != "" && tail != "" && tail[0] == Tokenizer.Print(y.value)[0]
  }

  predicate NextRunsOn(x: Tokenizer.Lexeme, gap: nat, y: Option<Tokenizer.Lexeme>) {
    y.Some? && RunsOn(x, gap, y.value)
  }

  lemma OperandAlone(
    voc: Vocabulary, x: Tokenizer.Lexeme, gap: nat, y: Option<Tokenizer.Lexeme>, u: Token, tail: string,
    tks: seq<string>)
    requires !x.Sign? && Tokenizer.OperandExpected(tks) && Behind(tail, gap, y)
    requires y.Some? ==> Spells(voc, y.value, u) && (u.Operator? || u.RParen? || u.Comma?)
    ensures Tokenizer.StandsAlone(x, tail, tks) <==> !NextRunsOn(x, gap, y)
  {
    if y.Some? {
      ClosingSign(voc, y.value, u);
    }
    ValueAlone(x, tail, tks);
  }

  lemma NameAlone(w: string, gap: nat, tail: string, tks: seq<string>)
    requires Behind(tail, gap, Some(Tokenizer.Sign('(')))
    ensures Tokenizer.StandsAlone(Tokenizer.Word(w), tail, tks)
  {
  }

  lemma SignAlone(c: char, tail: string, tks: seq<string>)
    requires c == '-' ==> !Tokenizer.OperandExpected(tks)
    ensures Tokenizer.StandsAlone(Tokenizer.Sign(c), tail, tks)
  {
  }

  /** One token between its neighbours: what the tokenizer sees of them. */
  lemma TokenAlone(
    voc: Vocabulary, x: Tokenizer.Lexeme, t: Token, gap: nat, y: Option<Tokenizer.Lexeme>, u: Token, tail: string,
    tks: seq<string>)
    requires Spells(voc, x, t) && Behind(tail, gap, y)
    requires if y.Some? then Spells(voc, y.value, u) && Allowed(t, u) else Closes(t)
    requires t.Num? ==> Tokenizer.OperandExpected(tks)
    requires t.Operator? ==> !Tokenizer.OperandExpected(tks)
    ensures Tokenizer.StandsAlone(x, tail, tks) <==> !NextRunsOn(x, gap, y)
  {
    if t.Num? {
      OperandAlone(voc, x, gap, y, u, tail, tks);
    } else if t.Function? {
      assert y == Some(Tokenizer.Sign('('));
      NameAlone(x.w, gap, tail, tks);
    } else {
      SignAlone(x.c, tail, tks);
    }
  }

  function Next(xs: seq<Tokenizer.Lexeme>, i: nat): Option<Tokenizer.Lexeme> {
    if i + 1 < |xs| then Some(xs[i + 1]) else None
  }

  lemma ChainAt(ts: seq<Token>, i: nat)
    requires Chain(ts) && i < |ts|
    ensures if i + 1 < |ts| then Allowed(ts[i], ts[i + 1]) else Closes(ts[i])
    ensures ts[i].Num? ==> i == 0 || Opens(ts[i - 1])
    ensures ts[i].Operator? ==> i > 0 && !Opens(ts[i - 1])
  {
    assert i > 0 ==> Allowed(ts[i - 1], ts[i]);
    assert i + 1 < |ts| ==> Allowed(ts[i + 1 - 1], ts[i + 1]);
  }

  lemma AloneAt(
    voc: Vocabulary, xs: seq<Tokenizer.Lexeme>, gaps: seq<nat>, ts: seq<Token>, max: nat, i: nat)
    requires Spelled(voc, xs, ts, max) && |gaps| == |xs| + 1 && Chain(ts) && i < |xs|
    ensures Tokenizer.StandsAlone(xs[i], Tokenizer.Text(xs, gaps, i + 1), Tokenizer.TokensOf(xs[..i]))
       <==> !NextRunsOn(xs[i], gaps[i + 1], Next(xs, i))
  {
    var tail, y := Tokenizer.Text(xs, gaps, i + 1), Next(xs, i);
    assert Behind(tail, gaps[i + 1], y) by {
      if y.Some? {
        assert Tokenizer.ValidLexeme(xs[i + 1], max);
      }
      TailStart(xs, gaps, i + 1);
    }
    ChainAt(ts, i);
    ExpectedAt(voc, xs, ts, max, i);
    TokenAlone(
      voc, xs[i], ts[i], gaps[i + 1], y, if y.Some? then ts[i + 1] else RParen, tail, Tokenizer.TokensOf(xs[..i]));
  }

  /** The text of a tree is cut into its tokens exactly when no number runs on into a sign. */
  lemma TreeIsRead(
    voc: Vocabulary, e: Expr, xs: seq<Tokenizer.Lexeme>, gaps: seq<nat>, max: nat)
    requires Spelled(voc, xs, Tokens(e), max) && |gaps| == |xs| + 1
    ensures Tokenizer.Lex(Tokenizer.Text(xs, gaps, 0), [], max) == Tokenizer.TokensOf(xs) <==> NothingRunsOn(xs, gaps)
  {
    TreeChain(e);
    forall i | 0 <= i < |xs|
      ensures Tokenizer.StandsAlone(xs[i], Tokenizer.Text(xs, gaps, i + 1), Tokenizer.TokensOf(xs[..i]))
         <==> !NextRunsOn(xs[i], gaps[i + 1], Next(xs, i))
    {
      AloneAt(voc, xs, gaps, Tokens(e), max, i);
    }
    assert NothingRunsOn(xs, gaps) <==>
      forall i :: 0 <= i < |xs| ==> !NextRunsOn(xs[i], gaps[i + 1], Next(xs, i));
    Tokenizer.TokenizeUndoesPrint(xs, gaps, max);
  }

  // ----- the plausibility test

  /** As many brackets are opened as closed, and there is a value. */
  ghost predicate Balanced(ts: seq<Token>) {
    multiset(ts)[LParen] == multiset(ts)[RParen] && exists i :: 0 <= i < |ts| && ts[i].Num?
  }

  lemma BalancedJoin(s: seq<Token>, t: Token, u: seq<Token>)
    requires Balanced(s) && Balanced(u) && t != LParen && t != RParen
    ensures Balanced(s + [t] + u)
  {
    var i :| 0 <= i < |s| && s[i].Num?;
    assert (s + [t] + u)[i] == s[i];
  }

  lemma BalancedBrackets(s: seq<Token>)
    requires Balanced(s)
    ensures Balanced([LParen] + s + [RParen])
    ensures forall f :: Balanced([Function(f), LParen] + s + [RParen])
  {
    var i :| 0 <= i < |s| && s[i].Num?;
    var v := [LParen] + s + [RParen];
    assert v[i + 1] == s[i];
    forall f
      ensures Balanced([Function(f), LParen] + s + [RParen])
    {
      assert [Function(f), LParen] + s + [RParen] == [Function(f)] + v;
      assert ([Function(f)] + v)[i + 2] == s[i];
    }
  }

  lemma {:induction false} TreeBalanced(e: Expr)
    ensures Balanced(Tokens(e))
  {
    match e {
      case Literal(_) =>
        assert Tokens(e)[0].Num?;
      case Binary(op, l, r) =>
        TreeBalanced(l);
        TreeBalanced(r);
        BalancedJoin(Tokens(l), Operator(op), Tokens(r));
      case Paren(e') =>
        TreeBalanced(e');
        BalancedBrackets(Tokens(e'));
      case Call(f, args) =>
        ArgsBalanced(args);
        BalancedBrackets(ArgTokens(args));
    }
  }

  lemma {:induction false} ArgsBalanced(args: Args)
    ensures Balanced(ArgTokens(args))
  {
    TreeBalanced(args.e);
    if args.More? {
      ArgsBalanced(args.rest);
      BalancedJoin(Tokens(args.e), Comma, ArgTokens(args.rest));
    }
  }

  /** Whether tokenize counts a token among the brackets, or among the operators. */
  lemma CountedAs(voc: Vocabulary, x: Tokenizer.Lexeme, t: Token, max: nat)
    requires Tokenizer.ValidLexeme(x, max) && Spells(voc, x, t)
    ensures var tk := Tokenizer.TokenOf(x);
      && Tokenizer.One(tk, {Tokenizer.lparen}) == (if t == LParen then 1 else 0)
      && Tokenizer.One(tk, {Tokenizer.rparen}) == (if t == RParen then 1 else 0)
      && Tokenizer.One(tk, Tokenizer.OPERATORS) == (if t.Operator? then 1 else 0)
  {
    if x.Number? {
      NumberIsNoSign(x.l);
    }
  }

  lemma NumberIsNoSign(l: Tokenizer.Literal)
    requires Tokenizer.ValidLiteral(l)
    ensures var tk := Tokenizer.TokenOf(Tokenizer.Number(l));
      |tk| == 1 ==> Tokenizer.TypeOf(tk[0]) in {Tokenizer.digit, Tokenizer.decimal}
  {
    var u := Tokenizer.Unsigned(l);
    if l.whole == "" {
      assert u[0] == '.';
    } else {
      assert u[0] == l.whole[0];
    }
  }

  function Operators(ts: seq<Token>): nat {
    if ts == [] then 0 else Operators(ts[..|ts| - 1]) + if ts[|ts| - 1].Operator? then 1 else 0
  }

  ghost predicate CountsAgree(tks: seq<string>, ts: seq<Token>) {
    && Tokenizer.CountOf(tks, {Tokenizer.lparen}) == multiset(ts)[LParen]
    && Tokenizer.CountOf(tks, {Tokenizer.rparen}) == multiset(ts)[RParen]
    && Tokenizer.CountOf(tks, Tokenizer.OPERATORS) == Operators(ts)
  }

  lemma CountsNext(voc: Vocabulary, tks: seq<string>, ts: seq<Token>, x: Tokenizer.Lexeme, t: Token, max: nat)
    requires CountsAgree(tks, ts) && Tokenizer.ValidLexeme(x, max) && Spells(voc, x, t)
    ensures CountsAgree(tks + [Tokenizer.TokenOf(x)], ts + [t])
  {
    var tk := Tokenizer.TokenOf(x);
    Tokenizer.CountNext(tks, tk, {Tokenizer.lparen});
    Tokenizer.CountNext(tks, tk, {Tokenizer.rparen});
    Tokenizer.CountNext(tks, tk, Tokenizer.OPERATORS);
    CountedAs(voc, x, t, max);
    assert (ts + [t])[..|ts|] == ts;
  }

  lemma CountsOfNothing(tks: seq<string>, ts: seq<Token>)
    requires tks == [] && ts == []
    ensures CountsAgree(tks, ts)
  {
  }

  lemma SpelledFront(voc: Vocabulary, xs: seq<Tokenizer.Lexeme>, ts: seq<Token>, max: nat, k: nat)
    requires Spelled(voc, xs, ts, max) && k == |xs| - 1
    ensures Spelled(voc, xs[..k], ts[..k], max)
    ensures Tokenizer.ValidLexeme(xs[k], max) && Spells(voc, xs[k], ts[k])
  {
    var xs', ts' := xs[..k], ts[..k];
    forall i | 0 <= i < k
      ensures Tokenizer.ValidLexeme(xs'[i], max) && Spells(voc, xs'[i], ts'[i])
    {
      assert xs'[i] == xs[i] && ts'[i] == ts[i];
    }
  }

  lemma {:induction false} CountsOfSpelled(
    voc: Vocabulary, xs: seq<Tokenizer.Lexeme>, ts: seq<Token>, max: nat)
    requires Spelled(voc, xs, ts, max)
    ensures CountsAgree(Tokenizer.TokensOf(xs), ts)
  {
    if xs == [] {
      CountsOfNothing(Tokenizer.TokensOf(xs), ts);
    } else {
      var k := |xs| - 1;
      SpelledFront(voc, xs, ts, max, k);
      CountsOfSpelled(voc, xs[..k], ts[..k], max);
      CountsNext(voc, Tokenizer.TokensOf(xs[..k]), ts[..k], xs[k], ts[k], max);
      Tokenizer.TokensSnoc(xs, k);
      LastApart(ts, k);
    }
  }

  lemma LastApart<T>(s: seq<T>, k: nat)
    requires k == |s| - 1
    ensures s == s[..k] + [s[k]]
  {
  }

  /** A value is neither a bracket nor an operator. */
  lemma {:induction false} NotAllCounted(ts: seq<Token>, i: nat)
    requires i < |ts| && ts[i].Num?
    ensures multiset(ts)[LParen] + multiset(ts)[RParen] + Operators(ts) < |ts|
  {
    var n := |ts| - 1;
    LastApart(ts, n);
    if i < n {
      NotAllCounted(ts[..n], i);
    } else {
      AtMostAll(ts[..n]);
    }
  }

  lemma {:induction false} AtMostAll(ts: seq<Token>)
    ensures multiset(ts)[LParen] + multiset(ts)[RParen] + Operators(ts) <= |ts|
  {
    if ts != [] {
      var n := |ts| - 1;
      LastApart(ts, n);
      AtMostAll(ts[..n]);
    }
  }

  lemma TreeIsPlausible(voc: Vocabulary, e: Expr, xs: seq<Tokenizer.Lexeme>, max: nat)
    requires Spelled(voc, xs, Tokens(e), max)
    ensures Tokenizer.Plausible(Tokenizer.TokensOf(xs))
  {
    var ts := Tokens(e);
    TreeBalanced(e);
    var i :| 0 <= i < |ts| && ts[i].Num?;
    NotAllCounted(ts, i);
    CountsOfSpelled(voc, xs, ts, max);
  }

  // ----- from the text to the value

  /** What calculator_calc makes of a text: the output stack at the end, or a failure. */
  function Outcome(fpu: Fpu, voc: Vocabulary, formula: string, max: nat): Result<seq<Item>> {
    var tks := Tokenizer.Lex(formula, [], max);
    if Tokenizer.Plausible(tks) then Run(fpu, Classified(voc, tks), State([], [])) else Fault
  }

  /** calculator_calc, without the commands of the interactive program. */
  method Calculate(fpu: Fpu, sp: Specials, voc: Vocabulary, formula: string, max: nat)
    returns (exit: Exit, result: Item, overrun: bool)
    requires max > 0 && '\0' !in formula
    ensures overrun <==> Tokenizer.Overruns(Tokenizer.Lex(formula, [], max), max)
    ensures formula == "" ==> exit == Done(-1)
    ensures formula != "" ==>
      match Outcome(fpu, voc, formula, max)
      case Ok(out) => if |out| == 1 then exit == Done(0) && out == [result] else exit == Done(-EFAULT)
      case Fault => exit == Done(-EFAULT)
      case Crash => exit == Crashed
  {
    result, overrun := Val(sp.nan), false;
    if |formula| == 0 {
      return Done(-1), result, overrun;
    }
    var tokens;
    tokens, overrun := Tokenizer.Tokenize(formula, max);
    if tokens.None? {
      return Done(-EFAULT), result, overrun;
    }
    exit, result := Calc(fpu, sp, Classified(voc, tokens.value));
  }

  /** A text with more brackets of one kind than of the other is refused. */
  lemma UnequalBracketsFail(fpu: Fpu, voc: Vocabulary, formula: string, max: nat)
    requires Tokenizer.CharsOf(formula, '(') != Tokenizer.CharsOf(formula, ')')
    ensures Outcome(fpu, voc, formula, max) == Fault
  {
    Tokenizer.BracketsCounted(formula, [], max, '(');
    Tokenizer.BracketsCounted(formula, [], max, ')');
  }

  /** A text gives what it gives up to its first invalid character. */
  lemma InvalidEndsFormula(fpu: Fpu, voc: Vocabulary, a: string, tail: string, max: nat)
    requires tail != "" && Tokenizer.TypeOf(tail[0]) == Tokenizer.invalid
    ensures Outcome(fpu, voc, a + tail, max) == Outcome(fpu, voc, a, max)
  {
    Tokenizer.InvalidEnds(a, tail, [], max);
  }

  /**
   The text of a tree of the grammar, with any number of blanks between the tokens, gives the value of the tree, if
   no number with an exponent is followed by + or - without a blank.
   */
  lemma FormulaIsCorrect(
    fpu: Fpu, voc: Vocabulary, e: Expr, xs: seq<Tokenizer.Lexeme>, gaps: seq<nat>, max: nat)
    requires WellFormed(e) && Spelled(voc, xs, Tokens(e), max) && |gaps| == |xs| + 1 && NothingRunsOn(xs, gaps)
    ensures Outcome(fpu, voc, Tokenizer.Text(xs, gaps, 0), max) ==
      if Placed(e, 0) && Value(fpu, e).Some? then Ok([Val(Value(fpu, e).value)]) else Fault
    ensures !Tokenizer.Overruns(Tokenizer.Lex(Tokenizer.Text(xs, gaps, 0), [], max), max)
  {
    TreeIsRead(voc, e, xs, gaps, max);
    TreeIsPlausible(voc, e, xs, max);
    SpelledTokens(voc, xs, Tokens(e), max);
    CalculatorIsCorrect(fpu, e);
  }

  /** Without the blank a sum with such a number, as in 1e5+3, is read as one number. */
  lemma SumIsOneNumber(l: Tokenizer.Literal, sign: char, d: string, max: nat)
    requires Tokenizer.ValidLiteral(l) && !l.negative && l.whole != "" && l.exponent.Some?
    requires (sign == '+' || sign == '-') && Tokenizer.Digits(d)
    requires |Tokenizer.Unsigned(l)| + |d| < max
    ensures var formula := Tokenizer.Unsigned(l) + ([sign] + d);
      Tokenizer.Lex(formula, [], max) == [formula]
  {
    var u := Tokenizer.Unsigned(l);
    var c, rest := l.whole[0], u[1..] + ([sign] + d);
    SignReadOn(l, sign, d, max);
    Tokenizer.UnsignedStart(l);
    assert u + ([sign] + d) == [c] + rest;
    NumberAlone(c, rest, max);
  }

  /** A text that is one number. */
  lemma NumberAlone(c: char, rest: string, max: nat)
    requires Tokenizer.TypeOf(c) == Tokenizer.digit && Tokenizer.NumberRest(rest, false, false, max) == |rest|
    ensures Tokenizer.Lex([c] + rest, [], max) == [[c] + rest]
  {
    assert rest + "" == rest;
    Tokenizer.NumberToken(c, rest, "", [], max);
    OneToken([c] + rest, max);
  }

  lemma SignReadOn(l: Tokenizer.Literal, sign: char, d: string, max: nat)
    requires Tokenizer.ValidLiteral(l) && l.whole != "" && l.exponent.Some?
    requires (sign == '+' || sign == '-') && Tokenizer.Digits(d)
    requires |Tokenizer.Unsigned(l)| + |d| <= max
    ensures var rest := Tokenizer.Unsigned(l)[1..] + ([sign] + d);
      Tokenizer.NumberRest(rest, false, false, max) == |rest|
  {
    var room := max - (|Tokenizer.Unsigned(l)| - 1);
    Tokenizer.LiteralRead(l, 1, [sign] + d, max);
    Tokenizer.NumberStep(sign, d, l.fraction.Some?, true, room);
    DigitsToTheEnd(d, l.fraction.Some?, room - 1);
  }

  lemma OneToken(t: string, max: nat)
    requires Tokenizer.ReadAs(t, t, true, "", [], max)
    ensures Tokenizer.Lex(t, [], max) == [t]
  {
    assert t + "" == t;
    Tokenizer.LexOne(t, t, "", [], max);
  }

  lemma DigitsToTheEnd(d: string, dec: bool, room: nat)
    requires Tokenizer.Digits(d) && |d| <= room
    ensures Tokenizer.NumberRest(d, dec, true, room) == |d|
  {
    assert d + "" == d;
    Tokenizer.NumberDigits(d, "", dec, true, room);
  }

  // ----- the words of the calculator

  const UNARY: seq<string> := [
    "abs", "floor", "ceil", "sin", "cos", "tan", "arcsin", "arccos", "arctan", "asin", "acos", "atan",
    "sqrt", "cbrt", "log", "exp"]

  function NameOf(f: Func): string {
    match f
    case Min => "min"
    case Max => "max"
    case Sum => "sum"
    case Avg => "avg"
    case Mean => "mean"
    case Median => "median"
    case Var => "var"
    case Unary(name) => name
  }

  /** isFunction, and the function that doFunc then computes. */
  function FunctionNamed(tk: string): Option<Func> {
    if tk == "min" then Some(Min)
    else if tk == "max" then Some(Max)
    else if tk == "sum" then Some(Sum)
    else if tk == "avg" then Some(Avg)
    else if tk == "mean" then Some(Mean)
    else if tk == "median" then Some(Median)
    else if tk == "var" then Some(Var)
    else if tk in UNARY then Some(Unary(tk))
    else None
  }

  /** The vocabulary of the source, for some conversion of numbers. */
  function Words(strtod: string -> number): Vocabulary {
    Vocabulary(strtod, FunctionNamed)
  }

  predicate InSource(f: Func) {
    f.Unary? ==> f.name in UNARY
  }

  predicate Letters(w: string) {
    0 < |w| <= 6 && forall i :: 0 <= i < |w| ==> 'a' <= w[i] <= 'z'
  }

  /** What tells the names of the one-argument functions from the others. */
  predicate UnaryInitials(w: string) {
    && |w| >= 2 && w[0] != 'm' && w[0] != 'v'
    && (w[0] == 'a' ==> w[1] != 'v') && (w[0] == 's' ==> w[1] != 'u')
  }

  lemma UnaryNames()
    ensures forall i :: 0 <= i < |UNARY| ==> Letters(UNARY[i]) && UnaryInitials(UNARY[i])
  {
  }

  lemma UnaryNamed(w: string)
    requires UnaryInitials(w) && w in UNARY
    ensures FunctionNamed(w) == Some(Unary(w))
  {
  }

  lemma AggregateNamed(f: Func)
    requires !f.Unary?
    ensures FunctionNamed(NameOf(f)) == Some(f) && Letters(NameOf(f))
  {
  }

  /** Every function of the source is named by a word that can be written in a formula. */
  lemma NamesAreRead(f: Func, max: nat)
    requires InSource(f) && max >= 6
    ensures FunctionNamed(NameOf(f)) == Some(f) && Tokenizer.ValidLexeme(Tokenizer.Word(NameOf(f)), max)
  {
    if f.Unary? {
      UnaryNames();
      var i :| 0 <= i < |UNARY| && UNARY[i] == f.name;
      UnaryNamed(f.name);
    } else {
      AggregateNamed(f);
    }
    LettersAreText(NameOf(f));
  }

  lemma LettersAreText(w: string)
    requires Letters(w)
    ensures forall i :: 0 <= i < |w| ==> Tokenizer.TypeOf(w[i]) == Tokenizer.text
  {
  }

  /** How a tree is written, when numbers are written in a given way. */
  function LexemeOf(spell: number -> Tokenizer.Literal, t: Token): Tokenizer.Lexeme {
    match t
    case Num(n) => Tokenizer.Number(spell(n))
    case Operator(op) => Tokenizer.Sign(SignOf(op))
    case LParen => Tokenizer.Sign('(')
    case RParen => Tokenizer.Sign(')')
    case Comma => Tokenizer.Sign(',')
    case Function(f) => Tokenizer.Word(NameOf(f))
    case Identifier(w) => Tokenizer.Word(w)
  }

  function Lexemes(spell: number -> Tokenizer.Literal, ts: seq<Token>): (r: seq<Tokenizer.Lexeme>)
    ensures |r| == |ts|
  {
    seq(|ts|, i requires 0 <= i < |ts| => LexemeOf(spell, ts[i]))
  }

  /** The token can be written: the number as a short literal that is converted back, the function by its name. */
  predicate Writable(strtod: string -> number, spell: number -> Tokenizer.Literal, t: Token, max: nat) {
    match t
    case Num(n) =>
      var x := Tokenizer.Number(spell(n));
      Tokenizer.ValidLexeme(x, max) && strtod(Tokenizer.TokenOf(x)) == n
    case Function(f) => InSource(f)
    case Identifier(_) => false
    case _ => true
  }

  lemma WritableIsSpelled(strtod: string -> number, spell: number -> Tokenizer.Literal, t: Token, max: nat)
    requires Writable(strtod, spell, t, max) && max >= 6
    ensures Tokenizer.ValidLexeme(LexemeOf(spell, t), max) && Spells(Words(strtod), LexemeOf(spell, t), t)
  {
    if t.Function? {
      NamesAreRead(t.f, max);
    }
  }

  /**
   With the functions of the source: a tree over them, written with their names and with short literals, gives its
   value, whatever blanks are between the tokens or left out, but for those behind an exponent.
   */
  lemma SourceFormula(
    fpu: Fpu, strtod: string -> number, e: Expr, spell: number -> Tokenizer.Literal, gaps: seq<nat>, max: nat)
    requires WellFormed(e) && |gaps| == |Tokens(e)| + 1 && max >= 6
    requires forall i :: 0 <= i < |Tokens(e)| ==> Writable(strtod, spell, Tokens(e)[i], max)
    requires NothingRunsOn(Lexemes(spell, Tokens(e)), gaps)
    ensures Outcome(fpu, Words(strtod), Tokenizer.Text(Lexemes(spell, Tokens(e)), gaps, 0), max) ==
      if Placed(e, 0) && Value(fpu, e).Some? then Ok([Val(Value(fpu, e).value)]) else Fault
  {
    var ts := Tokens(e);
    var xs := Lexemes(spell, ts);
    forall i | 0 <= i < |xs|
      ensures Tokenizer.ValidLexeme(xs[i], max) && Spells(Words(strtod), xs[i], ts[i])
    {
      WritableIsSpelled(strtod, spell, ts[i], max);
    }
    FormulaIsCorrect(fpu, Words(strtod), e, xs, gaps, max);
  }
}
