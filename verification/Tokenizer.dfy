/**
 Cutting an expression into tokens, tokenize of src/calculator.c. A minus sign
 belongs to a number when the token before it is one after which an operand is
 expected.
 */
module Tokenizer {
  import opened Wrappers

  datatype Symbol = addop | multop | expop | lparen | rparen | argsep | digit | decimal | space | text | invalid

  /** type */
  function TypeOf(ch: char): Symbol {
    if ch == '+' || ch == '-' then addop
    else if ch == '*' || ch == '/' || ch == '%' then multop
    else if ch == '^' then expop
    else if ch == '(' then lparen
    else if ch == ')' then rparen
    else if ch == '.' then decimal
    else if ch == ' ' then space
    else if ch == ',' then argsep
    else if '0' <= ch <= '9' then digit
    else if 'A' <= ch <= 'Z' || 'a' <= ch <= 'z' then text
    else invalid
  }

  /** tokenType, with one kind for all words and one for all numbers. */
  function TokenType(tk: string): Symbol {
    if tk == "" then invalid
    else
      var s := TypeOf(tk[0]);
      if s == addop && tk[0] == '-' && |tk| > 1 then TokenType(tk[1..])
      else if s == decimal then digit
      else s
  }

  /** After these tokens, or at the beginning, a minus sign is the sign of a number. */
  predicate OperandExpected(tokens: seq<string>) {
    tokens == [] || TokenType(tokens[|tokens| - 1]) in {addop, multop, expop, lparen, argsep}
  }

  predicate IsE(ch: char) {
    ch == 'E' || ch == 'e'
  }

  predicate Continues(ch: char, hasDecimal: bool, hasExponent: bool) {
    || TypeOf(ch) == digit
    || (TypeOf(ch) == decimal && !hasDecimal)
    || (IsE(ch) && !hasExponent)
    || (TypeOf(ch) == addop && hasExponent)
  }

  /** How many characters go on with a number, `room` of them at most. */
  function NumberRest(s: string, hasDecimal: bool, hasExponent: bool, room: nat): (n: nat)
    ensures n <= |s| && n <= room
  {
    if s == "" || room == 0 || !Continues(s[0], hasDecimal, hasExponent) then 0
    else 1 + NumberRest(s[1..], hasDecimal || TypeOf(s[0]) == decimal, hasExponent || IsE(s[0]), room - 1)
  }

  function WordRest(s: string, room: nat): (n: nat)
    ensures n <= |s| && n <= room
  {
    if s == "" || room == 0 || TypeOf(s[0]) != text then 0 else 1 + WordRest(s[1..], room - 1)
  }

  /** The next token of s, which starts with a character other than a blank, and how much of s it takes. */
  function NextToken(s: string, tokens: seq<string>, max: nat): (r: (string, nat))
    requires s != "" && TypeOf(s[0]) !in {space, invalid}
    ensures 0 < r.1 <= |s| && r.0 != ""
  {
    var ch := s[0];
    var n :=
      if TypeOf(ch) == digit then NumberRest(s[1..], false, false, max)
      else if TypeOf(ch) == decimal then NumberRest(s[1..], true, false, if max > 0 then max - 1 else 0)
      else if TypeOf(ch) == text then WordRest(s[1..], max)
      else if ch == '-' && OperandExpected(tokens) then NumberRest(s[1..], false, false, max)
      else 0;
    ((if TypeOf(ch) == decimal then "0." + s[1..n + 1] else s[..n + 1]), n + 1)
  }

  /** All tokens of s, behind those that are already there. The first invalid character ends the text. */
  function Lex(s: string, tokens: seq<string>, max: nat): seq<string>
    decreases |s|
  {
    if s == "" || TypeOf(s[0]) == invalid then tokens
    else if TypeOf(s[0]) == space then Lex(s[1..], tokens, max)
    else
      var (token, n) := NextToken(s, tokens, max);
      Lex(s[n..], tokens + [token], max)
  }

  function CountOf(tokens: seq<string>, kinds: set<Symbol>): nat {
    if tokens == [] then 0
    else
      var t := tokens[|tokens| - 1];
      CountOf(tokens[..|tokens| - 1], kinds) + One(t, kinds)
  }

  const OPERATORS: set<Symbol> := {addop, multop, expop}

  /** Brackets match in number, and there is something besides brackets and operators. */
  predicate Plausible(tokens: seq<string>) {
    && CountOf(tokens, {lparen}) == CountOf(tokens, {rparen})
    && |tokens| != CountOf(tokens, {lparen}) + CountOf(tokens, {rparen}) + CountOf(tokens, OPERATORS)
  }

  lemma CountNext(tokens: seq<string>, t: string, kinds: set<Symbol>)
    ensures CountOf(tokens + [t], kinds) == CountOf(tokens, kinds) + One(t, kinds)
  {
    assert (tokens + [t])[..|tokens|] == tokens;
  }

  /** The counts that tokenize keeps. */
  ghost predicate Counted(tokens: seq<string>, lparens: int, rparens: int, ops: int) {
    && lparens == CountOf(tokens, {lparen}) && rparens == CountOf(tokens, {rparen})
    && ops == CountOf(tokens, OPERATORS)
  }

  function One(t: string, kinds: set<Symbol>): nat {
    if |t| == 1 && TypeOf(t[0]) in kinds then 1 else 0
  }

  lemma CountedNext(tokens: seq<string>, t: string, lparens: int, rparens: int, ops: int)
    requires Counted(tokens, lparens, rparens, ops)
    ensures Counted(
      tokens + [t], lparens + One(t, {lparen}), rparens + One(t, {rparen}), ops + One(t, OPERATORS))
  {
    CountNext(tokens, t, {lparen});
    CountNext(tokens, t, {rparen});
    CountNext(tokens, t, OPERATORS);
  }

  method ScanNumber(s: string, from: nat, hasDecimal: bool, room: nat) returns (n: nat)
    requires from <= |s|
    ensures n == NumberRest(s[from..], hasDecimal, false, room)
  {
    var dec, exp := hasDecimal, false;
    n := 0;
    while from + n < |s| && n < room && Continues(s[from + n], dec, exp)
      invariant from + n <= |s| && n <= room
      invariant NumberRest(s[from..], hasDecimal, false, room) == n + NumberRest(s[from + n..], dec, exp, room - n)
    {
      assert s[from + n..][1..] == s[from + n + 1..];
      if TypeOf(s[from + n]) == decimal {
        dec := true;
      } else if IsE(s[from + n]) {
        exp := true;
      }
      n := n + 1;
    }
  }

  method ScanWord(s: string, from: nat, room: nat) returns (n: nat)
    requires from <= |s|
    ensures n == WordRest(s[from..], room)
  {
    n := 0;
    while from + n < |s| && n < room && TypeOf(s[from + n]) == text
      invariant from + n <= |s| && n <= room
      invariant WordRest(s[from..], room) == n + WordRest(s[from + n..], room - n)
    {
      assert s[from + n..][1..] == s[from + n + 1..];
      n := n + 1;
    }
  }

  /** Assembles the token that starts at ptr; n is how many characters it has after the first. */
  method Assemble(str: string, ptr: nat, tokens: seq<string>, max: nat) returns (token: string, n: nat)
    requires ptr < |str| && TypeOf(str[ptr]) !in {space, invalid} && max > 0
    ensures (token, n + 1) == NextToken(str[ptr..], tokens, max) && ptr + 1 + n <= |str|
    ensures |token| == 1 <==> n == 0 && TypeOf(str[ptr]) != decimal
    ensures |token| == 1 ==> token[0] == str[ptr]
  {
    var ch, sym := str[ptr], TypeOf(str[ptr]);
    ghost var s := str[ptr..];
    assert s[1..] == str[ptr + 1..];
    n := 0;
    match sym {
      case digit =>
        n := ScanNumber(str, ptr + 1, false, max);
      case decimal =>
        n := ScanNumber(str, ptr + 1, true, max - 1);
      case text =>
        n := ScanWord(str, ptr + 1, max);
      case addop =>
        if ch == '-' && OperandExpected(tokens) {
          n := ScanNumber(str, ptr + 1, false, max);
        }
      case _ =>
    }
    token := if sym == decimal then "0." + str[ptr + 1..ptr + 1 + n] else str[ptr..ptr + 1 + n];
    AssembledText(str, ptr, tokens, max, n);
  }

  /** The characters of the token, in the whole text and in the rest of it. */
  lemma AssembledText(str: string, ptr: nat, tokens: seq<string>, max: nat, n: nat)
    requires ptr < |str| && TypeOf(str[ptr]) !in {space, invalid}
    requires NextToken(str[ptr..], tokens, max).1 == n + 1
    ensures ptr + 1 + n <= |str|
    ensures NextToken(str[ptr..], tokens, max).0 ==
      if TypeOf(str[ptr]) == decimal then "0." + str[ptr + 1..ptr + 1 + n] else str[ptr..ptr + 1 + n]
  {
    var s := str[ptr..];
    assert str[ptr..ptr + 1 + n] == s[..n + 1] && str[ptr + 1..ptr + 1 + n] == s[1..n + 1];
  }

  /** How the counts change with a token, by its first character. */
  lemma CountedBy(ch: char, token: string, n: nat, tokens: seq<string>, lparens: int, rparens: int, ops: int)
    requires Counted(tokens, lparens, rparens, ops) && TypeOf(ch) !in {space, invalid}
    requires |token| == 1 <==> n == 0 && TypeOf(ch) != decimal
    requires |token| == 1 ==> token[0] == ch
    ensures Counted(
      tokens + [token],
      lparens + (if n == 0 && TypeOf(ch) == lparen then 1 else 0),
      rparens + (if n == 0 && TypeOf(ch) == rparen then 1 else 0),
      ops + (if n == 0 && TypeOf(ch) in OPERATORS then 1 else 0))
  {
    CountedNext(tokens, token, lparens, rparens, ops);
  }

  lemma LexedAll(str: string, ptr: nat, tokens: seq<string>, max: nat)
    requires LexedTo(str, ptr, tokens, max) && (ptr == |str| || TypeOf(str[ptr]) == invalid)
    ensures Lex(str, [], max) == tokens
  {
  }

  /** The tokens of the text are those that have been found, and those of the rest. */
  ghost predicate LexedTo(str: string, ptr: nat, tokens: seq<string>, max: nat) {
    ptr <= |str| && Lex(str, [], max) == Lex(str[ptr..], tokens, max)
  }

  lemma LexedBlank(str: string, ptr: nat, tokens: seq<string>, max: nat)
    requires LexedTo(str, ptr, tokens, max) && ptr < |str| && TypeOf(str[ptr]) == space
    ensures LexedTo(str, ptr + 1, tokens, max)
  {
    assert str[ptr..][1..] == str[ptr + 1..];
  }

  lemma LexedToken(str: string, ptr: nat, tokens: seq<string>, max: nat, token: string, n: nat)
    requires LexedTo(str, ptr, tokens, max) && ptr < |str| && TypeOf(str[ptr]) !in {space, invalid}
    requires NextToken(str[ptr..], tokens, max) == (token, n + 1)
    ensures LexedTo(str, ptr + 1 + n, tokens + [token], max)
  {
    assert str[ptr..][n + 1..] == str[ptr + 1 + n..];
  }

  /** The buffer for one token has room for max characters and the terminating zero. */
  predicate Overruns(tokens: seq<string>, max: nat) {
    exists i :: 0 <= i < |tokens| && |tokens[i]| > max
  }

  /** A token has at most one character too many, so that only the terminating zero lies behind the buffer. */
  lemma {:induction false} OverrunIsOne(s: string, tokens: seq<string>, max: nat)
    requires max > 0 && forall i :: 0 <= i < |tokens| ==> |tokens[i]| <= max + 1
    ensures forall i :: 0 <= i < |Lex(s, tokens, max)| ==> |Lex(s, tokens, max)[i]| <= max + 1
    decreases |s|
  {
    if s != "" && TypeOf(s[0]) != invalid {
      if TypeOf(s[0]) == space {
        OverrunIsOne(s[1..], tokens, max);
      } else {
        var (token, n) := NextToken(s, tokens, max);
        OverrunIsOne(s[n..], tokens + [token], max);
      }
    }
  }

  lemma OverrunsNext(tokens: seq<string>, t: string, max: nat)
    ensures Overruns(tokens + [t], max) <==> Overruns(tokens, max) || |t| > max
  {
    if Overruns(tokens, max) {
      var i :| 0 <= i < |tokens| && |tokens[i]| > max;
      assert (tokens + [t])[i] == tokens[i];
    }
    assert (tokens + [t])[|tokens|] == t;
  }

  /** What tokenize has found in the first ptr characters. */
  datatype Found = Found(tokens: seq<string>, lparenCount: nat, rparenCount: nat, opsCount: nat, overrun: bool)

  ghost predicate FoundTo(str: string, ptr: nat, max: nat, f: Found) {
    && LexedTo(str, ptr, f.tokens, max)
    && Counted(f.tokens, f.lparenCount, f.rparenCount, f.opsCount)
    && (f.overrun <==> Overruns(f.tokens, max))
  }

  /** One token more; n is how many characters it has after the first. */
  method FindToken(str: string, ptr: nat, max: nat, f: Found) returns (found: Found, n: nat)
    requires max > 0 && ptr < |str| && TypeOf(str[ptr]) !in {space, invalid} && FoundTo(str, ptr, max, f)
    ensures FoundTo(str, ptr + 1 + n, max, found)
  {
    var token;
    token, n := Assemble(str, ptr, f.tokens, max);
    LexedToken(str, ptr, f.tokens, max, token, n);
    CountedBy(str[ptr], token, n, f.tokens, f.lparenCount, f.rparenCount, f.opsCount);
    OverrunsNext(f.tokens, token, max);
    var sym := TypeOf(str[ptr]);
    found := f.(tokens := f.tokens + [token], overrun := f.overrun || |token| > max);
    if n == 0 {
      if sym == lparen {
        found := found.(lparenCount := f.lparenCount + 1);
      } else if sym == rparen {
        found := found.(rparenCount := f.rparenCount + 1);
      } else if sym == multop || sym == expop || sym == addop {
        found := found.(opsCount := f.opsCount + 1);
      }
    }
  }

  /**
   tokenize, with tokens of at most max characters; None for the errors of the
   source. `overrun` tells whether it writes behind the buffer for the token.
   */
  method Tokenize(str: string, max: nat) returns (result: Option<seq<string>>, overrun: bool)
    requires max > 0 && '\0' !in str
    ensures overrun <==> Overruns(Lex(str, [], max), max)
    ensures result == if str == "" || !Plausible(Lex(str, [], max)) then None else Some(Lex(str, [], max))
  {
    if |str| == 0 {
      return None, false;
    }
    var f := Found([], 0, 0, 0, false);
    var ptr := 0;
    assert str[0..] == str;
    while ptr < |str| && TypeOf(str[ptr]) != invalid
      invariant ptr <= |str| && FoundTo(str, ptr, max, f)
    {
      if TypeOf(str[ptr]) == space {
        LexedBlank(str, ptr, f.tokens, max);
        ptr := ptr + 1;
      } else {
        var n;
        f, n := FindToken(str, ptr, max, f);
        ptr := ptr + 1 + n;
      }
    }
    LexedAll(str, ptr, f.tokens, max);
    if f.lparenCount != f.rparenCount {
      return None, f.overrun;
    }
    if |f.tokens| == f.lparenCount + f.rparenCount + f.opsCount {
      return None, f.overrun;
    }
    return Some(f.tokens), f.overrun;
  }

  // ----- brackets, and the end of the text

  /** How often c stands in the text before the first invalid character. */
  function CharsOf(s: string, c: char): nat {
    if s == "" || TypeOf(s[0]) == invalid then 0 else (if s[0] == c then 1 else 0) + CharsOf(s[1..], c)
  }

  predicate InsideToken(c: char) {
    TypeOf(c) in {digit, decimal, text, addop}
  }

  lemma {:induction false} NumberChars(s: string, dec: bool, exp: bool, room: nat)
    ensures forall i :: 0 <= i < NumberRest(s, dec, exp, room) ==> InsideToken(s[i])
    decreases |s|
  {
    if s != "" && room > 0 && Continues(s[0], dec, exp) {
      NumberChars(s[1..], dec || TypeOf(s[0]) == decimal, exp || IsE(s[0]), room - 1);
    }
  }

  lemma {:induction false} WordChars(s: string, room: nat)
    ensures forall i :: 0 <= i < WordRest(s, room) ==> InsideToken(s[i])
  {
    if s != "" && room > 0 && TypeOf(s[0]) == text {
      WordChars(s[1..], room - 1);
    }
  }

  /** Behind its first character a token has no brackets and nothing invalid. */
  lemma TokenChars(s: string, tokens: seq<string>, max: nat)
    requires s != "" && TypeOf(s[0]) !in {space, invalid}
    ensures forall i :: 1 <= i < NextToken(s, tokens, max).1 ==> InsideToken(s[i])
    ensures TypeOf(s[0]) in {lparen, rparen} ==> NextToken(s, tokens, max) == ([s[0]], 1)
  {
    var rest := s[1..];
    NumberChars(rest, false, false, max);
    NumberChars(rest, true, false, if max > 0 then max - 1 else 0);
    WordChars(rest, max);
    assert forall i :: 1 <= i < |s| ==> s[i] == rest[i - 1];
    assert s[..1] == [s[0]];
  }

  lemma {:induction false} CharsSkipped(s: string, n: nat, c: char)
    requires n <= |s| && c in {'(', ')'} && forall i :: 0 <= i < n ==> InsideToken(s[i])
    ensures CharsOf(s, c) == CharsOf(s[n..], c)
    decreases n
  {
    if n == 0 {
      assert s[0..] == s;
    } else {
      CharsSkipped(s[1..], n - 1, c);
      assert s[1..][n - 1..] == s[n..];
    }
  }

  /** A bracket is always a token of its own, and one token only. */
  lemma OneBracket(s: string, tokens: seq<string>, max: nat, c: char)
    requires s != "" && TypeOf(s[0]) !in {space, invalid} && c in {'(', ')'}
    ensures One(NextToken(s, tokens, max).0, {TypeOf(c)}) == if s[0] == c then 1 else 0
  {
    TokenChars(s, tokens, max);
  }

  /** The brackets that tokenize counts are those in the text. */
  lemma {:induction false} BracketsCounted(s: string, tokens: seq<string>, max: nat, c: char)
    requires c in {'(', ')'}
    ensures CountOf(Lex(s, tokens, max), {TypeOf(c)}) == CountOf(tokens, {TypeOf(c)}) + CharsOf(s, c)
    decreases |s|
  {
    if s != "" && TypeOf(s[0]) != invalid {
      if TypeOf(s[0]) == space {
        BracketsCounted(s[1..], tokens, max, c);
      } else {
        var (token, n) := NextToken(s, tokens, max);
        BracketsCounted(s[n..], tokens + [token], max, c);
        CountNext(tokens, token, {TypeOf(c)});
        OneBracket(s, tokens, max, c);
        TokenChars(s, tokens, max);
        assert forall i :: 0 <= i < n - 1 ==> s[1..][i] == s[i + 1];
        CharsSkipped(s[1..], n - 1, c);
        assert s[1..][n - 1..] == s[n..];
      }
    }
  }

  lemma {:induction false} NumberCut(a: string, tail: string, dec: bool, exp: bool, room: nat)
    requires tail != "" && TypeOf(tail[0]) == invalid
    ensures NumberRest(a + tail, dec, exp, room) == NumberRest(a, dec, exp, room)
    decreases |a|
  {
    if a == "" {
      assert a + tail == tail;
    } else {
      assert (a + tail)[1..] == a[1..] + tail;
      if room > 0 {
        NumberCut(a[1..], tail, dec || TypeOf(a[0]) == decimal, exp || IsE(a[0]), room - 1);
      }
    }
  }

  lemma {:induction false} WordCut(a: string, tail: string, room: nat)
    requires tail != "" && TypeOf(tail[0]) == invalid
    ensures WordRest(a + tail, room) == WordRest(a, room)
  {
    if a == "" {
      assert a + tail == tail;
    } else {
      assert (a + tail)[1..] == a[1..] + tail;
      if room > 0 {
        WordCut(a[1..], tail, room - 1);
      }
    }
  }

  lemma TokenCut(a: string, tail: string, tokens: seq<string>, max: nat)
    requires a != "" && TypeOf(a[0]) !in {space, invalid} && tail != "" && TypeOf(tail[0]) == invalid
    ensures NextToken(a + tail, tokens, max) == NextToken(a, tokens, max)
  {
    var s := a + tail;
    assert s[1..] == a[1..] + tail;
    NumberCut(a[1..], tail, false, false, max);
    NumberCut(a[1..], tail, true, false, if max > 0 then max - 1 else 0);
    WordCut(a[1..], tail, max);
    var n := NextToken(a, tokens, max).1;
    assert s[..n] == a[..n] && s[1..n] == a[1..n];
  }

  /** Nothing behind an invalid character is looked at. */
  lemma {:induction false} InvalidEnds(a: string, tail: string, tokens: seq<string>, max: nat)
    requires tail != "" && TypeOf(tail[0]) == invalid
    ensures Lex(a + tail, tokens, max) == Lex(a, tokens, max)
    decreases |a|
  {
    if a == "" {
      assert a + tail == tail;
    } else if TypeOf(a[0]) == space {
      assert (a + tail)[1..] == a[1..] + tail;
      InvalidEnds(a[1..], tail, tokens, max);
    } else if TypeOf(a[0]) != invalid {
      TokenCut(a, tail, tokens, max);
      var (token, n) := NextToken(a, tokens, max);
      assert (a + tail)[n..] == a[n..] + tail;
      InvalidEnds(a[n..], tail, tokens + [token], max);
    }
  }

  // ----- printing and reading back

  datatype Literal = Literal(
    negative: bool, whole: string, fraction: Option<string>, exponent: Option<(char, string, string)>)

  predicate Digits(s: string) {
    forall i :: 0 <= i < |s| ==> TypeOf(s[i]) == digit
  }

  /** Digits, a point and digits, or both, and perhaps an exponent with or without a sign. */
  predicate ValidLiteral(l: Literal) {
    && Digits(l.whole)
    && (l.whole == "" ==> l.fraction.Some?)
    && (l.fraction.Some? ==> Digits(l.fraction.value))
    && (l.exponent.Some? ==>
      IsE(l.exponent.value.0) && l.exponent.value.1 in ["", "+", "-"] && Digits(l.exponent.value.2))
  }

  function FractionText(l: Literal): string {
    if l.fraction.Some? then "." + l.fraction.value else ""
  }

  function ExponentText(l: Literal): string {
    if l.exponent.Some? then [l.exponent.value.0] + (l.exponent.value.1 + l.exponent.value.2) else ""
  }

  function Unsigned(l: Literal): string {
    l.whole + (FractionText(l) + ExponentText(l))
  }

  datatype Lexeme = Sign(c: char) | Number(l: Literal) | Word(w: string)

  function Print(x: Lexeme): string {
    match x
    case Sign(c) => [c]
    case Number(l) => if l.negative then "-" + Unsigned(l) else Unsigned(l)
    case Word(w) => w
  }

  /** The token for a lexeme: a number that starts with its point gets a zero in front. */
  function TokenOf(x: Lexeme): string {
    if x.Number? && !x.l.negative && x.l.whole == "" then "0" + Print(x) else Print(x)
  }

  function TokensOf(xs: seq<Lexeme>): (r: seq<string>)
    ensures |r| == |xs|
  {
    seq(|xs|, i requires 0 <= i < |xs| => TokenOf(xs[i]))
  }

  predicate ValidLexeme(x: Lexeme, max: nat) {
    && |TokenOf(x)| <= max
    && match x
       case Sign(c) => TypeOf(c) in {addop, multop, expop, lparen, rparen, argsep}
       case Number(l) => ValidLiteral(l)
       case Word(w) => w != "" && forall i :: 0 <= i < |w| ==> TypeOf(w[i]) == text
  }

  /** Before the text `tail` and behind these tokens the lexeme is a token of its own. */
  predicate StandsAlone(x: Lexeme, tail: string, tokens: seq<string>) {
    match x
    case Sign(c) => c == '-' && OperandExpected(tokens) ==> tail == "" || !Continues(tail[0], false, false)
    case Number(l) =>
      (l.negative ==> OperandExpected(tokens)) && Stops(l, tail)
    case Word(w) => tail == "" || TypeOf(tail[0]) != text
  }

  lemma NumberStep(c: char, s: string, dec: bool, exp: bool, room: nat)
    requires room > 0 && Continues(c, dec, exp)
    ensures NumberRest([c] + s, dec, exp, room)
         == 1 + NumberRest(s, dec || TypeOf(c) == decimal, exp || IsE(c), room - 1)
  {
    assert ([c] + s)[1..] == s;
  }

  lemma {:induction false} NumberDigits(d: string, tail: string, dec: bool, exp: bool, room: nat)
    requires Digits(d) && |d| <= room
    ensures NumberRest(d + tail, dec, exp, room) == |d| + NumberRest(tail, dec, exp, room - |d|)
  {
    if d == "" {
      assert d + tail == tail;
    } else {
      assert [d[0]] + (d[1..] + tail) == d + tail;
      NumberStep(d[0], d[1..] + tail, dec, exp, room);
      NumberDigits(d[1..], tail, dec, exp, room - 1);
    }
  }

  lemma SignedRead(sign: string, d: string, tail: string, dec: bool, room: nat)
    requires sign in ["", "+", "-"] && Digits(d) && |sign| + |d| <= room
    ensures NumberRest(sign + (d + tail), dec, true, room)
         == |sign| + |d| + NumberRest(tail, dec, true, room - |sign| - |d|)
  {
    NumberDigits(d, tail, dec, true, room - |sign|);
    var rest := d + tail;
    if sign == "" {
      assert sign + rest == rest;
    } else {
      assert sign + rest == [sign[0]] + rest;
      SignStep(sign[0], rest, dec, room);
    }
  }

  lemma SignStep(c: char, s: string, dec: bool, room: nat)
    requires room > 0 && (c == '+' || c == '-')
    ensures NumberRest([c] + s, dec, true, room) == 1 + NumberRest(s, dec, true, room - 1)
  {
    NumberStep(c, s, dec, true, room);
  }

  lemma MarkedRead(e: char, sign: string, d: string, tail: string, dec: bool, room: nat)
    requires IsE(e) && sign in ["", "+", "-"] && Digits(d) && 1 + |sign| + |d| <= room
    ensures NumberRest([e] + (sign + (d + tail)), dec, false, room)
         == 1 + |sign| + |d| + NumberRest(tail, dec, true, room - 1 - |sign| - |d|)
  {
    NumberStep(e, sign + (d + tail), dec, false, room);
    SignedRead(sign, d, tail, dec, room - 1);
  }

  lemma ExponentRead(l: Literal, tail: string, dec: bool, room: nat)
    requires ValidLiteral(l) && |ExponentText(l)| <= room
    ensures NumberRest(ExponentText(l) + tail, dec, false, room)
         == |ExponentText(l)| + NumberRest(tail, dec, l.exponent.Some?, room - |ExponentText(l)|)
  {
    if l.exponent.None? {
      assert "" + tail == tail;
    } else {
      var e, sign, d := l.exponent.value.0, l.exponent.value.1, l.exponent.value.2;
      Regroup([e], sign + d, tail);
      Regroup(sign, d, tail);
      MarkedRead(e, sign, d, tail, dec, room);
    }
  }

  /** What is left of the number after its fraction and its exponent. */
  function AfterLiteral(l: Literal, tail: string, room: nat): nat {
    NumberRest(tail, l.fraction.Some?, l.exponent.Some?, room)
  }

  lemma PointRead(d: string, l: Literal, tail: string, room: nat)
    requires ValidLiteral(l) && l.fraction == Some(d) && |d| + |ExponentText(l)| <= room
    ensures NumberRest(d + (ExponentText(l) + tail), true, false, room)
         == |d| + |ExponentText(l)| + AfterLiteral(l, tail, room - |d| - |ExponentText(l)|)
  {
    NumberDigits(d, ExponentText(l) + tail, true, false, room);
    ExponentRead(l, tail, true, room - |d|);
  }

  lemma FractionRead(l: Literal, tail: string, room: nat)
    requires ValidLiteral(l) && |FractionText(l)| + |ExponentText(l)| <= room
    ensures NumberRest(FractionText(l) + (ExponentText(l) + tail), false, false, room)
         == |FractionText(l)| + |ExponentText(l)|
            + AfterLiteral(l, tail, room - |FractionText(l)| - |ExponentText(l)|)
  {
    var rest := ExponentText(l) + tail;
    if l.fraction.None? {
      assert "" + rest == rest;
      ExponentRead(l, tail, false, room);
    } else {
      var d := l.fraction.value;
      assert FractionText(l) + rest == ['.'] + (d + rest);
      NumberStep('.', d + rest, false, false, room);
      PointRead(d, l, tail, room - 1);
    }
  }

  /** From any of its digits on a literal is read to its end, and on from there. */
  lemma LiteralRead(l: Literal, k: nat, tail: string, room: nat)
    requires ValidLiteral(l) && k <= |l.whole| && |Unsigned(l)| - k <= room
    ensures NumberRest(Unsigned(l)[k..] + tail, false, false, room)
         == |Unsigned(l)| - k + AfterLiteral(l, tail, room - (|Unsigned(l)| - k))
  {
    var d, rest := l.whole[k..], FractionText(l) + (ExponentText(l) + tail);
    assert Unsigned(l)[k..] + tail == d + rest;
    NumberDigits(d, rest, false, false, room);
    FractionRead(l, tail, room - |d|);
  }

  lemma {:induction false} WordRead(w: string, tail: string, room: nat)
    requires (forall i :: 0 <= i < |w| ==> TypeOf(w[i]) == text) && |w| <= room
    ensures WordRest(w + tail, room) == |w| + WordRest(tail, room - |w|)
  {
    if w == "" {
      assert w + tail == tail;
    } else {
      assert (w + tail)[1..] == w[1..] + tail;
      WordRead(w[1..], tail, room - 1);
    }
  }

  /** If it stands alone, the next token is `token` and takes all that is printed; else it is another one. */
  ghost predicate ReadAs(printed: string, token: string, alone: bool, tail: string, tokens: seq<string>, max: nat) {
    && printed != "" && TypeOf(printed[0]) !in {space, invalid}
    && var r := NextToken(printed + tail, tokens, max);
       if alone then r == (token, |printed|) else r.0 != token
  }

  lemma NumberToken(c: char, rest: string, tail: string, tokens: seq<string>, max: nat)
    requires TypeOf(c) == digit || (c == '-' && OperandExpected(tokens))
    requires |rest| <= NumberRest(rest + tail, false, false, max)
    ensures ReadAs(
      [c] + rest, [c] + rest, NumberRest(rest + tail, false, false, max) == |rest|, tail, tokens, max)
  {
    var s := [c] + rest + tail;
    assert s[1..] == rest + tail && s[..1 + |rest|] == [c] + rest;
  }

  lemma PointToken(rest: string, tail: string, tokens: seq<string>, max: nat)
    requires max > 0 && |rest| <= NumberRest(rest + tail, true, false, max - 1)
    ensures ReadAs(
      "." + rest, "0." + rest, NumberRest(rest + tail, true, false, max - 1) == |rest|, tail, tokens, max)
  {
    var s := "." + rest + tail;
    assert s[1..] == rest + tail && s[1..1 + |rest|] == rest;
  }

  predicate Stops(l: Literal, tail: string) {
    tail == "" || !Continues(tail[0], l.fraction.Some?, l.exponent.Some?)
  }

  lemma NothingMore(l: Literal, tail: string, room: nat)
    requires room > 0
    ensures AfterLiteral(l, tail, room) == 0 <==> Stops(l, tail)
  {
  }

  lemma UnsignedStart(l: Literal)
    requires ValidLiteral(l) && l.whole != ""
    ensures Unsigned(l) == [l.whole[0]] + Unsigned(l)[1..] && TypeOf(l.whole[0]) == digit
  {
    assert Unsigned(l)[0] == l.whole[0];
  }

  lemma NegativeRead(l: Literal, tail: string, tokens: seq<string>, max: nat)
    requires ValidLiteral(l) && |Unsigned(l)| < max && OperandExpected(tokens)
    ensures ReadAs("-" + Unsigned(l), "-" + Unsigned(l), Stops(l, tail), tail, tokens, max)
  {
    var u := Unsigned(l);
    LiteralRead(l, 0, tail, max);
    assert u[0..] == u;
    NothingMore(l, tail, max - |u|);
    NumberToken('-', u, tail, tokens, max);
  }

  /** Where no operand is expected a minus sign is a token. */
  lemma MinusRead(u: string, tail: string, tokens: seq<string>, max: nat)
    requires u != "" && !OperandExpected(tokens)
    ensures ReadAs("-" + u, "-" + u, false, tail, tokens, max)
  {
    var s := "-" + u + tail;
    assert s[..1] == "-";
  }

  lemma PositiveRead(l: Literal, tail: string, tokens: seq<string>, max: nat)
    requires ValidLiteral(l) && |Unsigned(l)| <= max && l.whole != ""
    ensures ReadAs(Unsigned(l), Unsigned(l), Stops(l, tail), tail, tokens, max)
  {
    var u := Unsigned(l);
    UnsignedStart(l);
    LiteralRead(l, 1, tail, max);
    NothingMore(l, tail, max - (|u| - 1));
    NumberToken(l.whole[0], u[1..], tail, tokens, max);
  }

  lemma FractionFirstRead(l: Literal, tail: string, tokens: seq<string>, max: nat)
    requires ValidLiteral(l) && |Unsigned(l)| < max && l.whole == ""
    ensures ReadAs(Unsigned(l), "0" + Unsigned(l), Stops(l, tail), tail, tokens, max)
  {
    var d := l.fraction.value;
    var rest := d + ExponentText(l);
    PointFirst(l, d);
    Regroup(d, ExponentText(l), tail);
    PointRead(d, l, tail, max - 1);
    NothingMore(l, tail, max - 1 - |rest|);
    PointToken(rest, tail, tokens, max);
  }

  lemma PointFirst(l: Literal, d: string)
    requires l.whole == "" && l.fraction == Some(d)
    ensures Unsigned(l) == "." + (d + ExponentText(l)) && "0" + Unsigned(l) == "0." + (d + ExponentText(l))
  {
  }

  lemma SignRead(c: char, tail: string, tokens: seq<string>, max: nat)
    requires TypeOf(c) in {addop, multop, expop, lparen, rparen, argsep} && max > 0
    ensures ReadAs([c], [c], StandsAlone(Sign(c), tail, tokens), tail, tokens, max)
  {
    var s := [c] + tail;
    assert s[..1] == [c] && s[1..] == tail;
  }

  lemma NameRead(w: string, tail: string, tokens: seq<string>, max: nat)
    requires ValidLexeme(Word(w), max)
    ensures ReadAs(w, w, tail == "" || TypeOf(tail[0]) != text, tail, tokens, max)
  {
    var s := w + tail;
    assert s[1..] == w[1..] + tail && s[..|w|] == w;
    WordRead(w[1..], tail, max);
  }

  /** A printed lexeme is read as its token exactly when it stands alone. */
  lemma OneRead(x: Lexeme, tail: string, tokens: seq<string>, max: nat)
    requires ValidLexeme(x, max)
    ensures ReadAs(Print(x), TokenOf(x), StandsAlone(x, tail, tokens), tail, tokens, max)
  {
    match x {
      case Sign(c) => SignRead(c, tail, tokens, max);
      case Number(l) => NumberRead(l, tail, tokens, max);
      case Word(w) => NameRead(w, tail, tokens, max);
    }
  }

  lemma NumberRead(l: Literal, tail: string, tokens: seq<string>, max: nat)
    requires ValidLexeme(Number(l), max)
    ensures ReadAs(
      Print(Number(l)), TokenOf(Number(l)), StandsAlone(Number(l), tail, tokens), tail, tokens, max)
  {
    if l.negative && OperandExpected(tokens) {
      NegativeRead(l, tail, tokens, max);
    } else if l.negative {
      NotEmpty(l);
      MinusRead(Unsigned(l), tail, tokens, max);
    } else if l.whole == "" {
      FractionFirstRead(l, tail, tokens, max);
    } else {
      PositiveRead(l, tail, tokens, max);
    }
  }

  lemma NotEmpty(l: Literal)
    requires ValidLiteral(l)
    ensures Unsigned(l) != ""
  {
  }

  // ----- whole texts

  function Blanks(n: nat): (s: string)
    ensures |s| == n && forall i :: 0 <= i < n ==> s[i] == ' '
  {
    seq(n, _ => ' ')
  }

  /** The lexemes from i on, each behind some blanks, and the blanks at the end. */
  function Text(xs: seq<Lexeme>, gaps: seq<nat>, i: nat): string
    requires i <= |xs| && |gaps| == |xs| + 1
    decreases |xs| - i
  {
    Blanks(gaps[i]) + if i == |xs| then "" else Print(xs[i]) + Text(xs, gaps, i + 1)
  }

  lemma {:induction false} LexKeeps(s: string, tokens: seq<string>, max: nat)
    ensures tokens <= Lex(s, tokens, max)
    decreases |s|
  {
    if s != "" && TypeOf(s[0]) != invalid {
      if TypeOf(s[0]) == space {
        LexKeeps(s[1..], tokens, max);
      } else {
        var (token, n) := NextToken(s, tokens, max);
        LexKeeps(s[n..], tokens + [token], max);
      }
    }
  }

  lemma {:induction false} LexBlanks(n: nat, s: string, tokens: seq<string>, max: nat)
    ensures Lex(Blanks(n) + s, tokens, max) == Lex(s, tokens, max)
  {
    if n == 0 {
      assert Blanks(n) + s == s;
    } else {
      assert Blanks(n) + s == " " + (Blanks(n - 1) + s);
      LexBlank(Blanks(n - 1) + s, tokens, max);
      LexBlanks(n - 1, s, tokens, max);
    }
  }

  lemma LexBlank(s: string, tokens: seq<string>, max: nat)
    ensures Lex(" " + s, tokens, max) == Lex(s, tokens, max)
  {
    assert (" " + s)[1..] == s;
  }

  lemma LexOne(t: string, token: string, tail: string, tokens: seq<string>, max: nat)
    requires t != "" && TypeOf(t[0]) !in {space, invalid} && NextToken(t + tail, tokens, max) == (token, |t|)
    ensures Lex(t + tail, tokens, max) == Lex(tail, tokens + [token], max)
  {
    assert (t + tail)[|t|..] == tail;
  }

  lemma LexOther(s: string, tokens: seq<string>, max: nat, want: seq<string>)
    requires s != "" && TypeOf(s[0]) !in {space, invalid}
    requires |tokens| < |want| && NextToken(s, tokens, max).0 != want[|tokens|]
    ensures Lex(s, tokens, max) != want
  {
    var (token, n) := NextToken(s, tokens, max);
    LexKeeps(s[n..], tokens + [token], max);
    assert (tokens + [token])[|tokens|] == token;
  }

  /** From the lexeme i on, every lexeme stands alone. */
  ghost predicate AllAlone(xs: seq<Lexeme>, gaps: seq<nat>, i: nat)
    requires i <= |xs| && |gaps| == |xs| + 1
  {
    forall k :: i <= k < |xs| ==> StandsAlone(xs[k], Text(xs, gaps, k + 1), TokensOf(xs[..k]))
  }

  predicate AllValid(xs: seq<Lexeme>, max: nat) {
    forall k :: 0 <= k < |xs| ==> ValidLexeme(xs[k], max)
  }

  lemma AllAloneNext(xs: seq<Lexeme>, gaps: seq<nat>, i: nat)
    requires i < |xs| && |gaps| == |xs| + 1
    ensures AllAlone(xs, gaps, i)
       <==> StandsAlone(xs[i], Text(xs, gaps, i + 1), TokensOf(xs[..i])) && AllAlone(xs, gaps, i + 1)
  {
  }

  lemma TokensNext(xs: seq<Lexeme>, i: nat)
    requires i < |xs|
    ensures TokensOf(xs[..i + 1]) == TokensOf(xs[..i]) + [TokenOf(xs[i])]
  {
  }

  lemma TokensSnoc(xs: seq<Lexeme>, k: nat)
    requires k == |xs| - 1
    ensures TokensOf(xs) == TokensOf(xs[..k]) + [TokenOf(xs[k])]
  {
    TokensNext(xs, k);
    assert xs[..k + 1] == xs;
  }

  /** One lexeme is read, or the tokens differ from here on. */
  lemma ReadNext(xs: seq<Lexeme>, gaps: seq<nat>, i: nat, max: nat, done: seq<string>)
    requires i < |xs| && |gaps| == |xs| + 1 && ValidLexeme(xs[i], max) && |done| == i
    ensures var lexed, tail := Lex(Text(xs, gaps, i), done, max), Text(xs, gaps, i + 1);
      if StandsAlone(xs[i], tail, done) then lexed == Lex(tail, done + [TokenOf(xs[i])], max)
      else lexed != TokensOf(xs)
  {
    var x, tail := xs[i], Text(xs, gaps, i + 1);
    LexBlanks(gaps[i], Print(x) + tail, done, max);
    OneRead(x, tail, done, max);
    if StandsAlone(x, tail, done) {
      LexOne(Print(x), TokenOf(x), tail, done, max);
    } else {
      LexOther(Print(x) + tail, done, max, TokensOf(xs));
    }
  }

  lemma {:induction false} ReadsBack(xs: seq<Lexeme>, gaps: seq<nat>, i: nat, max: nat)
    requires i <= |xs| && |gaps| == |xs| + 1 && AllValid(xs, max)
    ensures Lex(Text(xs, gaps, i), TokensOf(xs[..i]), max) == TokensOf(xs) <==> AllAlone(xs, gaps, i)
    decreases |xs| - i
  {
    var done := TokensOf(xs[..i]);
    if i == |xs| {
      assert xs[..i] == xs && Text(xs, gaps, i) == Blanks(gaps[i]) + "";
      LexBlanks(gaps[i], "", done, max);
    } else {
      ReadNext(xs, gaps, i, max, done);
      TokensNext(xs, i);
      AllAloneNext(xs, gaps, i);
      ReadsBack(xs, gaps, i + 1, max);
    }
  }

  /** A printed text is cut into the tokens of its lexemes exactly when none of them runs into the next. */
  lemma TokenizeUndoesPrint(xs: seq<Lexeme>, gaps: seq<nat>, max: nat)
    requires |gaps| == |xs| + 1 && AllValid(xs, max)
    ensures Lex(Text(xs, gaps, 0), [], max) == TokensOf(xs) <==> AllAlone(xs, gaps, 0)
  {
    ReadsBack(xs, gaps, 0, max);
    assert TokensOf(xs[..0]) == [];
  }
}
