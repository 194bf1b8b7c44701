/**
 Keyword lines of the kernel language as they are written, and how get_name and
 get_argList of src/ptt2asm.c read them.
 */
module Arguments {
  import opened Wrappers
  import opened Splitting
  import opened Nesting
  import opened Rounds
  import opened Ptt
  import opened Compiler

  /** word(a, b, ...) */
  function KeywordLine(word: string, args: seq<string>): string {
    word + "(" + Joined(args, ",") + ")"
  }

  predicate Trimmed(s: string) {
    s != [] ==> !Blank(s[0]) && !Blank(s[|s| - 1])
  }

  predicate PlainArgument(s: string) {
    ',' !in s && ')' !in s && Trimmed(s)
  }

  lemma {:induction false} JoinedPlain(l: seq<string>)
    requires l != [] && forall i :: 0 <= i < |l| ==> PlainArgument(l[i])
    ensures ')' !in Joined(l, ",") && Trimmed(Joined(l, ","))
    ensures IndexOf(Joined(l, ","), ',') == |l[0]|
  {
    var s := Joined(l, ",");
    if |l| > 1 {
      JoinedPlain(l[1..]);
      assert s[..|l[0]|] == l[0] && s[|l[0]|] == ',';
    }
    FirstIndex(s, ',', |l[0]|);
  }

  lemma {:induction false} AllTrimmed(l: seq<string>)
    requires forall i :: 0 <= i < |l| ==> Trimmed(l[i])
    ensures TrimAll(l) == l
  {
    if l != [] {
      AllTrimmed(l[1..]);
    }
  }

  lemma BracketOf(word: string, inner: string)
    requires '(' !in word
    ensures Bracket(word + "(" + inner + ")") == "(" + inner + ")"
  {
    var s := word + "(" + inner + ")";
    assert s[..|word|] == word && s[|word|] == '(';
    FirstIndex(s, '(', |word|);
  }

  lemma ArgsOf(s: string, inner: string)
    requires Bracket(s) == "(" + inner + ")" && ')' !in inner
    ensures GetArgs(s) == SplitTrim(Trim(inner), ',')
  {
    var t, n := Bracket(s), |inner| + 1;
    assert t[1..n] == inner && t[..n] == "(" + inner && t[n] == ')';
    FirstIndex(t, ')', n);
  }

  lemma NameOf(s: string, inner: string, n: nat)
    requires Bracket(s) == "(" + inner + ")" && ')' !in inner && n == IndexOf(inner, ',')
    ensures GetName(s) == Trim(inner[..n])
  {
    var t := Bracket(s);
    assert t[1..n + 1] == inner[..n] && t[..n + 1] == "(" + inner[..n];
    if n < |inner| {
      assert t[n + 1] == ',';
      FirstIndex(t, ',', n + 1);
    } else {
      assert ',' !in inner;
      FirstIndex(t, ',', |t|);
      assert t[..|inner| + 1] == "(" + inner;
      FirstIndex(t, ')', |inner| + 1);
    }
  }

  lemma FirstEntry(l: seq<string>)
    requires l != []
    ensures |l[0]| <= |Joined(l, ",")| && Joined(l, ",")[..|l[0]|] == l[0]
  {
    if |l| > 1 {
      assert Joined(l, ",") == l[0] + ("," + Joined(l[1..], ","));
    }
  }

  /** The arguments that are written are the arguments that are read, and the first one is the name. */
  lemma ArgumentsRead(word: string, l: seq<string>)
    requires '(' !in word && l != [] && forall i :: 0 <= i < |l| ==> PlainArgument(l[i])
    ensures GetArgs(KeywordLine(word, l)) == l && GetName(KeywordLine(word, l)) == l[0]
  {
    var inner, s := Joined(l, ","), KeywordLine(word, l);
    JoinedPlain(l);
    BracketOf(word, inner);
    ArgsOf(s, inner);
    SplitOfJoin(l, ',');
    AllTrimmed(l);
    NameOf(s, inner, |l[0]|);
    FirstEntry(l);
  }

  function LoopLine(a: LoopArgs): string {
    KeywordLine("LOOP", [a.name, a.reg + "=" + a.start, a.direction, a.condreg + "=" + a.cond, a.step])
  }

  function LoopEndLine(name: string): string {
    KeywordLine("LOOPEND", [name])
  }

  predicate PlainLoop(a: LoopArgs) {
    && PlainArgument(a.name) && PlainArgument(a.direction) && PlainArgument(a.step)
    && PlainArgument(a.reg) && PlainArgument(a.start) && PlainArgument(a.condreg) && PlainArgument(a.cond)
    && '=' !in a.reg && '=' !in a.start && '=' !in a.condreg && '=' !in a.cond
  }

  lemma Assigned(x: string, y: string)
    requires PlainArgument(x) && PlainArgument(y) && '=' !in x && '=' !in y
    ensures PlainArgument(x + "=" + y) && SplitTrim(x + "=" + y, '=') == [x, y]
  {
    var l := [x, y];
    assert l[1..] == [y];
    assert Joined(l, "=") == x + "=" + y;
    SplitOfJoin(l, '=');
    AllTrimmed(l);
  }

  lemma LoopArgsRead(a: LoopArgs)
    requires PlainLoop(a)
    ensures |GetArgs(LoopLine(a))| == 5 && GetArgs(LoopLine(a))[0] == a.name && GetName(LoopLine(a)) == a.name
    ensures SplitTrim(GetArgs(LoopLine(a))[1], '=') == [a.reg, a.start]
    ensures SplitTrim(GetArgs(LoopLine(a))[3], '=') == [a.condreg, a.cond]
    ensures GetArgs(LoopLine(a))[2] == a.direction && GetArgs(LoopLine(a))[4] == a.step
  {
    Assigned(a.reg, a.start);
    Assigned(a.condreg, a.cond);
    ArgumentsRead("LOOP", [a.name, a.reg + "=" + a.start, a.direction, a.condreg + "=" + a.cond, a.step]);
  }

  lemma EndRead(name: string)
    requires PlainArgument(name)
    ensures GetArgs(LoopEndLine(name)) == [name] && GetName(LoopEndLine(name)) == name
    ensures HasPrefix(LoopEndLine(name), End(LOOP))
  {
    ArgumentsRead("LOOPEND", [name]);
  }

  lemma IsLoopLine(a: LoopArgs)
    ensures HasPrefix(LoopLine(a), Begin(LOOP))
  {
  }

  /** A loop that is written down with these arguments is translated with these arguments. */
  lemma LoopTranslates(a: LoopArgs)
    requires PlainLoop(a)
    ensures GetName(LoopLine(a)) == GetName(LoopEndLine(a.name)) == a.name
    ensures Opens(LoopLine(a)) == Some(LOOP) && HasPrefix(LoopEndLine(a.name), End(LOOP))
    ensures ReadArgs(LoopLine(a)) == Some(a)
    ensures FrameOf(LOOP, LoopLine(a), LoopEndLine(a.name)) ==
      match JumpFor(a.direction)
      case None => UnsetValue
      case Some(condition) =>
        Frame([Comment(LoopLine(a))] + Header(a), [Comment(LoopEndLine(a.name))] + Footer(a, condition))
  {
    LoopArgsRead(a);
    EndRead(a.name);
    IsLoopLine(a);
  }

  /** Lines without line breaks and without blanks at their ends are the lines of their text. */
  lemma LinesOfText(l: seq<string>)
    requires l != [] && forall i :: 0 <= i < |l| ==> '\n' !in l[i] && Trimmed(l[i])
    ensures CodeOf(Joined(l, "\n")) == Sources(l)
  {
    SplitOfJoin(l, '\n');
    AllTrimmed(l);
  }

  lemma TwoLines(open: string, close: string)
    requires '\n' !in open && Trimmed(open) && '\n' !in close && Trimmed(close)
    ensures CodeOf(open + "\n" + close) == [Source(open), Source(close)]
  {
    var l := [open, close];
    LinesOfText(l);
    assert l[1..] == [close] && Joined(l[1..], "\n") == close;
    assert Sources(l[1..]) == [Source(close)];
  }

  lemma {:induction false} JoinedLacks(l: seq<string>, sep: string, c: char)
    requires c !in sep && forall i :: 0 <= i < |l| ==> c !in l[i]
    ensures c !in Joined(l, sep)
  {
    if |l| > 1 {
      JoinedLacks(l[1..], sep, c);
    }
  }

  lemma KeywordLineIsLine(word: string, l: seq<string>)
    requires word != "" && !Blank(word[0]) && '\n' !in word && forall i :: 0 <= i < |l| ==> '\n' !in l[i]
    ensures '\n' !in KeywordLine(word, l) && Trimmed(KeywordLine(word, l))
  {
    JoinedLacks(l, ",", '\n');
  }

  predicate OneLine(a: LoopArgs) {
    && '\n' !in a.name && '\n' !in a.direction && '\n' !in a.step
    && '\n' !in a.reg && '\n' !in a.start && '\n' !in a.condreg && '\n' !in a.cond
  }

  /** A kernel of one loop with nothing in it. */
  function LoopText(a: LoopArgs): string {
    LoopLine(a) + "\n" + LoopEndLine(a.name)
  }

  lemma LinesOfLoop(a: LoopArgs)
    requires OneLine(a)
    ensures CodeOf(LoopText(a)) == [Source(LoopLine(a)), Source(LoopEndLine(a.name))]
  {
    KeywordLineIsLine("LOOP", [a.name, a.reg + "=" + a.start, a.direction, a.condreg + "=" + a.cond, a.step]);
    KeywordLineIsLine("LOOPEND", [a.name]);
    TwoLines(LoopLine(a), LoopEndLine(a.name));
  }

  /** The compiler never ends on a loop that can be parsed and has a label that reads like a closing keyword. */
  lemma NeverEnds(a: LoopArgs)
    requires PlainLoop(a) && OneLine(a) && JumpFor(a.direction).Some? && Closes(a.name + ":").Some?
    ensures Prepared(LoopText(a)) == Compiled(Forever)
  {
    LinesOfLoop(a);
    LoopTranslates(a);
    LoopArgsRead(a);
    LabelKeepsItGoing(LoopLine(a), LoopEndLine(a.name));
  }

  const STUCK := LoopArgs("LOOPEND(", "i", "0", "<", "n", "N", "1")

  /** Such a loop can be written down: the text passes the check of the labels, and the compiler never ends. */
  lemma StuckKernel()
    ensures Prepared(LoopText(STUCK)) == Compiled(Forever)
  {
    StuckLabel();
    NeverEnds(STUCK);
  }

  lemma StuckLabel()
    ensures Closes(STUCK.name + ":").Some?
  {
    assert STUCK.name + ":" == "LOOPEND(:";
    assert HasPrefix("LOOPEND(:", End(LOOP));
  }
}
