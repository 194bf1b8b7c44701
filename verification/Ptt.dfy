/**
 The kernel language of src/ptt2asm.c: the lines of a benchmark kernel in which
 LOOP ... LOOPEND and DUMMY ... DUMMYEND regions are replaced by assembly for
 x86-64 (include/isa_x86-64.h), until no keyword is left.
 */
module Ptt {
  import opened Wrappers
  import opened Nesting
  import opened Splitting

  // ----- lines of code

  /** The jumps that close a loop. */
  datatype Condition = Less | LessEqual | Greater | GreaterEqual | Equal | NotEqual

  /** A line of the kernel as it was written, or one of those that the compiler puts in. */
  datatype Line =
    | Source(text: string)
    | Comment(of: string)
    | Xor(reg: string)
    | Mov(reg: string, value: string)
    | Add(reg: string, value: string)
    | Sub(reg: string, value: string)
    | Align
    | Label(name: string)
    | Cmp(reg: string, condreg: string)
    | Jump(condition: Condition, name: string)

  function Mnemonic(c: Condition): string {
    match c
    case Less => "jl "
    case LessEqual => "jle "
    case Greater => "jg "
    case GreaterEqual => "jge "
    case Equal => "je "
    case NotEqual => "jne "
  }

  /** What is written to the assembly file; keywords are looked for in this text. */
  function Text(l: Line): string {
    match l
    case Source(text) => text
    case Comment(of) => "# " + of
    case Xor(reg) => "xor " + reg + ", " + reg
    case Mov(reg, value) => "mov " + reg + ", " + value
    case Add(reg, value) => "add " + reg + ", " + value
    case Sub(reg, value) => "sub " + reg + ", " + value
    case Align => ".align 16"
    case Label(name) => name + ":"
    case Cmp(reg, condreg) => "cmp " + reg + ", " + condreg
    case Jump(condition, name) => Mnemonic(condition) + name
  }

  // ----- keywords, names and arguments

  datatype Key = LOOP | DUMMY

  function Begin(k: Key): string {
    if k == LOOP then "LOOP" else "DUMMY"
  }

  function End(k: Key): string {
    if k == LOOP then "LOOPEND" else "DUMMYEND"
  }

  /** has_prefix: the word, and directly after it an opening bracket. */
  predicate HasPrefix(s: string, prefix: string) {
    |s| > |prefix| && s[..|prefix|] == prefix && s[|prefix|] == '('
  }

  /** The keyword that the line opens a region with, if any. */
  function Opens(s: string): (k: Option<Key>) {
    if HasPrefix(s, Begin(LOOP)) then Some(LOOP) else if HasPrefix(s, Begin(DUMMY)) then Some(DUMMY) else None
  }

  function Closes(s: string): (k: Option<Key>) {
    if HasPrefix(s, End(LOOP)) then Some(LOOP) else if HasPrefix(s, End(DUMMY)) then Some(DUMMY) else None
  }

  predicate IsKeyword(s: string) {
    Opens(s).Some? || Closes(s).Some?
  }

  /** The letters that tell the four words apart. */
  lemma KeywordLetters(s: string)
    ensures HasPrefix(s, Begin(LOOP)) ==> s[0] == 'L' && s[4] == '('
    ensures HasPrefix(s, Begin(DUMMY)) ==> s[0] == 'D' && s[5] == '('
    ensures HasPrefix(s, End(LOOP)) ==> s[0] == 'L' && s[4] == 'E'
    ensures HasPrefix(s, End(DUMMY)) ==> s[0] == 'D' && s[5] == 'E'
  {
    if HasPrefix(s, End(LOOP)) {
      assert s[..7][4] == 'E';
    }
    if HasPrefix(s, End(DUMMY)) {
      assert s[..8][5] == 'E';
    }
    if HasPrefix(s, Begin(LOOP)) {
      assert s[..4][0] == 'L';
    }
    if HasPrefix(s, Begin(DUMMY)) {
      assert s[..5][0] == 'D';
    }
  }

  /** A line opens or closes one kind of region at most. */
  lemma OneKeyword(s: string, k: Key)
    ensures HasPrefix(s, Begin(k)) <==> Opens(s) == Some(k)
    ensures HasPrefix(s, End(k)) <==> Closes(s) == Some(k)
    ensures HasPrefix(s, End(k)) ==> Opens(s) == None
  {
    KeywordLetters(s);
  }

  predicate Blank(c: char) {
    c == ' ' || c == '\t' || c == '\n' || c == '\r' || c == 11 as char || c == 12 as char
  }

  function TrimLeft(s: string): string {
    if s != [] && Blank(s[0]) then TrimLeft(s[1..]) else s
  }

  function TrimRight(s: string): string {
    if s != [] && Blank(s[|s| - 1]) then TrimRight(s[..|s| - 1]) else s
  }

  function Trim(s: string): string {
    TrimLeft(TrimRight(s))
  }

  function TrimAll(l: seq<string>): (r: seq<string>)
    ensures |r| == |l|
  {
    if l == [] then [] else [Trim(l[0])] + TrimAll(l[1..])
  }

  /** bsplittrim */
  function SplitTrim(s: string, c: char): seq<string> {
    TrimAll(Pieces(s, c))
  }

  /** The text from the first opening bracket on. */
  function Bracket(s: string): string {
    s[IndexOf(s, '(')..]
  }

  /** get_name: from the opening bracket to the next comma or, without one, the next closing bracket. */
  function GetName(s: string): string {
    var t := Bracket(s);
    var comma := IndexOf(t, ',');
    var end := if comma < |t| then comma else IndexOf(t, ')');
    if 0 < end < |t| then Trim(t[1..end]) else ""
  }

  /** get_argList: what is between the brackets, cut at commas; nothing when a bracket is missing. */
  function GetArgs(s: string): seq<string> {
    var t := Bracket(s);
    var end := IndexOf(t, ')');
    if 0 < end < |t| then SplitTrim(Trim(t[1..end]), ',') else []
  }

  function ArgCount(k: Key): nat {
    if k == LOOP then 5 else 1
  }

  // ----- the translation of one region

  predicate StartsWith(s: string, c: char) {
    s != [] && s[0] == c
  }

  /** The lines that load the end value: base and offset separately when there is a + or a - in it. */
  function LoadEnd(condreg: string, cond: string): seq<Line> {
    var plus, minus := IndexOf(cond, '+'), IndexOf(cond, '-');
    if StartsWith(cond, '0') then [Xor(condreg)]
    else if 0 < plus < |cond| then [Mov(condreg, "#" + cond[..plus]), Add(condreg, cond[plus + 1..])]
    else if 0 < minus < |cond| then [Mov(condreg, "#" + cond[..minus]), Sub(condreg, cond[minus + 1..])]
    else [Mov(condreg, "#" + cond)]
  }

  function LoadStart(reg: string, start: string): Line {
    if StartsWith(start, '0') then Xor(reg) else Mov(reg, start)
  }

  /** The arguments of a LOOP line, read as in LOOP(name, reg=start, direction, condreg=cond, step). */
  datatype LoopArgs = LoopArgs(
    name: string, reg: string, start: string, direction: string, condreg: string, cond: string, step: string)

  function Header(a: LoopArgs): seq<Line> {
    [LoadStart(a.reg, a.start)] + LoadEnd(a.condreg, a.cond) + [Align, Label(a.name)]
  }

  /** The jump for a direction; the tests are made in this order, on the beginning of the text only. */
  function JumpFor(direction: string): Option<Condition> {
    if "<" <= direction then Some(Less)
    else if "<=" <= direction then Some(LessEqual)
    else if ">" <= direction then Some(Greater)
    else if ">=" <= direction then Some(GreaterEqual)
    else if "==" <= direction then Some(Equal)
    else if "!=" <= direction then Some(NotEqual)
    else None
  }

  function Footer(a: LoopArgs, condition: Condition): seq<Line> {
    [Add(a.reg, a.step), Cmp(a.reg, a.condreg), Jump(condition, a.name)]
  }

  function ReadArgs(open: string): Option<LoopArgs> {
    var args := GetArgs(open);
    if !HasPrefix(open, Begin(LOOP)) || |args| != 5 then None
    else
      var startloop, endloop := SplitTrim(args[1], '='), SplitTrim(args[3], '=');
      if |startloop| != 2 || |endloop| != 2 then None
      else Some(LoopArgs(args[0], startloop[0], startloop[1], args[2], endloop[0], endloop[1], args[4]))
  }

  /** The checks that both kinds of region make of their first and last line, before anything else. */
  function CheckEnds(k: Key, open: string, close: string): Frame<Line> {
    if !HasPrefix(open, Begin(k)) || !HasPrefix(close, End(k)) then BadArguments
    else if |GetArgs(open)| != ArgCount(k) then BadArguments
    else if GetArgs(close) == [] then UnsetValue
    else if GetArgs(open)[0] != GetArgs(close)[0] then BadArguments
    else Frame([Comment(open)], [Comment(close)])
  }

  /** parse_dummy and parse_loop */
  function FrameOf(k: Key, open: string, close: string): Frame<Line> {
    var checked := CheckEnds(k, open, close);
    if !checked.Frame? || k == DUMMY then checked
    else
      match ReadArgs(open)
      case None => BadArguments
      case Some(a) =>
        match JumpFor(a.direction)
        case None => UnsetValue
        case Some(condition) => Frame([Comment(open)] + Header(a), [Comment(close)] + Footer(a, condition))
  }

  /** loopheader: the lines are appended to the list one by one. */
  method LoopHeader(code: seq<Line>, a: LoopArgs) returns (r: seq<Line>)
    ensures r == code + Header(a)
  {
    r := code;
    if StartsWith(a.start, '0') {
      r := r + [Xor(a.reg)];
    } else {
      r := r + [Mov(a.reg, a.start)];
    }
    if StartsWith(a.cond, '0') {
      r := r + [Xor(a.condreg)];
    } else {
      var pos := IndexOf(a.cond, '+');
      if 0 < pos < |a.cond| {
        r := r + [Mov(a.condreg, "#" + a.cond[..pos])];
        r := r + [Add(a.condreg, a.cond[pos + 1..])];
      } else {
        pos := IndexOf(a.cond, '-');
        if 0 < pos < |a.cond| {
          r := r + [Mov(a.condreg, "#" + a.cond[..pos])];
          r := r + [Sub(a.condreg, a.cond[pos + 1..])];
        } else {
          r := r + [Mov(a.condreg, "#" + a.cond)];
        }
      }
    }
    r := r + [Align];
    r := r + [Label(a.name)];
  }

  /** loopfooter; without a jump for the direction the source appends a string that was never set. */
  method LoopFooter(code: seq<Line>, a: LoopArgs) returns (r: Option<seq<Line>>)
    ensures r == match JumpFor(a.direction)
                 case None => None
                 case Some(condition) => Some(code + Footer(a, condition))
  {
    var out := code + [Add(a.reg, a.step)];
    out := out + [Cmp(a.reg, a.condreg)];
    var condition;
    if "<" <= a.direction {
      condition := Less;
    } else if "<=" <= a.direction {
      condition := LessEqual;
    } else if ">" <= a.direction {
      condition := Greater;
    } else if ">=" <= a.direction {
      condition := GreaterEqual;
    } else if "==" <= a.direction {
      condition := Equal;
    } else if "!=" <= a.direction {
      condition := NotEqual;
    } else {
      return None;
    }
    out := out + [Jump(condition, a.name)];
    assert out == code + Footer(a, condition);
    return Some(out);
  }

  /** What parse_loop reads from the first and the last line of a region. */
  datatype Reading = Bad | Unset | Found(a: LoopArgs)

  function LoopOf(open: string, close: string): Reading {
    if !HasPrefix(open, Begin(LOOP)) || !HasPrefix(close, End(LOOP)) || |GetArgs(open)| != 5 then Bad
    else if GetArgs(close) == [] then Unset
    else if GetArgs(open)[0] != GetArgs(close)[0] then Bad
    else
      match ReadArgs(open)
      case None => Bad
      case Some(a) => Found(a)
  }

  lemma LoopFrame(open: string, close: string)
    ensures FrameOf(LOOP, open, close) ==
      match LoopOf(open, close)
      case Bad => BadArguments
      case Unset => UnsetValue
      case Found(a) =>
        match JumpFor(a.direction)
        case None => UnsetValue
        case Some(condition) => Frame([Comment(open)] + Header(a), [Comment(close)] + Footer(a, condition))
  {
  }

  method ReadLoop(open: string, close: string) returns (r: Reading)
    ensures r == LoopOf(open, close)
  {
    if !HasPrefix(open, Begin(LOOP)) || !HasPrefix(close, End(LOOP)) {
      return Bad;
    }
    var beginArgs := GetArgs(open);
    if |beginArgs| != 5 {
      return Bad;
    }
    var endArgs := GetArgs(close);
    if |endArgs| == 0 {
      return Unset;
    }
    if beginArgs[0] != endArgs[0] {
      return Bad;
    }
    var startloop := SplitTrim(beginArgs[1], '=');
    var endloop := SplitTrim(beginArgs[3], '=');
    if |startloop| != 2 || |endloop| != 2 {
      return Bad;
    }
    return Found(
      LoopArgs(beginArgs[0], startloop[0], startloop[1], beginArgs[2], endloop[0], endloop[1], beginArgs[4]));
  }

  /** The part of parse_loop that writes. */
  method WriteLoop(code: seq<Line>, open: string, close: string, a: LoopArgs) returns (r: Option<seq<Line>>)
    requires |code| >= 2
    ensures r == match JumpFor(a.direction)
                 case None => None
                 case Some(condition) =>
                   Some([Comment(open)] + Header(a) + code[1..|code| - 1] + ([Comment(close)] + Footer(a, condition)))
  {
    var out := [Comment(open)];
    out := LoopHeader(out, a);
    for i := 1 to |code| - 1
      invariant out == [Comment(open)] + Header(a) + code[1..i]
    {
      out := out + [code[i]];
    }
    ghost var start := out;
    out := out + [Comment(close)];
    r := LoopFooter(out, a);
    if r.Some? {
      assert start + ([Comment(close)] + Footer(a, JumpFor(a.direction).value)) == r.value;
    }
  }

  /** parse_loop on a whole region. */
  method ParseLoop(code: seq<Line>) returns (r: Parsed<Line>)
    requires |code| >= 2
    ensures var frame := FrameOf(LOOP, Text(code[0]), Text(code[|code| - 1]));
            r == match frame
                 case BadArguments => Invalid
                 case UnsetValue => Undefined
                 case Frame(before, after) => Ok(before + code[1..|code| - 1] + after)
  {
    var open, close := Text(code[0]), Text(code[|code| - 1]);
    LoopFrame(open, close);
    var reading := ReadLoop(open, close);
    match reading
    case Bad => return Invalid;
    case Unset => return Undefined;
    case Found(a) =>
      var done := WriteLoop(code, open, close, a);
      match done
      case None => return Undefined;
      case Some(lines) => return Ok(lines);
  }

  /** The table of keywords with the tests and the translation that belong to them. */
  function PttKeys(): Keywords<Line, Key> {
    Keywords(OpensLine, ClosesLine, NameOfLine, FrameOfLines, WellOpenedLine)
  }

  function OpensLine(l: Line): Option<Key> {
    Opens(Text(l))
  }

  function ClosesLine(l: Line): Option<Key> {
    Closes(Text(l))
  }

  function NameOfLine(l: Line): string {
    GetName(Text(l))
  }

  function FrameOfLines(k: Key, open: Line, close: Line): Frame<Line> {
    FrameOf(k, Text(open), Text(close))
  }

  predicate WellOpenedLine(l: Line) {
    WellOpened(Text(l))
  }

  // ----- what can still be parsed

  /** The line opens a region and has as many arguments as that takes. */
  predicate WellOpened(s: string) {
    Opens(s).Some? && |GetArgs(s)| == ArgCount(Opens(s).value)
  }

  /** The compiler's own lines, other than labels, are no keywords. */
  lemma OwnLines(l: Line)
    requires !l.Source? && !l.Label?
    ensures !IsKeyword(Text(l))
  {
    var s := Text(l);
    KeywordLetters(s);
    assert s[0] != 'L' && s[0] != 'D';
  }

  lemma {:induction false} TrimInside(s: string)
    ensures forall c :: c in TrimLeft(s) ==> c in s
    ensures forall c :: c in TrimRight(s) ==> c in s
  {
    if s != [] && Blank(s[0]) {
      TrimInsideLeft(s);
    }
    if s != [] && Blank(s[|s| - 1]) {
      TrimInsideRight(s);
    }
  }

  lemma {:induction false} TrimInsideLeft(s: string)
    ensures forall c :: c in TrimLeft(s) ==> c in s
  {
    if s != [] && Blank(s[0]) {
      TrimInsideLeft(s[1..]);
    }
  }

  lemma {:induction false} TrimInsideRight(s: string)
    ensures forall c :: c in TrimRight(s) ==> c in s
  {
    if s != [] && Blank(s[|s| - 1]) {
      TrimInsideRight(s[..|s| - 1]);
    }
  }

  /** An argument has no closing bracket in it, so a label line is never a complete keyword line. */
  lemma LabelsAreNotOpened(open: string)
    requires GetArgs(open) != []
    ensures GetArgs(GetArgs(open)[0] + ":") == [] && !WellOpened(GetArgs(open)[0] + ":")
  {
    var t := Bracket(open);
    var inner := t[1..IndexOf(t, ')')];
    assert ')' !in inner;
    TrimInside(inner);
    TrimInside(TrimRight(inner));
    var s := Trim(inner);
    assert ')' !in s;
    var p := Pieces(s, ',')[0];
    assert forall c :: c in p ==> c in s;
    TrimInside(p);
    TrimInside(TrimRight(p));
    assert ')' !in GetArgs(open)[0];
    var b := Bracket(GetArgs(open)[0] + ":");
    assert ')' !in b;
  }

  /** The compiler's own line; if it is a label, then this one. */
  predicate Generated(l: Line, name: string) {
    !l.Source? && (l.Label? ==> l.name == name)
  }

  predicate AllGenerated(code: seq<Line>, name: string) {
    forall i :: 0 <= i < |code| ==> Generated(code[i], name)
  }

  lemma LoopGenerated(a: LoopArgs, open: string, close: string, condition: Condition)
    ensures AllGenerated([Comment(open)] + Header(a), a.name)
    ensures AllGenerated([Comment(close)] + Footer(a, condition), a.name)
  {
  }

  lemma FrameGenerated(k: Key, open: string, close: string)
    requires FrameOf(k, open, close).Frame?
    ensures GetArgs(open) != []
    ensures AllGenerated(FrameOf(k, open, close).before, GetArgs(open)[0])
    ensures AllGenerated(FrameOf(k, open, close).after, GetArgs(open)[0])
  {
    if k == LOOP {
      var a, condition := FrameOfLoop(open, close);
      LoopGenerated(a, open, close, condition);
    } else {
      FrameOfDummy(open, close);
    }
  }

  /** The frame of a loop, and the arguments it comes from. */
  lemma FrameOfLoop(open: string, close: string) returns (a: LoopArgs, condition: Condition)
    requires FrameOf(LOOP, open, close).Frame?
    ensures GetArgs(open) != [] && a.name == GetArgs(open)[0]
    ensures ReadArgs(open) == Some(a) && JumpFor(a.direction) == Some(condition)
    ensures FrameOf(LOOP, open, close) == Frame([Comment(open)] + Header(a), [Comment(close)] + Footer(a, condition))
  {
    LoopFrame(open, close);
    a := LoopOf(open, close).a;
    condition := JumpFor(a.direction).value;
  }

  lemma FrameOfDummy(open: string, close: string)
    requires FrameOf(DUMMY, open, close).Frame?
    ensures GetArgs(open) != [] && FrameOf(DUMMY, open, close) == Frame([Comment(open)], [Comment(close)])
  {
  }

  lemma GeneratedNotOpened(l: Line, name: string)
    requires Generated(l, name) && !WellOpened(name + ":")
    ensures !WellOpenedLine(l)
  {
    if !l.Label? {
      OwnLines(l);
    }
  }

  lemma FramePlain(k: Key, open: string, close: string)
    requires FrameOf(k, open, close).Frame?
    ensures WellOpened(open)
    ensures Count(WellOpenedLine, FrameOf(k, open, close).before) == 0
    ensures Count(WellOpenedLine, FrameOf(k, open, close).after) == 0
  {
    FrameGenerated(k, open, close);
    LabelsAreNotOpened(open);
    var frame, name := FrameOf(k, open, close), GetArgs(open)[0];
    NoneWellOpened(frame.before, name);
    NoneWellOpened(frame.after, name);
    OneKeyword(open, k);
  }

  lemma NoneWellOpened(code: seq<Line>, name: string)
    requires AllGenerated(code, name) && !WellOpened(name + ":")
    ensures Count(WellOpenedLine, code) == 0
  {
    forall i | 0 <= i < |code|
      ensures !WellOpenedLine(code[i])
    {
      GeneratedNotOpened(code[i], name);
    }
    CountNone(WellOpenedLine, code);
  }

  /** Translating a region uses up the line that opened it: the recursion and the rounds end. */
  lemma PttShrinking()
    ensures Shrinking(PttKeys())
  {
    forall k, a, b | PttKeys().parse(k, a, b).Frame?
      ensures WellOpenedLine(a)
      ensures Count(WellOpenedLine, FrameOfLines(k, a, b).before) == 0
      ensures Count(WellOpenedLine, FrameOfLines(k, a, b).after) == 0
    {
      FramePlain(k, Text(a), Text(b));
    }
  }
}
