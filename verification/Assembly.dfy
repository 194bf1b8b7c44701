/**
 The assembly text that is emitted, read as an assembler reads it: a mnemonic and its
 operands with the destination first, labels that end in a colon, comments and
 directives. The machine that runs what is read does what the kernel says.
 */
module Assembly {
  import opened Wrappers
  import opened Splitting
  import opened Nesting
  import opened Kernels
  import opened Labels
  import opened Ptt
  import opened Compiler
  import opened Machine
  import opened Simulation
  import opened CodeGen
  import opened Translation

  // ----- reading a line

  /** The conditional jumps by their mnemonics: signed less, less or equal, and so on. */
  function JumpNamed(mnemonic: string): Option<Condition> {
    if mnemonic == "jl" then Some(Less)
    else if mnemonic == "jle" then Some(LessEqual)
    else if mnemonic == "jg" then Some(Greater)
    else if mnemonic == "jge" then Some(GreaterEqual)
    else if mnemonic == "je" then Some(Equal)
    else if mnemonic == "jne" then Some(NotEqual)
    else None
  }

  /** An instruction with a destination and a source operand; others are left to the processor. */
  function TwoOperands(mnemonic: string, dest: string, src: string, text: string): Line {
    if mnemonic == "mov" then Mov(dest, src)
    else if mnemonic == "add" then Add(dest, src)
    else if mnemonic == "sub" then Sub(dest, src)
    else if mnemonic == "cmp" then Cmp(dest, src)
    else if mnemonic == "xor" && dest == src then Xor(dest)
    else Source(text)
  }

  function ReadOperands(mnemonic: string, operands: string, text: string): Line {
    var comma := IndexOf(operands, ',');
    if JumpNamed(mnemonic).Some? then Jump(JumpNamed(mnemonic).value, operands)
    else if comma + 1 < |operands| && operands[comma + 1] == ' '
    then TwoOperands(mnemonic, operands[..comma], operands[comma + 2..], text)
    else Source(text)
  }

  /** What an assembler makes of a line. */
  function ReadLine(t: string): Line {
    var blank := IndexOf(t, ' ');
    if StartsWith(t, '#') then Comment(if |t| > 1 then t[2..] else "")
    else if StartsWith(t, '.') && t == ".align 16" then Align
    else if blank == |t| && t != "" && t[|t| - 1] == ':' then Label(t[..|t| - 1])
    else if blank < |t| then ReadOperands(t[..blank], t[blank + 1..], t)
    else Source(t)
  }

  function ReadAll(texts: seq<string>): (code: seq<Line>)
    ensures |code| == |texts|
  {
    seq(|texts|, i requires 0 <= i < |texts| => ReadLine(texts[i]))
  }

  function Texts(code: seq<Line>): (texts: seq<string>)
    ensures |texts| == |code|
  {
    seq(|code|, i requires 0 <= i < |code| => Text(code[i]))
  }

  // ----- the emitted lines are read as what they are

  predicate LabelName(name: string) {
    ' ' !in name && !StartsWith(name, '#') && !StartsWith(name, '.')
  }

  /** The operands of a generated line can be told apart. */
  predicate Plain(l: Line) {
    match l
    case Source(_) => false
    case Xor(reg) => ',' !in reg
    case Mov(reg, _) => ',' !in reg
    case Add(reg, _) => ',' !in reg
    case Sub(reg, _) => ',' !in reg
    case Cmp(reg, _) => ',' !in reg
    case Label(name) => LabelName(name)
    case _ => true
  }

  lemma FirstAt(s: string, c: char, i: nat)
    requires i < |s| && s[i] == c && c !in s[..i]
    ensures IndexOf(s, c) == i
  {
    FirstIndex(s, c, i);
  }

  /** A mnemonic and its operands. */
  lemma MnemonicRead(mnemonic: string, operands: string)
    requires mnemonic != "" && ' ' !in mnemonic && mnemonic[0] != '#' && mnemonic[0] != '.'
    ensures var t := mnemonic + " " + operands; ReadLine(t) == ReadOperands(mnemonic, operands, t)
  {
    var t := mnemonic + " " + operands;
    assert t[..|mnemonic|] == mnemonic && t[|mnemonic| + 1..] == operands;
    FirstAt(t, ' ', |mnemonic|);
  }

  lemma OperandsRead(mnemonic: string, dest: string, src: string, text: string)
    requires ',' !in dest && JumpNamed(mnemonic).None?
    ensures ReadOperands(mnemonic, dest + ", " + src, text) == TwoOperands(mnemonic, dest, src, text)
  {
    var s := dest + ", " + src;
    assert s[..|dest|] == dest && s[|dest|] == ',' && s[|dest| + 1] == ' ' && s[|dest| + 2..] == src;
    FirstAt(s, ',', |dest|);
  }

  lemma TwoRead(mnemonic: string, dest: string, src: string)
    requires mnemonic in ["mov", "add", "sub", "cmp", "xor"] && ',' !in dest
    ensures var t := mnemonic + " " + (dest + ", " + src); ReadLine(t) == TwoOperands(mnemonic, dest, src, t)
  {
    var operands := dest + ", " + src;
    KnownMnemonic(mnemonic);
    MnemonicRead(mnemonic, operands);
    OperandsRead(mnemonic, dest, src, mnemonic + " " + operands);
  }

  lemma KnownMnemonic(mnemonic: string)
    requires mnemonic in ["mov", "add", "sub", "cmp", "xor"]
    ensures |mnemonic| == 3 && ' ' !in mnemonic && mnemonic[0] != '#' && mnemonic[0] != '.' && mnemonic[0] != 'j'
    ensures JumpNamed(mnemonic).None?
  {
  }

  lemma JumpRead(c: Condition, name: string)
    ensures ReadLine(Text(Jump(c, name))) == Jump(c, name)
  {
    match c {
      case Less => OneJumpRead("jl", c, name);
      case LessEqual => OneJumpRead("jle", c, name);
      case Greater => OneJumpRead("jg", c, name);
      case GreaterEqual => OneJumpRead("jge", c, name);
      case Equal => OneJumpRead("je", c, name);
      case NotEqual => OneJumpRead("jne", c, name);
    }
  }

  lemma OneJumpRead(mnemonic: string, c: Condition, name: string)
    requires mnemonic != "" && ' ' !in mnemonic && mnemonic[0] == 'j'
    requires JumpNamed(mnemonic) == Some(c) && Text(Jump(c, name)) == mnemonic + " " + name
    ensures ReadLine(Text(Jump(c, name))) == Jump(c, name)
  {
    MnemonicRead(mnemonic, name);
  }

  lemma LabelRead(name: string)
    requires LabelName(name)
    ensures ReadLine(name + ":") == Label(name)
  {
    var t := name + ":";
    assert t[..|t| - 1] == name && ' ' !in t;
    FirstIndex(t, ' ', |t|);
  }

  lemma CommentRead(of: string)
    ensures ReadLine("# " + of) == Comment(of)
  {
    var t := "# " + of;
    assert t[2..] == of;
  }

  /** An assembler reads every generated line as the instruction, label or comment that it stands for. */
  lemma EmittedIsRead(l: Line)
    requires Plain(l)
    ensures ReadLine(Text(l)) == l
  {
    match l {
      case Comment(of) => CommentRead(of);
      case Xor(reg) => XorRead(reg);
      case Mov(reg, value) => MovRead(reg, value);
      case Add(reg, value) => AddRead(reg, value);
      case Sub(reg, value) => SubRead(reg, value);
      case Cmp(reg, value) => CmpRead(reg, value);
      case Align => AlignRead();
      case Label(name) => LabelRead(name);
      case Jump(c, name) => JumpRead(c, name);
    }
  }

  lemma AlignRead()
    ensures ReadLine(Text(Align)) == Align
  {
  }

  lemma MovRead(reg: string, value: string)
    requires ',' !in reg
    ensures ReadLine(Text(Mov(reg, value))) == Mov(reg, value)
  {
    assert "mov" + " " == "mov ";
    TwoTextRead("mov", reg, value, Text(Mov(reg, value)));
  }

  lemma AddRead(reg: string, value: string)
    requires ',' !in reg
    ensures ReadLine(Text(Add(reg, value))) == Add(reg, value)
  {
    assert "add" + " " == "add ";
    TwoTextRead("add", reg, value, Text(Add(reg, value)));
  }

  lemma SubRead(reg: string, value: string)
    requires ',' !in reg
    ensures ReadLine(Text(Sub(reg, value))) == Sub(reg, value)
  {
    assert "sub" + " " == "sub ";
    TwoTextRead("sub", reg, value, Text(Sub(reg, value)));
  }

  lemma CmpRead(reg: string, value: string)
    requires ',' !in reg
    ensures ReadLine(Text(Cmp(reg, value))) == Cmp(reg, value)
  {
    assert "cmp" + " " == "cmp ";
    TwoTextRead("cmp", reg, value, Text(Cmp(reg, value)));
  }

  lemma XorRead(reg: string)
    requires ',' !in reg
    ensures ReadLine(Text(Xor(reg))) == Xor(reg)
  {
    var text := Text(Xor(reg));
    assert ReadLine(text) == TwoOperands("xor", reg, reg, text) by {
      XorText(reg);
      TwoTextRead("xor", reg, reg, text);
    }
    XorOperands(reg, text);
  }

  lemma XorOperands(reg: string, text: string)
    ensures TwoOperands("xor", reg, reg, text) == Xor(reg)
  {
  }

  lemma XorText(reg: string)
    ensures Text(Xor(reg)) == "xor" + " " + reg + ", " + reg
  {
    assert "xor" + " " == "xor ";
  }

  lemma TwoTextRead(mnemonic: string, dest: string, src: string, text: string)
    requires mnemonic in ["mov", "add", "sub", "cmp", "xor"] && ',' !in dest
    requires text == mnemonic + " " + dest + ", " + src
    ensures ReadLine(text) == TwoOperands(mnemonic, dest, src, text)
  {
    assert text == mnemonic + " " + (dest + ", " + src);
    TwoRead(mnemonic, dest, src);
  }

  // ----- running what is read

  /** The processor does with an instruction of the kernel what the line is read as, and it is no jump or label. */
  ghost predicate Agrees<M(!new)>(isa: Isa<M>, text: string) {
    var l := ReadLine(text);
    && Straight(l) && !l.Label?
    && forall s :: Effect(isa, l, s) == isa.exec(text, s)
  }

  ghost predicate Readable<M(!new)>(isa: Isa<M>, l: Line) {
    if l.Source? then Agrees(isa, l.text) else Plain(l)
  }

  /** Both lines do the same. */
  ghost predicate SameLine<M(!new)>(isa: Isa<M>, a: Line, b: Line) {
    a == b || (
      && Straight(a) && Straight(b) && !a.Label? && !b.Label?
      && forall s :: Effect(isa, a, s) == Effect(isa, b, s))
  }

  ghost predicate SameCode<M(!new)>(isa: Isa<M>, a: seq<Line>, b: seq<Line>) {
    |a| == |b| && forall i :: 0 <= i < |a| ==> SameLine(isa, a[i], b[i])
  }

  lemma TextIsSameLine<M(!new)>(isa: Isa<M>, l: Line)
    requires Readable(isa, l)
    ensures SameLine(isa, l, ReadLine(Text(l)))
  {
    if !l.Source? {
      EmittedIsRead(l);
    }
  }

  lemma {:induction false} SameTarget<M(!new)>(isa: Isa<M>, a: seq<Line>, b: seq<Line>, name: string)
    requires SameCode(isa, a, b)
    ensures Target(a, name) == Target(b, name)
  {
    if a != [] {
      assert SameLine(isa, a[0], b[0]);
      SameTarget(isa, a[1..], b[1..], name);
    }
  }

  lemma SameStep<M(!new)>(isa: Isa<M>, a: seq<Line>, b: seq<Line>, c: Config<M>)
    requires SameCode(isa, a, b)
    ensures Next(isa, a)(c) == Next(isa, b)(c)
  {
    if c.pc < |a| {
      assert SameLine(isa, a[c.pc], b[c.pc]);
      if a[c.pc].Jump? {
        SameTarget(isa, a, b, a[c.pc].name);
      }
    }
  }

  lemma {:induction false} SameSteps<M(!new)>(isa: Isa<M>, a: seq<Line>, b: seq<Line>, c: Config<M>, n: nat)
    requires SameCode(isa, a, b)
    ensures Steps(Next(isa, a), c, n) == Steps(Next(isa, b), c, n)
    decreases n
  {
    if n > 0 {
      SameStep(isa, a, b, c);
      SameSteps(isa, a, b, Next(isa, a)(c), n - 1);
    }
  }

  lemma SameRuns<M(!new)>(isa: Isa<M>, a: seq<Line>, b: seq<Line>, s: State<M>, t: State<M>)
    requires SameCode(isa, a, b)
    ensures Runs(isa, a, s, t) <==> Runs(isa, b, s, t)
  {
    forall n: nat
      ensures Ends(ViewOf(isa, a), Config(0, s, 0, 0), n, t) <==> Ends(ViewOf(isa, b), Config(0, s, 0, 0), n, t)
    {
      SameSteps(isa, a, b, Config(0, s, 0, 0), n);
    }
  }

  /** The text of a program, read line by line, is run from its first line and ends in state t. */
  ghost predicate TextRuns<M>(isa: Isa<M>, texts: seq<string>, s: State<M>, t: State<M>) {
    Runs(isa, ReadAll(texts), s, t)
  }

  lemma TextRunsAsCode<M(!new)>(isa: Isa<M>, code: seq<Line>, s: State<M>, t: State<M>)
    requires forall i :: 0 <= i < |code| ==> Readable(isa, code[i])
    ensures TextRuns(isa, Texts(code), s, t) <==> Runs(isa, code, s, t)
  {
    var read := ReadAll(Texts(code));
    forall i | 0 <= i < |code|
      ensures SameLine(isa, code[i], read[i])
    {
      TextIsSameLine(isa, code[i]);
    }
    SameRuns(isa, code, read, s, t);
  }

  // ----- arguments hold no commas

  lemma {:induction false} TrimLacks(s: string, c: char)
    requires c !in s
    ensures c !in TrimLeft(s) && c !in TrimRight(s)
  {
    if s != [] {
      TrimLacks(s[1..], c);
      TrimLacks(s[..|s| - 1], c);
    }
  }

  lemma {:induction false} TrimAllLacks(l: seq<string>, c: char)
    requires forall k :: 0 <= k < |l| ==> c !in l[k]
    ensures forall k :: 0 <= k < |l| ==> c !in TrimAll(l)[k]
  {
    if l != [] {
      TrimLacks(l[0], c);
      TrimLacks(TrimRight(l[0]), c);
      TrimAllLacks(l[1..], c);
    }
  }

  lemma {:induction false} PiecesLackToo(s: string, c: char, d: char)
    requires d !in s
    ensures forall k :: 0 <= k < |Pieces(s, c)| ==> d !in Pieces(s, c)[k]
    decreases |s|
  {
    var i := IndexOf(s, c);
    if i < |s| {
      PiecesLackToo(s[i + 1..], c, d);
    }
  }

  lemma SplitLacks(s: string, c: char, d: char)
    requires d !in s || c == d
    ensures forall k :: 0 <= k < |SplitTrim(s, c)| ==> d !in SplitTrim(s, c)[k]
  {
    if c == d {
      PiecesLack(s, c);
    } else {
      PiecesLackToo(s, c, d);
    }
    TrimAllLacks(Pieces(s, c), d);
  }

  lemma RegistersArePlain(open: string)
    requires ReadArgs(open).Some?
    ensures ',' !in ReadArgs(open).value.reg && ',' !in ReadArgs(open).value.condreg
  {
    var t := Bracket(open);
    var end := IndexOf(t, ')');
    SplitLacks(Trim(t[1..end]), ',', ',');
    var args := GetArgs(open);
    SplitLacks(args[1], '=', ',');
    SplitLacks(args[3], '=', ',');
  }

  // ----- kernels

  /** The kernel's instructions are what an assembler takes them for, and its loops have names that can be labels. */
  ghost predicate KernelReads<M(!new)>(isa: Isa<M>, c: Code<Line, Key>) {
    match c
    case Nil => true
    case Line(l, rest) => Agrees(isa, Text(l)) && KernelReads(isa, rest)
    case Region(k, open, body, _, rest) =>
      && (k == LOOP ==> LabelName(ArgsOf(open).name))
      && KernelReads(isa, body) && KernelReads(isa, rest)
  }

  ghost predicate AllReadable<M(!new)>(isa: Isa<M>, code: seq<Line>) {
    forall i :: 0 <= i < |code| ==> Readable(isa, code[i])
  }

  lemma ReadableSum<M(!new)>(isa: Isa<M>, a: seq<Line>, b: seq<Line>)
    requires AllReadable(isa, a) && AllReadable(isa, b)
    ensures AllReadable(isa, a + b)
  {
  }

  lemma HeaderReadable<M(!new)>(isa: Isa<M>, a: LoopArgs, open: string)
    requires ',' !in a.reg && ',' !in a.condreg && LabelName(a.name)
    ensures AllReadable(isa, [Comment(open)] + Header(a))
  {
  }

  lemma FooterReadable<M(!new)>(isa: Isa<M>, a: LoopArgs, condition: Condition, close: string)
    requires ',' !in a.reg
    ensures AllReadable(isa, [Comment(close)] + Footer(a, condition))
  {
  }

  lemma {:induction false} KernelReadable<M(!new)>(isa: Isa<M>, c: Code<Line, Key>)
    requires WellNested(PttKeys(), c) && KernelReads(isa, c)
    ensures AllReadable(isa, Emit(ProgramOf(PttReader(), c)))
  {
    match c {
      case Nil =>
      case Line(l, rest) =>
        KernelReadable(isa, rest);
        ReadableSum(isa, [Source(Text(l))], Emit(ProgramOf(PttReader(), rest)));
      case Region(k, open, body, close, rest) =>
        KernelReadable(isa, body);
        KernelReadable(isa, rest);
        RegionParses(k, open, body, close, rest);
        EmittedRegion(k, open, body, close, rest);
        RegionReadable(
          isa, k, open, close, Emit(ProgramOf(PttReader(), body)), Emit(ProgramOf(PttReader(), rest)));
    }
  }

  lemma RegionParses(k: Key, open: Line, body: Code<Line, Key>, close: Line, rest: Code<Line, Key>)
    requires WellNested(PttKeys(), Code.Region(k, open, body, close, rest))
    ensures FrameOfLines(k, open, close).Frame? && WellNested(PttKeys(), body) && WellNested(PttKeys(), rest)
  {
  }

  lemma EmittedRegion(k: Key, open: Line, body: Code<Line, Key>, close: Line, rest: Code<Line, Key>)
    ensures var inside, behind := Emit(ProgramOf(PttReader(), body)), Emit(ProgramOf(PttReader(), rest));
      Emit(ProgramOf(PttReader(), Code.Region(k, open, body, close, rest))) ==
        if k == DUMMY then [Comment(Text(open))] + inside + [Comment(Text(close))] + behind
        else [Comment(Text(open))] + Header(ArgsOf(open)) + inside
             + ([Comment(Text(close))] + Footer(ArgsOf(open), ConditionOf(open))) + behind
  {
    EmittedParts(PttReader(), k, open, body, close, rest);
  }

  lemma EmittedParts(rd: Reader, k: Key, open: Line, body: Code<Line, Key>, close: Line, rest: Code<Line, Key>)
    ensures var inside, behind := Emit(ProgramOf(rd, body)), Emit(ProgramOf(rd, rest));
      Emit(ProgramOf(rd, Code.Region(k, open, body, close, rest))) ==
        if k == DUMMY then [Comment(rd.text(open))] + inside + [Comment(rd.text(close))] + behind
        else [Comment(rd.text(open))] + Header(rd.args(open)) + inside
             + ([Comment(rd.text(close))] + Footer(rd.args(open), rd.condition(open))) + behind
  {
  }

  lemma RegionReadable<M(!new)>(
    isa: Isa<M>, k: Key, open: Line, close: Line, body: seq<Line>, rest: seq<Line>)
    requires FrameOfLines(k, open, close).Frame? && (k == LOOP ==> LabelName(ArgsOf(open).name))
    requires AllReadable(isa, body) && AllReadable(isa, rest)
    ensures k == DUMMY ==> AllReadable(isa, [Comment(Text(open))] + body + [Comment(Text(close))] + rest)
    ensures k == LOOP ==>
      var a, condition := ArgsOf(open), ConditionOf(open);
      AllReadable(
        isa, [Comment(Text(open))] + Header(a) + body + ([Comment(Text(close))] + Footer(a, condition)) + rest)
  {
    if k == LOOP {
      var a, condition := FrameOfLoop(Text(open), Text(close));
      RegistersArePlain(Text(open));
      LoopReadable(isa, a, condition, Text(open), Text(close), body);
    }
  }

  lemma LoopReadable<M(!new)>(
    isa: Isa<M>, a: LoopArgs, condition: Condition, open: string, close: string, body: seq<Line>)
    requires ',' !in a.reg && ',' !in a.condreg && LabelName(a.name) && AllReadable(isa, body)
    ensures AllReadable(isa, [Comment(open)] + Header(a) + body + ([Comment(close)] + Footer(a, condition)))
  {
    HeaderReadable(isa, a, open);
    FooterReadable(isa, a, condition, close);
    ReadableSum(isa, [Comment(open)] + Header(a), body);
    ReadableSum(isa, [Comment(open)] + Header(a) + body, [Comment(close)] + Footer(a, condition));
  }

  /**
   From text to text: a well-nested kernel with distinct names is compiled to
   assembly text which, read by an assembler and run, ends in a state exactly when
   the kernel does.
   */
  lemma KernelTextIsCorrect<M(!new)>(isa: Isa<M>, text: string, c: Code<Line, Key>, s: State<M>, t: State<M>)
    requires text != "" && CodeOf(text) == Lines(c)
    requires WellNested(PttKeys(), c) && RegionCount(c) > 0 && Distinct(PttKeys(), c) && KernelReads(isa, c)
    ensures Prepared(text).Compiled? && Prepared(text).outcome.Done?
    ensures var texts := Texts(Prepared(text).outcome.lines);
      Evaluates(Meaning(isa), ProgramOf(PttReader(), c), s, t) <==> TextRuns(isa, texts, s, t)
  {
    KernelIsCorrect(isa, text, c, s, t);
    SourcesAreSource(SplitTrim(text, '\n'));
    TextIsSource(c);
    PttFaithful();
    FlatIsEmitted(PttKeys(), PttReader(), c);
    KernelReadable(isa, c);
    TextRunsAsCode(isa, Flat(PttKeys(), c), s, t);
  }
}
