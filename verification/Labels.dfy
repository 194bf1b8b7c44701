/**
 The check that prepare_ptt (src/ptt2asm.c) makes of the names of the keywords
 before it starts: every name that opens a region closes one, and none is used twice.
 */
module Labels {
  import opened Wrappers
  import opened Nesting
  import opened Kernels

  predicate Marks<L, K>(kw: Keywords<L, K>, opening: bool, l: L) {
    if opening then kw.opens(l).Some? else kw.closes(l).Some?
  }

  /** The names of the opening or of the closing keywords, in order. */
  function Names<L, K>(kw: Keywords<L, K>, opening: bool, code: seq<L>): seq<string>
    decreases |code|
  {
    if code == [] then []
    else (if Marks(kw, opening, code[0]) then [kw.name(code[0])] else []) + Names(kw, opening, code[1..])
  }

  /** How often x is in the list. */
  function Times(l: seq<string>, x: string): nat {
    if l == [] then 0 else (if l[0] == x then 1 else 0) + Times(l[1..], x)
  }

  /** How many pairs of equal entries there are. */
  function Pairs(a: seq<string>, b: seq<string>): nat {
    if a == [] then 0 else Times(b, a[0]) + Pairs(a[1..], b)
  }

  predicate LabelsMatch<L, K>(kw: Keywords<L, K>, code: seq<L>) {
    var opennames, closenames := Names(kw, true, code), Names(kw, false, code);
    && opennames != [] && closenames != []
    && Pairs(opennames, closenames) == |opennames| == |closenames|
  }

  lemma {:induction false} NamesSum<L, K>(kw: Keywords<L, K>, opening: bool, a: seq<L>, b: seq<L>)
    ensures Names(kw, opening, a + b) == Names(kw, opening, a) + Names(kw, opening, b)
    decreases |a|
  {
    if a == [] {
      assert a + b == b;
    } else {
      assert (a + b)[1..] == a[1..] + b;
      NamesSum(kw, opening, a[1..], b);
    }
  }

  lemma NamesOne<L, K>(kw: Keywords<L, K>, opening: bool, l: L)
    ensures Names(kw, opening, [l]) == if Marks(kw, opening, l) then [kw.name(l)] else []
  {
    assert [l][1..] == [];
  }

  lemma NamesNext<L, K>(kw: Keywords<L, K>, opening: bool, code: seq<L>, i: nat)
    requires i < |code|
    ensures Names(kw, opening, code[..i + 1])
         == Names(kw, opening, code[..i]) + if Marks(kw, opening, code[i]) then [kw.name(code[i])] else []
  {
    assert code[..i + 1] == code[..i] + [code[i]];
    NamesSum(kw, opening, code[..i], [code[i]]);
    NamesOne(kw, opening, code[i]);
  }

  lemma {:induction false} NamesCount<L(!new), K>(kw: Keywords<L, K>, opening: bool, p: L -> bool, code: seq<L>)
    requires forall l :: p(l) <==> Marks(kw, opening, l)
    ensures |Names(kw, opening, code)| == Count(p, code)
    decreases |code|
  {
    if code != [] {
      NamesCount(kw, opening, p, code[1..]);
    }
  }

  lemma {:induction false} TimesNext(l: seq<string>, x: string, j: nat)
    requires j < |l|
    ensures Times(l[..j + 1], x) == Times(l[..j], x) + if l[j] == x then 1 else 0
  {
    if j == 0 {
      assert l[..1][1..] == [];
    } else {
      assert l[..j + 1][1..] == l[1..][..j] && l[..j][1..] == l[1..][..j - 1];
      TimesNext(l[1..], x, j - 1);
    }
  }

  lemma {:induction false} PairsNext(a: seq<string>, b: seq<string>, i: nat)
    requires i < |a|
    ensures Pairs(a[..i + 1], b) == Pairs(a[..i], b) + Times(b, a[i])
  {
    if i == 0 {
      assert a[..1][1..] == [];
    } else {
      assert a[..i + 1][1..] == a[1..][..i] && a[..i][1..] == a[1..][..i - 1];
      PairsNext(a[1..], b, i - 1);
    }
  }

  /** The names of all keywords are collected, and equal ones paired with two nested loops. */
  method CheckLabels<L, K>(kw: Keywords<L, K>, code: seq<L>) returns (ok: bool)
    ensures ok <==> LabelsMatch(kw, code)
  {
    var opennames, closenames := [], [];
    for i := 0 to |code|
      invariant opennames == Names(kw, true, code[..i]) && closenames == Names(kw, false, code[..i])
    {
      NamesNext(kw, true, code, i);
      NamesNext(kw, false, code, i);
      if kw.opens(code[i]).Some? {
        opennames := opennames + [kw.name(code[i])];
      }
      if kw.closes(code[i]).Some? {
        closenames := closenames + [kw.name(code[i])];
      }
    }
    assert code[..|code|] == code;
    if |opennames| == 0 || |closenames| == 0 {
      return false;
    }
    var bothnames := [];
    for i := 0 to |opennames|
      invariant |bothnames| == Pairs(opennames[..i], closenames)
    {
      PairsNext(opennames, closenames, i);
      for j := 0 to |closenames|
        invariant |bothnames| == Pairs(opennames[..i], closenames) + Times(closenames[..j], opennames[i])
      {
        TimesNext(closenames, opennames[i], j);
        if closenames[j] == opennames[i] {
          bothnames := bothnames + [opennames[i]];
        }
      }
      assert closenames[..|closenames|] == closenames;
    }
    assert opennames[..|opennames|] == opennames;
    return |bothnames| == |opennames| && |bothnames| == |closenames|;
  }

  // ----- well-nested code passes

  /** The names of the regions. */
  function RegionNames<L, K>(kw: Keywords<L, K>, c: Code<L, K>): seq<string> {
    match c
    case Nil => []
    case Line(_, rest) => RegionNames(kw, rest)
    case Region(_, open, body, _, rest) => [kw.name(open)] + RegionNames(kw, body) + RegionNames(kw, rest)
  }

  /** No region is named twice. */
  ghost predicate Distinct<L, K>(kw: Keywords<L, K>, c: Code<L, K>) {
    forall x :: Times(RegionNames(kw, c), x) <= 1
  }

  lemma {:induction false} TimesSum(a: seq<string>, b: seq<string>, x: string)
    ensures Times(a + b, x) == Times(a, x) + Times(b, x)
  {
    if a == [] {
      assert a + b == b;
    } else {
      assert (a + b)[1..] == a[1..] + b;
      TimesSum(a[1..], b, x);
    }
  }

  /** A line opens a region or closes one, but not both. */
  ghost predicate Exclusive<L(!new), K>(kw: Keywords<L, K>) {
    forall l :: kw.opens(l).Some? ==> kw.closes(l).None?
  }

  /** A name opens and closes regions as often as there are regions with it. */
  lemma {:induction false} NamesOfLines<L(!new), K>(kw: Keywords<L, K>, opening: bool, c: Code<L, K>, x: string)
    requires WellNested(kw, c) && Exclusive(kw)
    ensures Times(Names(kw, opening, Lines(c)), x) == Times(RegionNames(kw, c), x)
    ensures |Names(kw, opening, Lines(c))| == RegionCount(c)
  {
    match c {
      case Nil =>
      case Line(l, rest) =>
        NamesOfLines(kw, opening, rest, x);
        NamesSum(kw, opening, [l], Lines(rest));
        NamesOne(kw, opening, l);
        assert !kw.IsKeyword(l);
        assert [] + Names(kw, opening, Lines(rest)) == Names(kw, opening, Lines(rest));
      case Region(k, open, body, close, rest) =>
        NamesOfLines(kw, opening, body, x);
        NamesOfLines(kw, opening, rest, x);
        NamesOfRegion(kw, opening, open, Lines(body), close, Lines(rest), x);
        TimesSum([kw.name(open)] + RegionNames(kw, body), RegionNames(kw, rest), x);
        TimesSum([kw.name(open)], RegionNames(kw, body), x);
    }
  }

  lemma NamesOfRegion<L, K>(
    kw: Keywords<L, K>, opening: bool, open: L, body: seq<L>, close: L, rest: seq<L>, x: string)
    requires Marks(kw, opening, open) != Marks(kw, opening, close) && kw.name(open) == kw.name(close)
    ensures Times(Names(kw, opening, [open] + body + [close] + rest), x)
         == Times([kw.name(open)], x) + Times(Names(kw, opening, body), x) + Times(Names(kw, opening, rest), x)
    ensures |Names(kw, opening, [open] + body + [close] + rest)|
         == 1 + |Names(kw, opening, body)| + |Names(kw, opening, rest)|
  {
    NamesSum(kw, opening, [open] + body + [close], rest);
    NamesSum(kw, opening, [open] + body, [close]);
    NamesSum(kw, opening, [open], body);
    NamesOne(kw, opening, open);
    NamesOne(kw, opening, close);
    var a, b, c := Names(kw, opening, [open]), Names(kw, opening, body), Names(kw, opening, [close]);
    TimesSum(a + b + c, Names(kw, opening, rest), x);
    TimesSum(a + b, c, x);
    TimesSum(a, b, x);
  }

  lemma {:induction false} AllPaired(a: seq<string>, b: seq<string>)
    requires forall i :: 0 <= i < |a| ==> Times(b, a[i]) == 1
    ensures Pairs(a, b) == |a|
  {
    if a != [] {
      AllPaired(a[1..], b);
    }
  }

  lemma {:induction false} Present(a: seq<string>, i: nat)
    requires i < |a|
    ensures Times(a, a[i]) > 0
  {
    if i > 0 {
      Present(a[1..], i - 1);
    }
  }

  /** Regions with different names, properly nested, pass the check. */
  lemma KernelsPass<L(!new), K>(kw: Keywords<L, K>, c: Code<L, K>)
    requires WellNested(kw, c) && Exclusive(kw) && RegionCount(c) > 0 && Distinct(kw, c)
    ensures LabelsMatch(kw, Lines(c))
  {
    var opennames, closenames := Names(kw, true, Lines(c)), Names(kw, false, Lines(c));
    NamesOfLines(kw, true, c, "");
    NamesOfLines(kw, false, c, "");
    forall i | 0 <= i < |opennames|
      ensures Times(closenames, opennames[i]) == 1
    {
      NamesOfLines(kw, true, c, opennames[i]);
      NamesOfLines(kw, false, c, opennames[i]);
      Present(opennames, i);
    }
    AllPaired(opennames, closenames);
  }

  /** One region alone passes, whatever its name is. */
  lemma LoneRegionPasses<L(!new), K>(kw: Keywords<L, K>, open: L, close: L)
    requires Exclusive(kw) && kw.opens(open).Some? && kw.closes(close).Some? && kw.name(open) == kw.name(close)
    ensures LabelsMatch(kw, [open, close])
  {
    NamesOfRegion(kw, true, open, [], close, [], kw.name(open));
    NamesOfRegion(kw, false, open, [], close, [], kw.name(open));
    assert [open] + [] + [close] + [] == [open, close];
    var a, b := Names(kw, true, [open, close]), Names(kw, false, [open, close]);
    assert |a| == 1 && |b| == 1;
    assert a[1..] == [] && b[1..] == [] && [kw.name(open)][1..] == [];
    assert Times(a, kw.name(open)) == 1 && Times(b, kw.name(open)) == 1;
    assert a[0] == kw.name(open);
  }
}
