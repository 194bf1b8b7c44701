/**
 Counted strings, src/bstrlib.c: a buffer with a capacity and a length. The
 replace engine rewrites the buffer in place, in three ways depending on whether
 the string keeps its length, shrinks or grows.
 */
module BStrings {
  import opened Search
  import opened Replacing

  const BSTR_OK := 0

  /** An argument string: bytes of its own, or a part of the buffer of the string that is changed. */
  datatype Text = Own(bytes: seq<byte>) | Part(from: nat, len: nat) {
    function Length(): nat {
      if Own? then |bytes| else len
    }
  }

  predicate PowerOfTwo(n: nat) {
    n == 1 || (n > 0 && n % 2 == 0 && PowerOfTwo(n / 2))
  }

  /** The least power of two, 8 at least, that is greater than i. */
  function SnapUp(i: nat, p: nat := 8): (r: nat)
    requires p >= 8 && PowerOfTwo(p) && (p > 8 ==> p / 2 <= i)
    ensures r > i && r >= 8 && PowerOfTwo(r) && (r > 8 ==> r / 2 <= i)
    decreases i + 1 - p
  {
    if i < p then p else SnapUp(i, 2 * p)
  }

  /**
   The replacement is read from a buffer that is no longer that of the string: it
   is a longer text in the string itself, before everything that is searched,
   there is a match, and the longer string needs a larger buffer than one of
   `room` bytes.
   */
  ghost predicate ReadsReleased(same: Same, s: seq<byte>, room: nat, f: seq<byte>, repl: Text, pos: int) {
    && f != [] && repl.Part? && |f| < repl.len && repl.from + repl.len <= pos <= |s|
    && var matches := MatchList(same, s, pos, f);
       matches != [] && |s| + Times(|matches|, repl.len - |f|) + 1 >= room
  }

  /** Three bytes in a buffer of four, the first two in place of the third; in a buffer of eight there is room. */
  lemma ReadsReleasedExample()
    ensures ReadsReleased(Exact(), [1, 1, 2], 4, [2], Part(0, 2), 2)
    ensures !ReadsReleased(Exact(), [1, 1, 2], 8, [2], Part(0, 2), 2)
  {
    var s: seq<byte>, f: seq<byte> := [1, 1, 2], [2];
    assert s[2..3] == [2] && FirstFrom(Exact(), s, 2, f) == 2;
    assert FirstFrom(Exact(), s, 3, f) == BSTR_ERR;
    assert MatchList(Exact(), s, 2, f) == [2] + MatchList(Exact(), s, 3, f) == [2];
    assert Times(1, 1) == Times(0, 1) + 1 == 1;
  }

  const INITIAL_STATIC_FIND_INDEX_COUNT := 32

  /** Stores i in the growing list, which keeps one place free at its end. */
  method Append(d: array<nat>, mlen: nat, count: nat, i: nat) returns (t: array<nat>, mlen': nat)
    requires count < mlen <= d.Length && mlen >= INITIAL_STATIC_FIND_INDEX_COUNT
    modifies d
    ensures t == d || fresh(t)
    ensures count + 1 < mlen' <= t.Length && mlen' >= INITIAL_STATIC_FIND_INDEX_COUNT
    ensures t[..count + 1] == old(d[..count]) + [i]
  {
    t, mlen' := d, mlen;
    if count >= mlen - 1 {
      t := new nat[2 * mlen](k requires 0 <= k reads d => if k < d.Length then d[k] else 0);
      mlen' := mlen + mlen;
    }
    t[count] := i;
  }

  /** The search as the loops make it. */
  method FirstMatch(
    s: seq<byte>, pos: nat, f: seq<byte>, instr: (seq<byte>, int, seq<byte>) -> int, ghost p: Plan) returns (i: int)
    requires SearchesBy(instr, p) && f == p.f && pos <= |p.s| == |s| && s[pos..] == p.s[pos..]
    ensures i == p.first(pos)
  {
    i := instr(s, pos, f);
  }

  /**
   The positions of the matches, with the length of the string after the last;
   and how much longer it will get. The string is only read here.
   */
  method Collect(
    s: seq<byte>, f: seq<byte>, repl: nat, start: nat, instr: (seq<byte>, int, seq<byte>) -> int, ghost p: Plan)
    returns (d: array<nat>, count: nat, acc: nat)
    requires Planned(p) && SearchesBy(instr, p) && s == p.s && f == p.f && start <= |s| && |f| < repl
    ensures count < d.Length && fresh(d) && acc == Times(count, repl - |f|)
    ensures d[..count] == p.matches(start) && d[count] == |s|
  {
    var mlen := INITIAL_STATIC_FIND_INDEX_COUNT;
    d := new nat[INITIAL_STATIC_FIND_INDEX_COUNT + 1];
    count, acc := 0, 0;
    var pos := start;
    var i := FirstMatch(s, pos, f, instr, p);
    assert PlanLaw(p, pos);
    while i >= 0
      invariant pos <= |s| && i == p.first(pos) && PlanLaw(p, pos)
      invariant count < mlen <= d.Length && mlen >= INITIAL_STATIC_FIND_INDEX_COUNT && fresh(d)
      invariant acc == Times(count, repl - |f|)
      invariant p.matches(start) == d[..count] + p.matches(pos)
      decreases |s| - pos
    {
      ghost var found := d[..count];
      assert found + p.matches(pos) == found + [i as nat] + p.matches(i + |f|);
      pos := i + |f|;
      acc := acc + (repl - |f|);
      d, mlen := Append(d, mlen, count, i);
      count := count + 1;
      i := FirstMatch(s, pos, f, instr, p);
      assert PlanLaw(p, pos);
    }
    assert d[..count] + [] == d[..count];
    d[count] := |s|;
  }

  class BString {
    var data: array<byte>
    var slen: int
    var mlen: int

    /** Length and capacity are in order. */
    ghost predicate Fits()
      reads this
    {
      0 <= slen < mlen == data.Length
    }

    /** And a zero byte follows the string. */
    ghost predicate Valid()
      reads this, data
    {
      Fits() && data[slen] == 0
    }

    ghost function Content(): (s: seq<byte>)
      requires Fits()
      reads this, data
      ensures |s| == slen
    {
      data[..slen]
    }

    constructor (s: seq<byte>)
      ensures Valid() && Content() == s && fresh(data)
    {
      var room := SnapUp(|s|);
      var d := new byte[room](i => if 0 <= i < |s| then s[i] else 0);
      data, slen, mlen := d, |s|, room;
      new;
      assert data[..slen] == s;
    }

    /** The text is no part of the buffer, or lies in its first n bytes; where an empty text lies is of no account. */
    ghost predicate Within(t: Text, n: int)
      reads this
    {
      t.Part? ==> t.from + t.len <= data.Length && (t.len == 0 || t.from + t.len <= n)
    }

    function Read(t: Text): (s: seq<byte>)
      requires t.Part? ==> t.from + t.len <= data.Length
      reads this, data
      ensures |s| == t.Length()
    {
      match t
      case Own(bytes) => bytes
      case Part(from, len) => data[from..from + len]
    }

    /** memmove within the buffer; the two ranges may overlap. */
    method Move(to: nat, from: nat, n: nat)
      requires to + n <= data.Length && from + n <= data.Length
      modifies data
      ensures data[to..to + n] == old(data[from..from + n])
      ensures Agree(data[..], old(data[..]), 0, to) && Agree(data[..], old(data[..]), to + n, data.Length)
    {
      forall k | 0 <= k < n {
        data[to + k] := data[from + k];
      }
    }

    /** memcpy into the buffer. */
    method Write(to: nat, s: seq<byte>)
      requires to + |s| <= data.Length
      modifies data
      ensures data[to..to + |s|] == s
      ensures Agree(data[..], old(data[..]), 0, to) && Agree(data[..], old(data[..]), to + |s|, data.Length)
    {
      forall k | 0 <= k < |s| {
        data[to + k] := s[k];
      }
    }

    /** Makes room for more than `len` bytes, in a new buffer if need be; the string stays as it is. */
    method Balloc(len: nat)
      requires Fits() && len > 0
      modifies this`data, this`mlen
      ensures Fits() && slen == old(slen) && Content() == old(Content()) && mlen > len
      ensures old(Valid()) ==> Valid()
      ensures if old(mlen) > len then data == old(data) else fresh(data)
    {
      if len >= mlen {
        var room := SnapUp(len);
        var old' := data;
        var n := slen;
        var x := new byte[room](i requires 0 <= i reads old' => if i < old'.Length then old'[i] else 0);
        data, mlen := x, room;
      }
    }

    /** Searches on in a buffer that from pos on still holds what it held at first. */
    method Next(instr: (seq<byte>, int, seq<byte>) -> int, pos: nat, find: Text, ghost p: Plan) returns (i: int)
      requires Fits() && SearchesBy(instr, p) && slen == |p.s| && pos <= slen && Agree(data[..], p.s, pos, slen)
      requires Within(find, data.Length) && Read(find) == p.f
      ensures i == p.first(pos)
    {
      assert data[..slen][pos..] == p.s[pos..];
      i := FirstMatch(data[..slen], pos, Read(find), instr, p);
    }

    /** Both texts lie before `start`, if in the buffer at all, and are those of the plan. */
    ghost predicate Reads(find: Text, repl: Text, start: nat, p: Plan)
      reads this, data
    {
      Within(find, start) && Within(repl, start) && Read(find) == p.f && Read(repl) == p.r
    }

    /** Writes one replacement of the same length over the match at i. */
    method Overwrite(
      i: nat, find: Text, repl: Text, start: nat, ghost p: Plan, ghost want: seq<byte>, ghost pos: nat)
      requires Valid() && slen == |p.s| && start <= pos && Progress(p, data[..], want, pos, pos)
      requires PlanLaw(p, pos) && i == p.first(pos) && |p.f| == |p.r| && Reads(find, repl, start, p)
      modifies data
      ensures Valid() && Progress(p, data[..], want, i + |p.f|, i + |p.f|) && Reads(find, repl, start, p)
    {
      ghost var buf := data[..];
      Write(i, Read(repl));
      EqualStep(p, buf, data[..], want, pos, i);
      KeptBefore(find, p.f, data[..], buf, start);
      KeptBefore(repl, p.r, data[..], buf, start);
    }

    /** Before position pos all is done, and i is the next match; the string is acc bytes shorter there. */
    ghost predicate UnderWay(
      find: Text, repl: Text, start: nat, p: Plan, want: seq<byte>, pos: nat, acc: nat, i: int)
      reads this, data
    {
      && Valid() && slen == |p.s| && start + acc <= pos <= slen && i == p.first(pos) && PlanLaw(p, pos)
      && Progress(p, data[..], want, pos, pos - acc) && Reads(find, repl, start, p)
    }

    /** The next match, where all before pos is done. */
    method GoOn(
      find: Text, repl: Text, start: nat, instr: (seq<byte>, int, seq<byte>) -> int, ghost p: Plan,
      ghost want: seq<byte>, pos: nat, ghost acc: nat) returns (i: int)
      requires Planned(p) && SearchesBy(instr, p) && Valid() && slen == |p.s| && start + acc <= pos <= slen
      requires Progress(p, data[..], want, pos, pos - acc) && Reads(find, repl, start, p)
      ensures UnderWay(find, repl, start, p, want, pos, acc, i)
    {
      i := Next(instr, pos, find, p);
      assert PlanLaw(p, pos);
    }

    /** Deals with all matches when the length stays the same. */
    method OverwriteAll(
      find: Text, repl: Text, start: nat, instr: (seq<byte>, int, seq<byte>) -> int, ghost p: Plan,
      ghost want: seq<byte>)
      requires Valid() && slen == |p.s| && start <= slen && Planned(p) && SearchesBy(instr, p)
      requires Reads(find, repl, start, p) && |p.f| == |p.r| && Progress(p, data[..], want, start, start)
      modifies data
      ensures Valid() && Content() == want
    {
      var pos := start;
      var i := GoOn(find, repl, start, instr, p, want, pos, 0);
      while i >= 0
        invariant UnderWay(find, repl, start, p, want, pos, 0, i)
        decreases slen - pos
      {
        Overwrite(i, find, repl, start, p, want, pos);
        pos := i + find.Length();
        i := GoOn(find, repl, start, instr, p, want, pos, 0);
      }
      ProgressEnd(p, data[..], want, pos, pos);
    }

    /** Replacement by a text of the same length. */
    method ReplaceEqual(
      find: Text, repl: Text, start: nat, instr: (seq<byte>, int, seq<byte>) -> int, ghost same: Same)
      requires Valid() && FindsFirst(instr, same) && start <= slen
      requires Within(find, start) && Within(repl, start) && find.Length() == repl.Length() > 0
      modifies data
      ensures Valid()
      ensures Content() == old(Content()[..start] + Replaced(same, Content(), start, Read(find), Read(repl)))
    {
      ghost var p := MakePlan(find, repl, start, instr, same);
      OverwriteAll(find, repl, start, instr, p, p.s[..start] + p.rest(start));
    }

    /** The plan of a replacement. */
    ghost method MakePlan(
      find: Text, repl: Text, start: nat, instr: (seq<byte>, int, seq<byte>) -> int, same: Same) returns (p: Plan)
      requires Fits() && FindsFirst(instr, same) && start <= slen
      requires Within(find, data.Length) && Within(repl, data.Length) && find.Length() > 0
      ensures p.s == Content() && p.f == Read(find) && p.r == Read(repl) && Planned(p) && SearchesBy(instr, p)
      ensures p.rest(start) == Replaced(same, Content(), start, Read(find), Read(repl))
      ensures p.matches(start) == MatchList(same, Content(), start, Read(find))
      ensures Progress(p, data[..], p.s[..start] + p.rest(start), start, start)
    {
      p := PlanOf(same, Content(), Read(find), Read(repl));
      PlanIsLawful(same, Content(), Read(find), Read(repl));
      SearchIsPlanned(instr, same, Content(), Read(find), Read(repl));
      ProgressStart(p, data[..], start);
    }

    /** Closes the gap of acc bytes before the bytes from pos up to i, which are still the original ones. */
    method MoveDown(pos: nat, i: nat, acc: nat, ghost s: seq<byte>)
      requires acc <= pos <= i <= |s| <= data.Length && Agree(data[..], s, pos, |s|)
      modifies data
      ensures data[..i - acc] == old(data[..pos - acc]) + s[pos..i]
      ensures Agree(data[..], old(data[..]), 0, pos - acc) && Agree(data[..], old(data[..]), i, data.Length)
    {
      ghost var buf := data[..];
      if acc > 0 && i > pos {
        Move(pos - acc, pos, i - pos);
      }
      MovedDown(s, buf, data[..], pos, i, acc);
    }

    /** Writes the replacement; nothing is to be done when it is empty. */
    method Place(to: nat, repl: Text, ghost r: seq<byte>)
      requires Within(repl, data.Length) && Read(repl) == r && to + |r| <= data.Length
      modifies data
      ensures data[to..to + |r|] == r
      ensures Agree(data[..], old(data[..]), 0, to) && Agree(data[..], old(data[..]), to + |r|, data.Length)
    {
      var bytes := Read(repl);
      assert bytes == r;
      if |bytes| > 0 {
        Write(to, bytes);
      }
    }

    /** Deals with the match at i when the string gets shorter. */
    method Shrink(
      i: nat, find: Text, repl: Text, start: nat, pos: nat, acc: nat, ghost p: Plan, ghost want: seq<byte>)
      requires Valid() && slen == |p.s| && start + acc <= pos && Progress(p, data[..], want, pos, pos - acc)
      requires PlanLaw(p, pos) && i == p.first(pos) && |p.r| < |p.f| && Reads(find, repl, start, p)
      modifies data
      ensures Valid() && Progress(p, data[..], want, i + |p.f|, i - acc + |p.r|) && Reads(find, repl, start, p)
    {
      ghost var buf := data[..];
      MoveDownAndPlace(pos, i, acc, repl, start, p.s, p.r);
      ShrinkStep(p, buf, data[..], want, pos, acc, i, i - acc + |p.r|);
      KeptBefore(find, p.f, data[..], buf, start);
      KeptBefore(repl, p.r, data[..], buf, start);
    }

    /** The bytes before a match at i, moved down, and the replacement behind them. */
    method MoveDownAndPlace(
      pos: nat, i: nat, acc: nat, repl: Text, start: nat, ghost s: seq<byte>, ghost r: seq<byte>)
      requires start + acc <= pos <= i <= |s| <= data.Length && Agree(data[..], s, pos, |s|)
      requires Within(repl, start) && Read(repl) == r && i - acc + |r| <= data.Length
      modifies data
      ensures data[..i - acc] == old(data[..pos - acc]) + s[pos..i] && data[i - acc..i - acc + |r|] == r
      ensures Agree(data[..], old(data[..]), 0, start)
      ensures forall hi :: i <= hi && i - acc + |r| <= hi ==> Agree(data[..], old(data[..]), hi, data.Length)
    {
      ghost var buf := data[..];
      MoveDown(pos, i, acc, s);
      ghost var mid := data[..];
      KeptBefore(repl, r, mid, buf, start);
      Place(i - acc, repl, r);
      assert data[..i - acc] == mid[..i - acc];
    }

    /** Deals with all matches; the last part of the string has still to be moved. */
    method ShrinkAll(
      find: Text, repl: Text, start: nat, instr: (seq<byte>, int, seq<byte>) -> int, ghost p: Plan,
      ghost want: seq<byte>) returns (pos: nat, acc: nat)
      requires Valid() && slen == |p.s| && start <= slen && Planned(p) && SearchesBy(instr, p)
      requires Reads(find, repl, start, p) && |p.f| > |p.r| && Progress(p, data[..], want, start, start)
      modifies data
      ensures UnderWay(find, repl, start, p, want, pos, acc, BSTR_ERR)
    {
      pos, acc := start, 0;
      var i := GoOn(find, repl, start, instr, p, want, pos, acc);
      while i >= 0
        invariant UnderWay(find, repl, start, p, want, pos, acc, i)
        decreases slen - pos
      {
        pos, acc, i := ShrinkNext(i, find, repl, start, instr, pos, acc, p, want);
      }
    }

    method ShrinkNext(
      i: nat, find: Text, repl: Text, start: nat, instr: (seq<byte>, int, seq<byte>) -> int, pos: nat, acc: nat,
      ghost p: Plan, ghost want: seq<byte>) returns (pos': nat, acc': nat, i': int)
      requires Planned(p) && SearchesBy(instr, p) && |p.f| > |p.r|
      requires UnderWay(find, repl, start, p, want, pos, acc, i)
      modifies data
      ensures pos < pos' && UnderWay(find, repl, start, p, want, pos', acc', i')
    {
      Shrink(i, find, repl, start, pos, acc, p, want);
      pos', acc' := i + find.Length(), acc + (find.Length() - repl.Length());
      i' := GoOn(find, repl, start, instr, p, want, pos', acc');
    }

    /** Replacement by a shorter text. */
    method ReplaceShrinking(
      find: Text, repl: Text, start: nat, instr: (seq<byte>, int, seq<byte>) -> int, ghost same: Same)
      requires Valid() && FindsFirst(instr, same) && start <= slen
      requires Within(find, start) && Within(repl, start) && find.Length() > repl.Length()
      modifies this`slen, data
      ensures Valid()
      ensures Content() == old(Content()[..start] + Replaced(same, Content(), start, Read(find), Read(repl)))
    {
      ghost var p := MakePlan(find, repl, start, instr, same);
      ghost var want := p.s[..start] + p.rest(start);
      var pos, acc := ShrinkAll(find, repl, start, instr, p, want);
      ShrinkEnd(find, repl, start, pos, acc, p, want);
    }

    /** When there is no match left. */
    method ShrinkEnd(
      ghost find: Text, ghost repl: Text, ghost start: nat, pos: nat, acc: nat, ghost p: Plan, ghost want: seq<byte>)
      requires UnderWay(find, repl, start, p, want, pos, acc, BSTR_ERR)
      modifies this`slen, data
      ensures Valid() && Content() == want
    {
      ProgressEnd(p, data[..], want, pos, pos - acc);
      if acc > 0 {
        CloseUp(pos, acc, p.s);
      }
    }

    /** Moves the rest of the string down and cuts it off. */
    method CloseUp(pos: nat, acc: nat, ghost s: seq<byte>)
      requires 0 < acc <= pos <= |s| == slen < mlen == data.Length && Agree(data[..], s, pos, |s|)
      modifies this`slen, data
      ensures Valid() && Content() == old(data[..pos - acc]) + s[pos..]
    {
      MoveDown(pos, slen, acc, s);
      slen := slen - acc;
      data[slen] := 0;
      assert s[pos..] == s[pos..|s|];
    }

    /** Moves l bytes, which are still the original ones, up by acc. */
    method MoveUp(from: nat, acc: nat, l: nat, ghost s: seq<byte>)
      requires from + acc + l <= data.Length && Agree(data[..], s, 0, from + l)
      modifies data
      ensures data[from + acc..from + acc + l] == s[from..from + l]
      ensures Agree(data[..], old(data[..]), 0, from + acc)
      ensures Agree(data[..], old(data[..]), from + acc + l, data.Length)
    {
      ghost var buf := data[..];
      if l > 0 {
        Move(from + acc, from, l);
      }
      Moved(s, buf, data[..], from, acc, l);
    }

    /** Moves the bytes between two matches to their place and writes the replacement before them. */
    method LayDown(
      d: array<nat>, k: nat, acc: nat, flen: nat, repl: Text, start: nat, ghost y: Layout, ghost n: nat)
      requires k + 1 < |y.e| <= d.Length && d[..|y.e|] == y.e && flen == y.flen < |y.r| && start <= y.e[k]
      requires LayoutLaw(y, k) && LayoutLaw(y, k + 1) && acc == y.added(k + 1) && Laid(y, data[..], k + 1, n)
      requires Within(repl, start) && Read(repl) == y.r
      modifies data
      ensures Laid(y, data[..], k, n) && Read(repl) == y.r
    {
      ghost var buf := data[..];
      assert d[k] == d[..|y.e|][k] && d[k + 1] == d[..|y.e|][k + 1];
      var from := d[k] + flen;
      var l := d[k + 1] - from;
      MoveUpAndPlace(from, acc, l, repl, start, y.s, y.r);
      LaidDown(y, buf, data[..], k, n, from, l, from + acc);
      KeptBefore(repl, y.r, data[..], buf, start);
    }

    /** The bytes behind a match, moved up, and the replacement before them. */
    method MoveUpAndPlace(
      from: nat, acc: nat, l: nat, repl: Text, start: nat, ghost s: seq<byte>, ghost r: seq<byte>)
      requires from + acc + l <= data.Length && Agree(data[..], s, 0, from + l)
      requires Within(repl, start) && Read(repl) == r && start <= from && start + |r| <= from + acc
      modifies data
      ensures data[from + acc..from + acc + l] == s[from..from + l]
      ensures data[from + acc - |r|..from + acc] == r
      ensures Agree(data[..], old(data[..]), 0, from + acc - |r|)
      ensures Agree(data[..], old(data[..]), from + acc + l, data.Length)
    {
      ghost var buf := data[..];
      MoveUp(from, acc, l, s);
      ghost var mid := data[..];
      KeptBefore(repl, r, mid, buf, start);
      Place(from + acc - repl.Length(), repl, r);
      assert data[from + acc..from + acc + l] == mid[from + acc..from + acc + l];
    }

    /** Lays down all segments, the last one first, so that nothing is overwritten that is still to be moved. */
    method LayAll(
      d: array<nat>, count: nat, acc: nat, flen: nat, repl: Text, start: nat, ghost y: Layout, ghost n: nat)
      requires LaidOut(y) && |y.e| == count + 1 <= d.Length && d[..|y.e|] == y.e && flen == y.flen
      requires acc == y.added(count) && Laid(y, data[..], count, n)
      requires Within(repl, start) && Read(repl) == y.r && forall k :: 0 <= k < |y.e| ==> start <= y.e[k]
      modifies data
      ensures Laid(y, data[..], 0, n)
    {
      var k, rest := count, acc;
      while k > 0
        invariant 0 <= k <= count && 0 <= rest == y.added(k) && Laid(y, data[..], k, n)
        invariant Read(repl) == y.r
      {
        assert LayoutLaw(y, k) && LayoutLaw(y, k - 1);
        k := k - 1;
        LayDown(d, k, rest, flen, repl, start, y, n);
        rest := rest - (repl.Length() - flen);
      }
    }

    /** Lays down the new string over the old one, for which there is room. */
    method Rewrite(
      d: array<nat>, count: nat, acc: nat, flen: nat, repl: Text, start: nat, ghost y: Layout,
      ghost rest: seq<byte>)
      requires Fits() && Content() == y.s && slen + acc < mlen && LaidOut(y) && acc == y.added(count)
      requires |y.e| == count + 1 <= d.Length && d[..|y.e|] == y.e && flen == y.flen
      requires Within(repl, start) && Read(repl) == y.r && forall k :: 0 <= k < |y.e| ==> start <= y.e[k]
      requires y.e[0] <= |y.s| && rest == y.s[start..y.e[0]] + y.after(0)
      modifies this`slen, data
      ensures Valid() && Content() == y.s[..start] + rest
    {
      assert Agree(data[..], y.s, 0, slen) by {
        assert forall k :: 0 <= k < slen ==> data[..slen][k] == data[k];
      }
      LaidStart(y, data[..]);
      slen := slen + acc;
      LayAll(d, count, acc, flen, repl, start, y, slen);
      LaidAll(y, data[..], rest, slen, start);
      data[slen] := 0;
    }

    /**
     Replacement by a longer text. Where it is read from a buffer that the string
     has left, the source goes on with what that memory holds; the model stops.
     */
    method ReplaceExpanding(
      find: Text, repl: Text, start: nat, instr: (seq<byte>, int, seq<byte>) -> int, ghost same: Same)
      returns (stale: bool)
      requires Valid() && FindsFirst(instr, same) && start <= slen
      requires Within(find, slen) && Within(repl, start) && 0 < find.Length() < repl.Length()
      modifies this, data
      ensures stale <==> old(ReadsReleased(same, Content(), mlen, Read(find), repl, start))
      ensures !stale ==>
        && Valid()
        && Content() == old(Content()[..start] + Replaced(same, Content(), start, Read(find), Read(repl)))
    {
      ghost var p := MakePlan(find, repl, start, instr, same);
      ReleasedWhen(same, p.s, mlen, p.f, repl, start);
      stale := Expand(find, repl, start, instr, p);
    }

    /** Collects the matches, makes room, and lays down the new string. */
    method Expand(
      find: Text, repl: Text, start: nat, instr: (seq<byte>, int, seq<byte>) -> int, ghost p: Plan)
      returns (stale: bool)
      requires Valid() && Content() == p.s && Within(find, slen) && Within(repl, start) && Read(find) == p.f
      requires Read(repl) == p.r && start <= slen && Planned(p) && SearchesBy(instr, p) && |p.f| < |p.r|
      modifies this, data
      ensures stale <==> old(repl.Part? && p.matches(start) != [] &&
        slen + Times(|p.matches(start)|, |p.r| - |p.f|) + 1 >= mlen)
      ensures !stale ==> Valid() && Content() == p.s[..start] + p.rest(start)
    {
      ghost var y := LayoutFor(p, start);
      var flen := find.Length();
      var d, count, acc := Collect(data[..slen], Read(find), repl.Length(), start, instr, p);
      assert d[..count + 1] == d[..count] + [d[count]];
      assert |d[..count]| == count;
      var buffer := data;
      Balloc(slen + acc + 1);
      KeptBefore(repl, p.r, Content(), p.s, start);
      if repl.Part? && data != buffer && count > 0 {
        return true;
      }
      Rewrite(d, count, acc, flen, repl, start, y, p.rest(start));
      return false;
    }

    /**
     All occurrences of `find` from pos on are replaced. A text that overlaps the
     part that changes is copied first.
     */
    method FindReplace(find: Text, repl: Text, pos: int, instr: (seq<byte>, int, seq<byte>) -> int, ghost same: Same)
      returns (ret: int, stale: bool)
      requires Valid() && FindsFirst(instr, same)
      requires Within(find, slen) && Within(repl, slen)
      modifies this, data
      ensures stale <==> old(ReadsReleased(same, Content(), mlen, Read(find), repl, pos))
      ensures ret == if pos < 0 || find.Length() == 0 then BSTR_ERR else BSTR_OK
      ensures !stale ==> Valid()
      ensures ret == BSTR_ERR || pos > old(slen) ==> Content() == old(Content())
      ensures !stale && ret == BSTR_OK && pos <= old(slen) ==>
        Content() == old(Content()[..pos] + Replaced(same, Content(), pos, Read(find), Read(repl)))
    {
      stale := false;
      if pos < 0 || find.Length() <= 0 {
        return BSTR_ERR, stale;
      }
      if pos > slen - find.Length() {
        if pos <= slen {
          assert FirstFrom(same, Content(), pos, Read(find)) == BSTR_ERR;
          assert Content() == Content()[..pos] + Content()[pos..];
        }
        return BSTR_OK, stale;
      }
      var auxf, auxr := find, repl;
      if find.Part? && pos - find.len < find.from && find.from < slen {
        auxf := Own(Read(find));
      }
      if repl.Part? && pos - repl.len < repl.from && repl.from < slen {
        auxr := Own(Read(repl));
      }
      var delta := auxf.Length() - auxr.Length();
      if delta == 0 {
        ReplaceEqual(auxf, auxr, pos, instr, same);
      } else if delta > 0 {
        ReplaceShrinking(auxf, auxr, pos, instr, same);
      } else {
        stale := ReplaceExpanding(auxf, auxr, pos, instr, same);
      }
      return BSTR_OK, stale;
    }
  }

  lemma KeptBefore(t: Text, bytes: seq<byte>, buf: seq<byte>, was: seq<byte>, start: nat)
    requires t.Part? ==> t.from + t.len <= |buf| && t.from + t.len <= |was| && bytes == was[t.from..t.from + t.len]
    requires t.Part? ==> t.len == 0 || t.from + t.len <= start
    requires Agree(buf, was, 0, start)
    ensures t.Part? ==> buf[t.from..t.from + t.len] == bytes
  {
  }

  lemma ReleasedWhen(same: Same, s: seq<byte>, room: nat, f: seq<byte>, repl: Text, start: nat)
    requires f != [] && |f| < repl.Length() && start <= |s| && (repl.Part? ==> repl.from + repl.len <= start)
    ensures var matches := MatchList(same, s, start, f);
      ReadsReleased(same, s, room, f, repl, start)
      <==> repl.Part? && matches != [] && |s| + Times(|matches|, repl.Length() - |f|) + 1 >= room
  {
  }
}
