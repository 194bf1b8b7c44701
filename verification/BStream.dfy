/**
 Buffered reading, the bStream of src/bstrlib.c. What a reader sees is the buffer
 followed by what is still unread in the underlying stream, whatever portions the
 read function hands out.
 */
module Streams {
  import opened Search
  import opened BStrings

  // ----- changes of one string

  /** bconcat: what is appended may be a part of the string itself, and is copied before the buffer is replaced. */
  method BConcat(b0: BString, b1: Text)
    requires b0.Fits() && (b1.Part? ==> b1.from + b1.len <= b0.data.Length)
    modifies b0, b0.data
    ensures b0.Valid() && b0.Content() == old(b0.Content()) + old(b0.Read(b1))
    ensures b0.data == old(b0.data) || fresh(b0.data)
  {
    var d, len, aux := b0.slen, b1.Length(), b1;
    if b0.mlen <= d + len + 1 {
      if b1.Part? {
        aux := Own(b0.Read(b1));
      }
      b0.Balloc(d + len + 1);
    }
    PutBehind(b0, b0.Read(aux));
  }

  /** Writes behind the end of the string. */
  method PutBehind(b: BString, s: seq<byte>)
    requires b.Fits() && b.slen + |s| < b.mlen
    modifies b`slen, b.data
    ensures b.Valid() && b.Content() == old(b.Content()) + s
  {
    ghost var was, d := b.Content(), b.slen;
    b.Write(b.slen, s);
    b.slen := b.slen + |s|;
    b.data[b.slen] := 0;
    assert b.data[..d] == was && b.data[d..b.slen] == s;
    assert b.Content() == b.data[..d] + b.data[d..b.slen];
  }

  /** bdelete: the part from pos on, of this length, is taken out; both are clamped to the string. */
  method BDelete(b: BString, pos: int, len: int) returns (ret: int)
    requires b.Fits()
    modifies b, b.data
    ensures b.Fits() && b.data == old(b.data) && b.mlen == old(b.mlen)
    ensures old(b.Valid()) || (pos == 0 && len > 0 && old(b.slen) > 0) ==> b.Valid()
    ensures var lo, n := if pos < 0 then 0 else pos, if pos < 0 then len + pos else len;
      if n < 0 then ret == BSTR_ERR && b.Content() == old(b.Content())
      else
        && ret == BSTR_OK
        && var hi := if lo + n < old(b.slen) then lo + n else old(b.slen);
           b.Content() ==
             if lo >= old(b.slen) then old(b.Content()) else old(b.Content())[..lo] + old(b.Content())[hi..]
  {
    var lo, n := pos, len;
    if lo < 0 {
      n := n + lo;
      lo := 0;
    }
    if n < 0 {
      return BSTR_ERR;
    }
    if n > 0 && lo < b.slen {
      ghost var was := b.Content();
      if lo + n >= b.slen {
        b.slen := lo;
      } else {
        var rest := b.slen - (lo + n);
        b.Move(lo, lo + n, rest);
        b.slen := b.slen - n;
        assert b.data[..b.slen] == b.data[..lo] + b.data[lo..lo + rest];
        assert b.data[..lo] == was[..lo] && b.data[lo..lo + rest] == was[lo + n..];
      }
      b.data[b.slen] := 0;
      assert b.data[..b.slen] == was[..lo] + was[if lo + n < |was| then lo + n else |was|..];
    } else if lo < b.slen {
      assert b.Content() == b.Content()[..lo] + b.Content()[lo..];
    }
    return BSTR_OK;
  }

  /**
   binsertblk: gaps are filled when the position lies beyond the end. A block that
   is a part of the string itself is copied first.
   */
  method BInsert(b: BString, pos: int, blk: Text, fill: byte) returns (ret: int)
    requires b.Fits() && (blk.Part? ==> blk.from + blk.len <= b.data.Length)
    modifies b, b.data
    ensures b.Fits() && (b.data == old(b.data) || fresh(b.data))
    ensures ret == if pos < 0 then BSTR_ERR else BSTR_OK
    ensures pos < 0 ==> b.Content() == old(b.Content())
    ensures pos >= 0 ==> b.Valid()
    ensures 0 <= pos <= old(b.slen) ==>
      b.Content() == old(b.Content())[..pos] + old(b.Read(blk)) + old(b.Content())[pos..]
    ensures pos > old(b.slen) ==>
      b.Content() == old(b.Content()) + seq(pos - old(b.slen), _ => fill) + old(b.Read(blk))
  {
    if pos < 0 {
      return BSTR_ERR;
    }
    var aux := b.Read(blk);
    var d, l := b.slen + |aux|, pos + |aux|;
    if l > d {
      b.Balloc(l + 1);
      InsertPast(b, pos, aux, fill);
    } else {
      b.Balloc(d + 1);
      InsertWithin(b, pos, aux);
    }
    b.data[b.slen] := 0;
    return BSTR_OK;
  }

  method InsertPast(b: BString, pos: nat, blk: seq<byte>, fill: byte)
    requires b.Fits() && pos > b.slen && pos + |blk| < b.mlen
    modifies b`slen, b.data
    ensures b.Fits() && b.Content() == old(b.Content()) + seq(pos - old(b.slen), _ => fill) + blk
  {
    ghost var was, gap := b.Content(), seq(pos - b.slen, _ => fill);
    forall k | b.slen <= k < pos {
      b.data[k] := fill;
    }
    assert b.data[..pos] == was + gap;
    b.Write(pos, blk);
    assert b.data[..pos] == was + gap;
    b.slen := pos + |blk|;
    assert b.Content() == b.data[..pos] + b.data[pos..b.slen];
  }

  method InsertWithin(b: BString, pos: nat, blk: seq<byte>)
    requires b.Fits() && pos <= b.slen && b.slen + |blk| < b.mlen
    modifies b`slen, b.data
    ensures b.Fits() && b.Content() == old(b.Content())[..pos] + blk + old(b.Content())[pos..]
  {
    ghost var was := b.Content();
    var d, l := b.slen + |blk|, pos + |blk|;
    b.Move(l, pos, d - l);
    assert b.data[..pos] == was[..pos] && b.data[l..d] == was[pos..];
    b.Write(pos, blk);
    assert b.data[..pos] == was[..pos] && b.data[l..d] == was[pos..];
    b.slen := d;
    assert b.Content() == b.data[..pos] + b.data[pos..l] + b.data[l..d];
  }

  // ----- the underlying stream

  /** Reads hand out portions of any size, at least one byte, until nothing is left. */
  class CoreStream {
    var rest: seq<byte>
    var calls: nat
    const portion: nat -> nat

    constructor (bytes: seq<byte>, portion: nat -> nat)
      ensures rest == bytes
    {
      rest, calls := bytes, 0;
      this.portion := portion;
    }

    method ReadFn(b: array<byte>, at: nat, max: nat) returns (l: nat)
      requires at + max <= b.Length && max > 0
      modifies this, b
      ensures l <= max && l <= |old(rest)| && (l == 0 <==> old(rest) == [])
      ensures rest == old(rest)[l..] && b[at..at + l] == old(rest)[..l] && b[..at] == old(b[..at])
    {
      var most := if max < |rest| then max else |rest|;
      l := if most == 0 then 0 else 1 + portion(calls) % most;
      calls := calls + 1;
      forall k | 0 <= k < l {
        b[at + k] := rest[k];
      }
      rest := rest[l..];
    }
  }

  // ----- lines

  /** How long the first line is, its terminator included; everything when there is no terminator. */
  function LineEnd(v: seq<byte>, t: byte): (n: nat)
    ensures n <= |v|
    ensures t in v ==> n > 0 && v[n - 1] == t && t !in v[..n - 1]
    ensures t !in v ==> n == |v|
  {
    if v == [] then 0
    else if v[0] == t then 1
    else
      var n := LineEnd(v[1..], t);
      assert n > 0 ==> v[..n] == [v[0]] + v[1..][..n - 1];
      1 + n
  }

  lemma LineEndIs(v: seq<byte>, t: byte, n: nat)
    requires 0 < n <= |v| && v[n - 1] == t && t !in v[..n - 1]
    ensures LineEnd(v, t) == n
  {
    var m := LineEnd(v, t);
    assert v[n - 1] in v;
    forall k | 0 <= k < n - 1
      ensures v[k] != t
    {
      assert v[..n - 1][k] == v[k];
    }
    forall k | 0 <= k < m - 1
      ensures v[k] != t
    {
      assert v[..m - 1][k] == v[k];
    }
  }

  /** The first terminator among l bytes; one is put behind them so that the search needs no bound. */
  method Scan(b: array<byte>, at: nat, l: nat, terminator: byte) returns (i: nat)
    requires at + l < b.Length
    modifies b
    ensures i <= l && b[at + i] == terminator && terminator !in b[at..at + i]
    ensures b[..at + l] == old(b[..at + l])
  {
    b[at + l] := terminator;
    i := 0;
    while b[at + i] != terminator
      invariant i <= l && terminator !in b[at..at + i]
      decreases l - i
    {
      assert b[at..at + i + 1] == b[at..at + i] + [b[at + i]];
      i := i + 1;
    }
    assert b[..at + l] == old(b[..at + l]);
  }

  class BStream {
    var buff: BString
    var src: CoreStream
    var isEOF: bool
    var maxBuffSz: int

    ghost predicate Valid()
      reads this, buff
    {
      buff.Fits() && maxBuffSz > 0
    }

    /** What is still to be read. */
    ghost function Virtual(): seq<byte>
      requires Valid()
      reads this, buff, buff.data, src
    {
      buff.Content() + src.rest
    }

    constructor (src: CoreStream, maxBuffSz: int)
      requires maxBuffSz > 0
      ensures Valid() && fresh(buff) && fresh(buff.data) && this.src == src && Virtual() == src.rest && !isEOF
    {
      buff := new BString([]);
      this.src, isEOF, this.maxBuffSz := src, false, maxBuffSz;
      new;
      assert [] + src.rest == src.rest;
    }

    /** bsunread: what is put back is what is read next. */
    method BsUnread(b: seq<byte>) returns (ret: int)
      requires Valid()
      modifies buff, buff.data
      ensures Valid() && ret == BSTR_OK && Virtual() == b + old(Virtual())
    {
      ghost var was, rest := buff.Content(), src.rest;
      ret := BInsert(buff, 0, Own(b), 63);
      assert was[..0] + b + was[0..] == b + was;
      assert b + was + rest == b + (was + rest);
    }

    /**
     bsreadlna: the first line of what is to be read is appended to r, and the rest
     is still to be read. The return value tells whether there was anything at all.
     */
    method BsReadLnA(r: BString, terminator: byte) returns (ret: int)
      requires Valid() && r.Valid() && r != buff && r.data != buff.data
      modifies this, buff, buff.data, src, r, r.data
      ensures Valid() && r.Valid() && buff == old(buff) && src == old(src)
      ensures var v := old(Virtual()); var n := LineEnd(v, terminator);
        && r.Content() == old(r.Content()) + v[..n] && Virtual() == v[n..]
        && (ret == if v == [] then BSTR_ERR else BSTR_OK)
        && (isEOF <==> old(isEOF) || terminator !in v)
    {
      ghost var v, was := Virtual(), r.Content();
      ghost var held := buff.Content();
      var l := buff.slen;
      buff.Balloc(maxBuffSz + 1);
      var i := Scan(buff.data, 0, l, terminator);
      assert buff.data[..l] == held;
      if i < l {
        HeldFirst(held, buff.data[..l + 1], terminator, i);
        TakeHeld(held, src.rest, terminator, i + 1);
        ret := TakeLine(r, i + 1, held);
        return;
      }
      var rlo := r.slen;
      BConcat(r, Own(buff.data[..l]));
      ret := ReadOn(r, terminator, rlo, v, held, was);
    }

    /** The line ends inside the buffer. */
    method TakeLine(r: BString, n: nat, ghost held: seq<byte>) returns (ret: int)
      requires Valid() && r.Valid() && r != buff && r.data != buff.data && buff.Content() == held && 0 < n <= |held|
      modifies buff, buff.data, r, r.data
      ensures Valid() && r.Valid() && ret == BSTR_OK
      ensures r.Content() == old(r.Content()) + held[..n] && buff.Content() == held[n..]
    {
      assert buff.data[..n] == held[..n];
      BConcat(r, Own(buff.data[..n]));
      assert buff.Content() == held;
      var deleted := BDelete(buff, 0, n);
      return BSTR_OK;
    }

    /** What is left to do after c has been appended to what r held at first; v is what was to be read. */
    ghost predicate Reading(r: BString, t: byte, v: seq<byte>, was: seq<byte>, c: seq<byte>)
      reads this, buff, src, r, r.data
    {
      && Valid() && r.Fits() && r != buff && r.data != buff.data && buff.mlen > maxBuffSz
      && r.Content() == was + c && v == c + src.rest && t !in c
    }

    /** The line has been read. */
    ghost predicate LineRead(r: BString, t: byte, v: seq<byte>, was: seq<byte>, ret: int)
      reads this, buff, buff.data, src, r, r.data
    {
      && Valid() && r.Valid()
      && var n := LineEnd(v, t);
         && r.Content() == was + v[..n] && Virtual() == v[n..]
         && (ret == if v == [] then BSTR_ERR else BSTR_OK)
    }

    /** Reads straight into r until the terminator turns up; what was read beyond it goes into the buffer. */
    method ReadOn(
      r: BString, terminator: byte, rlo: int, ghost v: seq<byte>, ghost held: seq<byte>, ghost was: seq<byte>)
      returns (ret: int)
      requires Reading(r, terminator, v, was, held) && rlo == |was|
      modifies this`isEOF, buff`slen, buff.data, src, r, r.data
      ensures LineRead(r, terminator, v, was, ret) && (isEOF <==> old(isEOF) || terminator !in v)
    {
      ghost var c := held;
      var done := false;
      ret := BSTR_OK;
      while !done
        invariant if done then LineRead(r, terminator, v, was, ret) && (isEOF <==> old(isEOF) || terminator !in v)
                  else Reading(r, terminator, v, was, c) && isEOF == old(isEOF)
        invariant r.data == old(r.data) || fresh(r.data)
        decreases !done, |src.rest|
      {
        done, ret, c := ReadMore(r, terminator, rlo, v, was, c);
      }
    }

    /** One pass of the reading loop. */
    method ReadMore(
      r: BString, terminator: byte, rlo: int, ghost v: seq<byte>, ghost was: seq<byte>, ghost c: seq<byte>)
      returns (done: bool, ret: int, ghost c': seq<byte>)
      requires Reading(r, terminator, v, was, c) && rlo == |was|
      modifies this`isEOF, buff`slen, buff.data, src, r, r.data
      ensures r.data == old(r.data) || fresh(r.data)
      ensures done ==> LineRead(r, terminator, v, was, ret) && (isEOF <==> old(isEOF) || terminator !in v)
      ensures !done ==> Reading(r, terminator, v, was, c') && isEOF == old(isEOF) && |src.rest| < old(|src.rest|)
    {
      done, ret, c' := true, BSTR_OK, c;
      ghost var rest := src.rest;
      var l, i := ReadPortion(r, terminator, was + c);
      if l == 0 {
        ret := NoMore(r, terminator, rlo, v, was, c);
      } else if i < l {
        LineEnds(r, terminator, l, i, v, was, c, rest);
      } else {
        MoreRead(c, rest, l, terminator, r.data[..r.slen + l], was);
        c' := c + rest[..l];
        r.slen := r.slen + l;
        done := false;
      }
    }

    /** The stream has come to its end. */
    method NoMore(
      r: BString, terminator: byte, rlo: int, ghost v: seq<byte>, ghost was: seq<byte>, ghost c: seq<byte>)
      returns (ret: int)
      requires Reading(r, terminator, v, was, c) && rlo == |was| && src.rest == []
      modifies this`isEOF, buff`slen, r.data
      ensures LineRead(r, terminator, v, was, ret) && isEOF && terminator !in v
    {
      r.data[r.slen] := 0;
      buff.slen := 0;
      isEOF := true;
      AllRead(v, c, terminator);
      ret := if r.slen == rlo then BSTR_ERR else BSTR_OK;
    }

    /** The terminator is the one at i of the l bytes that were just read. */
    method LineEnds(
      r: BString, terminator: byte, l: nat, i: nat,
      ghost v: seq<byte>, ghost was: seq<byte>, ghost c: seq<byte>, ghost rest: seq<byte>)
      requires Valid() && r.Fits() && r != buff && r.data != buff.data && i < l <= |rest| && l < buff.mlen
      requires r.slen == |was + c| && r.slen + l < r.data.Length && r.data[..r.slen + l] == was + c + rest[..l]
      requires v == c + rest && terminator !in c && rest[i] == terminator && terminator !in rest[..i]
      requires src.rest == rest[l..]
      modifies buff`slen, buff.data, r`slen, r.data
      ensures LineRead(r, terminator, v, was, BSTR_OK) && terminator in v
    {
      LineFound(v, c, rest, terminator, l, i + 1);
      Finish(r, l, i + 1, was + c, rest[..l]);
      assert was + c + rest[..l][..i + 1] == was + v[..|c| + i + 1];
    }

    /** One read behind the end of r, and the search for the terminator in what was read. */
    method ReadPortion(r: BString, terminator: byte, ghost content: seq<byte>) returns (l: nat, i: nat)
      requires Valid() && r.Fits() && r != buff && r.data != buff.data && r.Content() == content
      modifies src, r`data, r`mlen, r.data
      ensures r.Fits() && r.slen == old(r.slen) && (r.data == old(r.data) || fresh(r.data))
      ensures r.slen + l < r.data.Length && l <= maxBuffSz && l <= |old(src.rest)| && (l == 0 <==> old(src.rest) == [])
      ensures src.rest == old(src.rest)[l..] && r.data[..r.slen + l] == content + old(src.rest)[..l]
      ensures i <= l && terminator !in old(src.rest)[..i] && (i < l ==> old(src.rest)[i] == terminator)
    {
      ghost var rest := src.rest;
      l := ReadBehind(r, content);
      i := 0;
      if l > 0 {
        ghost var all := r.data[..r.slen + l];
        i := Scan(r.data, r.slen, l, terminator);
        PortionScanned(all, content, rest[..l], r.data[r.slen..r.slen + i], i);
        assert i < l ==> r.data[r.slen + i] == all[r.slen + i] == rest[i];
      }
    }

    /** One read behind the end of r. */
    method ReadBehind(r: BString, ghost content: seq<byte>) returns (l: nat)
      requires Valid() && r.Fits() && r != buff && r.data != buff.data && r.Content() == content
      modifies src, r`data, r`mlen, r.data
      ensures r.Fits() && r.slen == old(r.slen) && (r.data == old(r.data) || fresh(r.data))
      ensures r.slen + l < r.data.Length && l <= maxBuffSz && l <= |old(src.rest)| && (l == 0 <==> old(src.rest) == [])
      ensures src.rest == old(src.rest)[l..] && r.data[..r.slen + l] == content + old(src.rest)[..l]
    {
      r.Balloc(r.slen + maxBuffSz + 1);
      l := src.ReadFn(r.data, r.slen, maxBuffSz);
      assert r.data[..r.slen + l] == r.data[..r.slen] + r.data[r.slen..r.slen + l];
      assert r.data[..r.slen] == content;
    }

    /** The first n of the l bytes that were read end the line, the others go back. */
    method Finish(r: BString, l: nat, n: nat, ghost content: seq<byte>, ghost got: seq<byte>)
      requires Valid() && r.Fits() && r != buff && r.data != buff.data && 0 < n <= l == |got|
      requires r.slen == |content| && r.slen + l < r.data.Length && r.data[..r.slen + l] == content + got
      requires l < buff.mlen
      modifies buff`slen, buff.data, r`slen, r.data
      ensures Valid() && r.Valid() && r.Content() == content + got[..n] && buff.Content() == got[n..]
    {
      var from := r.slen + n;
      ghost var all := r.data[..r.slen + l];
      assert r.data[from..from + (l - n)] == all[from..] == got[n..];
      KeepRest(r.data, from, l - n);
      r.slen := from;
      assert r.data[..from] == all[..from] == content + got[..n];
      r.data[from] := 0;
    }

    /** Puts the bytes that were read too many into the buffer. */
    method KeepRest(b: array<byte>, from: nat, n: nat)
      requires buff.Fits() && b != buff.data && from + n <= b.Length && n < buff.mlen
      modifies buff`slen, buff.data
      ensures buff.Fits() && buff.Content() == b[from..from + n]
    {
      buff.slen := n;
      forall k | 0 <= k < n {
        buff.data[k] := b[from + k];
      }
    }
  }

  lemma PortionScanned(all: seq<byte>, content: seq<byte>, got: seq<byte>, scanned: seq<byte>, i: nat)
    requires all == content + got && i <= |got| && scanned == all[|content|..|content| + i]
    ensures scanned == got[..i]
  {
  }

  lemma HeldFirst(held: seq<byte>, b: seq<byte>, t: byte, i: nat)
    requires |b| == |held| + 1 && b[..|held|] == held && i < |held| && b[i] == t && t !in b[..i]
    ensures held[i] == t && t !in held[..i]
  {
    assert b[..i] == b[..|held|][..i];
  }

  lemma TakeHeld(held: seq<byte>, rest: seq<byte>, t: byte, n: nat)
    requires 0 < n <= |held| && held[n - 1] == t && t !in held[..n - 1]
    ensures LineEnd(held + rest, t) == n && t in held + rest
    ensures (held + rest)[..n] == held[..n] && (held + rest)[n..] == held[n..] + rest
  {
    assert (held + rest)[..n - 1] == held[..n - 1] && (held + rest)[n - 1] == t;
    LineEndIs(held + rest, t, n);
  }

  lemma AllRead(v: seq<byte>, c: seq<byte>, t: byte)
    requires v == c + [] && t !in c
    ensures t !in v && v == c && v[..LineEnd(v, t)] == v && v[LineEnd(v, t)..] == []
  {
  }

  /** The terminator is the n-th of the l bytes that were just read. */
  lemma LineFound(v: seq<byte>, c: seq<byte>, rest: seq<byte>, t: byte, l: nat, n: nat)
    requires v == c + rest && t !in c && 0 < n <= l <= |rest| && rest[n - 1] == t && t !in rest[..n - 1]
    ensures t in v && LineEnd(v, t) == |c| + n
    ensures v[..|c| + n] == c + rest[..l][..n] && v[|c| + n..] == rest[..l][n..] + rest[l..]
  {
    assert v[..|c| + n - 1] == c + rest[..n - 1] && v[|c| + n - 1] == t;
    LineEndIs(v, t, |c| + n);
  }

  lemma MoreRead(c: seq<byte>, rest: seq<byte>, l: nat, t: byte, b: seq<byte>, was: seq<byte>)
    requires l <= |rest| && t !in c && t !in rest[..l] && b == was + c + rest[..l]
    ensures t !in c + rest[..l] && b == was + (c + rest[..l]) && c + rest == c + rest[..l] + rest[l..]
  {
    assert rest == rest[..l] + rest[l..];
  }
}
