/**
 The open-addressing hash table of src/ghash.c.

 Pointers are numbers and NULL is 0, so that a key and a value can share one
 array, as they do in the source until the first differing value is stored.
 What a key pointer stands for (the string it points to, or the integer it was
 cast from) is its content; key equality and the hash function respect it.
 */
module GHash {
  import opened Probing
  import opened Wrappers

  type gpointer = nat

  type guint = h: nat | h < 0x1_0000_0000

  const NULL: gpointer := 0
  const UNUSED: guint := 0
  const TOMBSTONE: guint := 1
  const MIN_SHIFT := 3

  datatype Entry = Entry(key: gpointer, value: gpointer)

  /** Without an equality function, keys are compared as pointers. */
  predicate Same(keyEqual: Option<(gpointer, gpointer) -> bool>, a: gpointer, b: gpointer) {
    match keyEqual
    case None => a == b
    case Some(equal) => equal(a, b)
  }

  predicate IsReal(h: guint) {
    h >= 2
  }

  /** Hashes 0 and 1 are reserved; they are replaced by 2. */
  function RealHash(h: guint): (r: guint)
    ensures IsReal(r)
  {
    if IsReal(h) then h else 2
  }

  /** The first prime below each power of two. */
  function PrimeMod(shift: nat): nat
    requires shift < 32
  {
    match shift
    case 0 => 1 case 1 => 2 case 2 => 3 case 3 => 7
    case 4 => 13 case 5 => 31 case 6 => 61 case 7 => 127
    case 8 => 251 case 9 => 509 case 10 => 1021 case 11 => 2039
    case 12 => 4093 case 13 => 8191 case 14 => 16381 case 15 => 32749
    case 16 => 65521 case 17 => 131071 case 18 => 262139 case 19 => 524287
    case 20 => 1048573 case 21 => 2097143 case 22 => 4194301 case 23 => 8388593
    case 24 => 16777213 case 25 => 33554393 case 26 => 67108859 case 27 => 134217689
    case 28 => 268435399 case 29 => 536870909 case 30 => 1073741789 case _ => 2147483647
  }

  lemma Pow2Table()
    ensures Pow2(0) == 1 && Pow2(1) == 2 && Pow2(2) == 4 && Pow2(3) == 8
    ensures Pow2(4) == 16 && Pow2(5) == 32 && Pow2(6) == 64 && Pow2(7) == 128
    ensures Pow2(8) == 256 && Pow2(9) == 512 && Pow2(10) == 1024 && Pow2(11) == 2048
    ensures Pow2(12) == 4096 && Pow2(13) == 8192 && Pow2(14) == 16384 && Pow2(15) == 32768
    ensures Pow2(16) == 65536 && Pow2(17) == 131072 && Pow2(18) == 262144 && Pow2(19) == 524288
    ensures Pow2(20) == 1048576 && Pow2(21) == 2097152 && Pow2(22) == 4194304 && Pow2(23) == 8388608
    ensures Pow2(24) == 16777216 && Pow2(25) == 33554432 && Pow2(26) == 67108864 && Pow2(27) == 134217728
    ensures Pow2(28) == 268435456 && Pow2(29) == 536870912 && Pow2(30) == 1073741824 && Pow2(31) == 2147483648
  {
  }

  lemma PrimeModInRange(shift: nat)
    requires shift < 32
    ensures 1 <= PrimeMod(shift) <= Pow2(shift)
  {
    Pow2Table();
  }

  /** The first slot of the probe for a hash value. */
  function Start(h: guint, shift: nat): (s: nat)
    requires shift < 32
    ensures s < Pow2(shift)
  {
    PrimeModInRange(shift);
    h % PrimeMod(shift)
  }

  /** Slot i comes k-th in the probe for h, and no unused slot comes earlier. */
  ghost predicate ReachedIn(hs: seq<guint>, shift: nat, h: guint, i: nat, k: nat)
    requires shift < 32 && |hs| == Pow2(shift)
  {
    && Probe(Start(h, shift), k, shift) == i
    && forall j :: 0 <= j < k ==> hs[Probe(Start(h, shift), j, shift)] != UNUSED
  }

  ghost predicate Reached(hs: seq<guint>, shift: nat, h: guint, i: nat)
    requires shift < 32 && |hs| == Pow2(shift)
  {
    exists k :: ReachedIn(hs, shift, h, i, k)
  }

  lemma ReachedFirst(hs: seq<guint>, shift: nat, h: guint)
    requires shift < 32 && |hs| == Pow2(shift)
    ensures ReachedIn(hs, shift, h, Start(h, shift), 0)
  {
    ProbeStarts(Start(h, shift), shift);
  }

  /** The probe of the source moves on from a slot in use. */
  lemma ReachedNext(hs: seq<guint>, shift: nat, h: guint, i: nat, k: nat, mask: nat)
    requires shift < 32 && |hs| == Pow2(shift) && mask == Pow2(shift) - 1
    requires ReachedIn(hs, shift, h, i, k) && hs[i] != UNUSED
    ensures ReachedIn(hs, shift, h, BitAnd(i + (k + 1), mask), k + 1)
  {
    ProbeStep(Start(h, shift), k, shift, i, mask);
  }

  lemma ReachedBefore(hs: seq<guint>, shift: nat, h: guint, i: nat, k: nat, last: nat)
    requires shift < 32 && |hs| == Pow2(shift)
    requires ReachedIn(hs, shift, h, i, k) && hs[Probe(Start(h, shift), last, shift)] == UNUSED
    ensures k <= last && (hs[i] != UNUSED ==> k < last)
  {
  }

  /** Every live slot can be found again from the hash stored in it. */
  ghost predicate PathsOk(hs: seq<guint>, shift: nat) {
    && shift < 32
    && |hs| == Pow2(shift)
    && forall i :: 0 <= i < |hs| && IsReal(hs[i]) ==> Reached(hs, shift, hs[i], i)
  }

  lemma ReachedMonotonic(hs: seq<guint>, hs': seq<guint>, shift: nat, h: guint, i: nat)
    requires shift < 32 && |hs| == |hs'| == Pow2(shift)
    requires forall j :: 0 <= j < |hs| && hs[j] != UNUSED ==> hs'[j] != UNUSED
    requires Reached(hs, shift, h, i)
    ensures Reached(hs', shift, h, i)
  {
    var k :| ReachedIn(hs, shift, h, i, k);
    assert ReachedIn(hs', shift, h, i, k);
  }

  /** Filling, re-filling or burying a slot leaves every probe path intact. */
  lemma PathsUpdate(hs: seq<guint>, shift: nat, i: nat, h: guint)
    requires PathsOk(hs, shift) && i < |hs|
    requires h == TOMBSTONE || (IsReal(h) && Reached(hs, shift, h, i))
    ensures PathsOk(hs[i := h], shift)
  {
    var hs' := hs[i := h];
    forall j | 0 <= j < |hs'| && IsReal(hs'[j])
      ensures Reached(hs', shift, hs'[j], j)
    {
      ReachedMonotonic(hs, hs', shift, hs'[j], j);
    }
  }

  ghost predicate AllUnused(hs: seq<guint>) {
    forall i :: 0 <= i < |hs| ==> hs[i] == UNUSED
  }

  ghost function LiveSlots(hs: seq<guint>): set<nat> {
    set i: nat | i < |hs| && IsReal(hs[i])
  }

  ghost function UsedSlots(hs: seq<guint>): set<nat> {
    set i: nat | i < |hs| && hs[i] != UNUSED
  }

  lemma LiveCount(hs: seq<guint>, i: nat, h: guint)
    requires i < |hs|
    ensures |LiveSlots(hs[i := h])| ==
            |LiveSlots(hs)| + (if IsReal(h) then 1 else 0) - (if IsReal(hs[i]) then 1 else 0)
  {
    var others := LiveSlots(hs) - {i};
    assert LiveSlots(hs[i := h]) == if IsReal(h) then others + {i} else others;
    assert LiveSlots(hs) == if IsReal(hs[i]) then others + {i} else others;
  }

  lemma UsedCount(hs: seq<guint>, i: nat, h: guint)
    requires i < |hs| && h != UNUSED
    ensures |UsedSlots(hs[i := h])| == |UsedSlots(hs)| + (if hs[i] == UNUSED then 1 else 0)
  {
    assert UsedSlots(hs[i := h]) == UsedSlots(hs) + {i};
  }

  lemma LiveAtMost(hs: seq<guint>)
    ensures |LiveSlots(hs)| <= |hs|
  {
    BelowCardinality(|hs|);
    CardinalityMonotonic(LiveSlots(hs), Below(|hs|));
  }

  lemma FreeSlotExists(hs: seq<guint>) returns (i: nat)
    requires |UsedSlots(hs)| < |hs|
    ensures i < |hs| && hs[i] == UNUSED
  {
    if forall j :: 0 <= j < |hs| ==> hs[j] != UNUSED {
      assert UsedSlots(hs) == Below(|hs|);
      BelowCardinality(|hs|);
    }
    i :| 0 <= i < |hs| && hs[i] == UNUSED;
  }

  /** A probe meets an unused slot after finitely many steps. */
  lemma ProbeEnds(hs: seq<guint>, shift: nat, h: guint) returns (k: nat)
    requires shift < 32 && |hs| == Pow2(shift)
    requires |UsedSlots(hs)| < |hs|
    ensures hs[Probe(Start(h, shift), k, shift)] == UNUSED
  {
    var i := FreeSlotExists(hs);
    k := ProbeCovers(Start(h, shift), i, shift);
  }

  /**
   The index says in which slot each key content lives: it lists exactly the
   live slots, each under the content of its key and with the hash of its key.
   */
  ghost predicate IndexOk<C(!new)>(
    hs: seq<guint>, ks: seq<gpointer>, index: map<C, nat>,
    content: gpointer -> C, hash: C -> guint)
  {
    && |ks| == |hs|
    && (forall c :: c in index ==> index[c] < |hs| && IsReal(hs[index[c]]) && content(ks[index[c]]) == c)
    && (forall i :: 0 <= i < |hs| && IsReal(hs[i]) ==>
          && content(ks[i]) in index
          && index[content(ks[i])] == i
          && hs[i] == RealHash(hash(content(ks[i]))))
  }

  /** The map that keys and values stand for, each content at its slot. */
  ghost function Entries<C(!new)>(ks: seq<gpointer>, vs: seq<gpointer>, index: map<C, nat>): map<C, Entry>
    requires |ks| == |vs| && forall c :: c in index ==> index[c] < |ks|
  {
    map c | c in index :: Entry(ks[index[c]], vs[index[c]])
  }

  lemma EntriesUpdate<C(!new)>(
    ks: seq<gpointer>, vs: seq<gpointer>, index: map<C, nat>, c: C, node: nat, key: gpointer, value: gpointer)
    requires |ks| == |vs| && node < |ks|
    requires forall d :: d in index ==> index[d] < |ks| && (d != c ==> index[d] != node)
    ensures Entries(ks[node := key], vs[node := value], index[c := node])
         == Entries(ks, vs, index)[c := Entry(key, value)]
  {
  }

  /** The new index has the contents of the slots below i, with their keys and values. */
  ghost predicate Transferred<C(!new)>(
    ks: seq<gpointer>, vs: seq<gpointer>, index: map<C, nat>, i: nat,
    nk: seq<gpointer>, nv: seq<gpointer>, newIndex: map<C, nat>)
    requires |ks| == |vs| && |nk| == |nv| && forall c :: c in index ==> index[c] < |ks|
  {
    && (forall c :: c in newIndex <==> c in index && index[c] < i)
    && (forall c :: c in newIndex ==> newIndex[c] < |nk|)
    && (forall c :: c in newIndex ==> nk[newIndex[c]] == ks[index[c]] && nv[newIndex[c]] == vs[index[c]])
  }

  lemma TransferOne<C(!new)>(
    ks: seq<gpointer>, vs: seq<gpointer>, index: map<C, nat>, i: nat,
    nk: seq<gpointer>, nv: seq<gpointer>, newIndex: map<C, nat>, c: C, slot: nat)
    requires |ks| == |vs| && |nk| == |nv| && forall d :: d in index ==> index[d] < |ks|
    requires Transferred(ks, vs, index, i, nk, nv, newIndex)
    requires i < |ks| && slot < |nk| && c in index && index[c] == i
    requires forall d :: d in index && index[d] == i ==> d == c
    requires forall d :: d in newIndex ==> newIndex[d] != slot
    ensures Transferred(ks, vs, index, i + 1, nk[slot := ks[i]], nv[slot := vs[i]], newIndex[c := slot])
  {
  }

  /**
   The state of a resize: the live entries of the slots below i, and nothing
   else, are in the new arrays, with their keys and values.
   */
  ghost predicate Moved<C(!new)>(
    hs: seq<guint>, ks: seq<gpointer>, vs: seq<gpointer>, index: map<C, nat>, i: nat,
    nh: seq<guint>, nk: seq<gpointer>, nv: seq<gpointer>, newIndex: map<C, nat>,
    content: gpointer -> C, hash: C -> guint, shift: nat)
    requires |hs| == |ks| == |vs| && i <= |hs| && forall c :: c in index ==> index[c] < |hs|
  {
    && PathsOk(nh, shift)
    && IndexOk(nh, nk, newIndex, content, hash)
    && |nv| == |nk|
    && Transferred(ks, vs, index, i, nk, nv, newIndex)
    && (forall j :: 0 <= j < |nh| ==> nh[j] != TOMBSTONE)
    && |LiveSlots(nh)| == |UsedSlots(nh)| == |LiveSlots(hs[..i])|
  }

  lemma LiveSlotsPrefix(hs: seq<guint>, i: nat)
    requires i < |hs|
    ensures LiveSlots(hs[..i + 1]) == LiveSlots(hs[..i]) + (if IsReal(hs[i]) then {i} else {})
    ensures i !in LiveSlots(hs[..i])
    ensures |LiveSlots(hs[..i + 1])| <= |LiveSlots(hs)|
  {
    CardinalityMonotonic(LiveSlots(hs[..i + 1]), LiveSlots(hs));
  }

  lemma MoveCounts(hs: seq<guint>, i: nat, nh: seq<guint>, slot: nat)
    requires i < |hs| && IsReal(hs[i]) && slot < |nh| && nh[slot] == UNUSED
    requires |LiveSlots(nh)| == |UsedSlots(nh)| == |LiveSlots(hs[..i])|
    ensures |LiveSlots(nh[slot := hs[i]])| == |UsedSlots(nh[slot := hs[i]])| == |LiveSlots(hs[..i + 1])|
  {
    LiveCount(nh, slot, hs[i]);
    UsedCount(nh, slot, hs[i]);
    LiveSlotsPrefix(hs, i);
  }

  lemma MoveLive<C(!new)>(
    hs: seq<guint>, ks: seq<gpointer>, vs: seq<gpointer>, index: map<C, nat>, i: nat,
    nh: seq<guint>, nk: seq<gpointer>, nv: seq<gpointer>, newIndex: map<C, nat>,
    content: gpointer -> C, hash: C -> guint, shift: nat, slot: nat)
    requires IndexOk(hs, ks, index, content, hash) && |vs| == |ks| && i < |hs|
    requires Moved(hs, ks, vs, index, i, nh, nk, nv, newIndex, content, hash, shift)
    requires IsReal(hs[i]) && slot < |nh| && nh[slot] == UNUSED && Reached(nh, shift, hs[i], slot)
    ensures Moved(hs, ks, vs, index, i + 1, nh[slot := hs[i]], nk[slot := ks[i]], nv[slot := vs[i]],
                  newIndex[content(ks[i]) := slot], content, hash, shift)
  {
    PathsUpdate(nh, shift, slot, hs[i]);
    IndexAdd(nh, nk, newIndex, content, hash, slot, ks[i]);
    TransferOne(ks, vs, index, i, nk, nv, newIndex, content(ks[i]), slot);
    MoveCounts(hs, i, nh, slot);
  }

  lemma MoveDead<C(!new)>(
    hs: seq<guint>, ks: seq<gpointer>, vs: seq<gpointer>, index: map<C, nat>, i: nat,
    nh: seq<guint>, nk: seq<gpointer>, nv: seq<gpointer>, newIndex: map<C, nat>,
    content: gpointer -> C, hash: C -> guint, shift: nat)
    requires IndexOk(hs, ks, index, content, hash) && |vs| == |ks| && i < |hs|
    requires Moved(hs, ks, vs, index, i, nh, nk, nv, newIndex, content, hash, shift)
    requires !IsReal(hs[i])
    ensures Moved(hs, ks, vs, index, i + 1, nh, nk, nv, newIndex, content, hash, shift)
  {
    LiveSlotsPrefix(hs, i);
  }

  /** When all slots have been passed, the new arrays stand for the same map. */
  lemma MovedAll<C(!new)>(
    hs: seq<guint>, ks: seq<gpointer>, vs: seq<gpointer>, index: map<C, nat>,
    nh: seq<guint>, nk: seq<gpointer>, nv: seq<gpointer>, newIndex: map<C, nat>,
    content: gpointer -> C, hash: C -> guint, shift: nat)
    requires IndexOk(hs, ks, index, content, hash) && |vs| == |ks|
    requires Moved(hs, ks, vs, index, |hs|, nh, nk, nv, newIndex, content, hash, shift)
    ensures Entries(nk, nv, newIndex) == Entries(ks, vs, index)
    ensures |LiveSlots(nh)| == |UsedSlots(nh)| == |LiveSlots(hs)| && TOMBSTONE !in nh
  {
    assert hs[..|hs|] == hs;
  }

  lemma IndexAdd<C(!new)>(
    hs: seq<guint>, ks: seq<gpointer>, index: map<C, nat>,
    content: gpointer -> C, hash: C -> guint, i: nat, key: gpointer)
    requires IndexOk(hs, ks, index, content, hash)
    requires i < |hs| && !IsReal(hs[i]) && content(key) !in index
    ensures IndexOk(hs[i := RealHash(hash(content(key)))], ks[i := key], index[content(key) := i], content, hash)
  {
  }

  lemma IndexRemove<C(!new)>(
    hs: seq<guint>, ks: seq<gpointer>, vs: seq<gpointer>, index: map<C, nat>,
    content: gpointer -> C, hash: C -> guint, i: nat)
    requires IndexOk(hs, ks, index, content, hash) && |vs| == |ks| && i < |hs| && IsReal(hs[i])
    ensures IndexOk(hs[i := TOMBSTONE], ks[i := NULL], index - {content(ks[i])}, content, hash)
    ensures Entries(ks[i := NULL], vs[i := NULL], index - {content(ks[i])})
         == Entries(ks, vs, index) - {content(ks[i])}
  {
  }

  /** The first steps of the probe for a key do not show the key. */
  ghost predicate Passed<C(!new)>(
    hs: seq<guint>, ks: seq<gpointer>, content: gpointer -> C, shift: nat, h: guint, key: gpointer, steps: nat)
    requires shift < 32 && |hs| == |ks| == Pow2(shift)
  {
    forall j :: 0 <= j < steps ==>
      var i := Probe(Start(h, shift), j, shift);
      !(IsReal(hs[i]) && content(ks[i]) == content(key))
  }

  lemma PassedStep<C(!new)>(
    hs: seq<guint>, ks: seq<gpointer>, content: gpointer -> C, shift: nat, h: guint, key: gpointer, steps: nat,
    i: nat)
    requires shift < 32 && |hs| == |ks| == Pow2(shift)
    requires Passed(hs, ks, content, shift, h, key, steps) && ReachedIn(hs, shift, h, i, steps)
    requires !(IsReal(hs[i]) && content(ks[i]) == content(key))
    ensures Passed(hs, ks, content, shift, h, key, steps + 1)
  {
  }

  /** A key that is in the table is found before its probe stops at an unused slot. */
  lemma StopMeansAbsent<C(!new)>(
    hs: seq<guint>, ks: seq<gpointer>, index: map<C, nat>,
    content: gpointer -> C, hash: C -> guint, shift: nat, key: gpointer, stop: nat, steps: nat)
    requires PathsOk(hs, shift) && IndexOk(hs, ks, index, content, hash)
    requires ReachedIn(hs, shift, RealHash(hash(content(key))), stop, steps) && hs[stop] == UNUSED
    requires Passed(hs, ks, content, shift, RealHash(hash(content(key))), key, steps)
    ensures content(key) !in index
  {
  }

  /** A live slot with the content of a key is that key's slot. */
  lemma OwnSlot<C(!new)>(
    hs: seq<guint>, ks: seq<gpointer>, index: map<C, nat>,
    content: gpointer -> C, hash: C -> guint, key: gpointer, i: nat)
    requires IndexOk(hs, ks, index, content, hash) && i < |hs|
    requires hs[i] == RealHash(hash(content(key))) && content(ks[i]) == content(key)
    ensures content(key) in index && index[content(key)] == i && IsReal(hs[i])
  {
  }

  /** A slot with another hash or another content is not the slot of a key. */
  lemma OtherSlot<C(!new)>(
    hs: seq<guint>, ks: seq<gpointer>, index: map<C, nat>,
    content: gpointer -> C, hash: C -> guint, key: gpointer, i: nat)
    requires IndexOk(hs, ks, index, content, hash) && i < |hs|
    requires hs[i] != RealHash(hash(content(key))) || content(ks[i]) != content(key)
    ensures !(IsReal(hs[i]) && content(ks[i]) == content(key))
  {
  }

  /** The first k slots of the probe are live. */
  ghost predicate LiveUpTo(hs: seq<guint>, shift: nat, h: guint, k: nat)
    requires shift < 32 && |hs| == Pow2(shift)
  {
    forall j :: 0 <= j < k ==> IsReal(hs[Probe(Start(h, shift), j, shift)])
  }

  /** The first slot of the probe that is not live: the first tombstone, or the unused slot if there is none before. */
  ghost predicate FirstFree(hs: seq<guint>, shift: nat, h: guint, i: nat)
    requires shift < 32 && |hs| == Pow2(shift)
  {
    exists k :: FreeAfter(hs, shift, h, i, k)
  }

  ghost predicate FreeAfter(hs: seq<guint>, shift: nat, h: guint, i: nat, k: nat)
    requires shift < 32 && |hs| == Pow2(shift)
  {
    Probe(Start(h, shift), k, shift) == i && !IsReal(hs[i]) && LiveUpTo(hs, shift, h, k)
  }

  /** The search for a key has come to slot i in k steps, past its first tombstone if it has met one. */
  ghost predicate Searched<C(!new)>(
    hs: seq<guint>, ks: seq<gpointer>, content: gpointer -> C, shift: nat, h: guint, key: gpointer,
    i: nat, k: nat, haveTombstone: bool, firstTombstone: nat)
    requires shift < 32 && |hs| == |ks| == Pow2(shift)
  {
    && ReachedIn(hs, shift, h, i, k) && Passed(hs, ks, content, shift, h, key, k)
    && if haveTombstone
       then firstTombstone < |hs| && hs[firstTombstone] == TOMBSTONE
         && Reached(hs, shift, h, firstTombstone) && FirstFree(hs, shift, h, firstTombstone)
       else LiveUpTo(hs, shift, h, k)
  }

  lemma SearchStarts<C(!new)>(
    hs: seq<guint>, ks: seq<gpointer>, content: gpointer -> C, shift: nat, h: guint, key: gpointer)
    requires shift < 32 && |hs| == |ks| == Pow2(shift)
    ensures Searched(hs, ks, content, shift, h, key, Start(h, shift), 0, false, 0)
  {
    ReachedFirst(hs, shift, h);
  }

  /** The search goes on from a slot that is in use and is not the key's, and remembers a first tombstone. */
  lemma SearchNext<C(!new)>(
    hs: seq<guint>, ks: seq<gpointer>, content: gpointer -> C, shift: nat, h: guint, key: gpointer,
    i: nat, k: nat, haveTombstone: bool, firstTombstone: nat, mask: nat)
    requires shift < 32 && |hs| == |ks| == Pow2(shift) && mask == Pow2(shift) - 1
    requires Searched(hs, ks, content, shift, h, key, i, k, haveTombstone, firstTombstone)
    requires hs[i] != UNUSED && !(IsReal(hs[i]) && content(ks[i]) == content(key))
    ensures var met := hs[i] == TOMBSTONE && !haveTombstone;
      Searched(hs, ks, content, shift, h, key, BitAnd(i + (k + 1), mask), k + 1,
               haveTombstone || met, if met then i else firstTombstone)
  {
    PassedStep(hs, ks, content, shift, h, key, k, i);
    ReachedNext(hs, shift, h, i, k, mask);
    if hs[i] == TOMBSTONE && !haveTombstone {
      assert FreeAfter(hs, shift, h, i, k) && ReachedIn(hs, shift, h, i, k);
    }
  }

  /** At an unused slot the search ends; the slot to use is the first free one. */
  lemma SearchEnds<C(!new)>(
    hs: seq<guint>, ks: seq<gpointer>, index: map<C, nat>, content: gpointer -> C, hash: C -> guint, shift: nat,
    key: gpointer, i: nat, k: nat, haveTombstone: bool, firstTombstone: nat)
    requires PathsOk(hs, shift) && IndexOk(hs, ks, index, content, hash) && i < |hs| && hs[i] == UNUSED
    requires Searched(hs, ks, content, shift, RealHash(hash(content(key))), key, i, k, haveTombstone, firstTombstone)
    ensures var h, node := RealHash(hash(content(key))), if haveTombstone then firstTombstone else i;
      && content(key) !in index && node < |hs| && !IsReal(hs[node])
      && Reached(hs, shift, h, node) && FirstFree(hs, shift, h, node)
  {
    var h := RealHash(hash(content(key)));
    StopMeansAbsent(hs, ks, index, content, hash, shift, key, i, k);
    if !haveTombstone {
      assert FreeAfter(hs, shift, h, i, k) && ReachedIn(hs, shift, h, i, k);
    }
  }

  class GHashTable<C(!new)> {
    const hashFunc: gpointer -> guint
    const keyEqual: Option<(gpointer, gpointer) -> bool>
    ghost const content: gpointer -> C
    ghost const contentHash: C -> guint

    var size: nat
    var mod: nat
    var mask: nat
    var nnodes: int
    var noccupied: nat
    var hashes: array<guint>
    var keys: array<gpointer>
    var values: array<gpointer>

    ghost var shift: nat
    ghost var index: map<C, nat>

    predicate SameKey(a: gpointer, b: gpointer) {
      Same(keyEqual, a, b)
    }

    /** What the callers of the table owe it: equal keys have equal hashes. */
    ghost predicate HashLaw() {
      && (forall a, b {:trigger SameKey(a, b)} :: SameKey(a, b) <==> content(a) == content(b))
      && (forall a {:trigger hashFunc(a)} :: hashFunc(a) == contentHash(content(a)))
    }

    ghost predicate Shape()
      reads this, hashes, keys, values
    {
      && MIN_SHIFT <= shift < 31
      && size == Pow2(shift)
      && mask == size - 1
      && mod == PrimeMod(shift)
      && hashes.Length == keys.Length == values.Length == size
      && hashes as object != keys && hashes as object != values
    }

    /** The consistency of a table, all but its load. */
    ghost predicate Consistent()
      reads this, hashes, keys, values
    {
      && HashLaw()
      && Shape()
      && PathsOk(hashes[..], shift)
      && IndexOk(hashes[..], keys[..], index, content, contentHash)
      && nnodes == |LiveSlots(hashes[..])|
      && noccupied == |UsedSlots(hashes[..])|
    }

    /** Consistent, and some slot is unused. */
    ghost predicate Valid()
      reads this, hashes, keys, values
    {
      Consistent() && noccupied + noccupied / 16 < size
    }

    /** The finite map that the table stands for. */
    ghost function Contents(): (m: map<C, Entry>)
      requires Consistent()
      reads this, hashes, keys, values
    {
      Entries(keys[..], values[..], index)
    }

    constructor (hashFunc: gpointer -> guint, keyEqual: Option<(gpointer, gpointer) -> bool>,
                 ghost content: gpointer -> C, ghost contentHash: C -> guint)
      requires forall a, b {:trigger Same(keyEqual, a, b)} :: Same(keyEqual, a, b) <==> content(a) == content(b)
      requires forall a {:trigger hashFunc(a)} :: hashFunc(a) == contentHash(content(a))
      ensures Valid() && Contents() == map[]
      ensures this.hashFunc == hashFunc && this.content == content
      ensures fresh(hashes) && fresh(keys) && fresh(values)
    {
      this.hashFunc, this.keyEqual := hashFunc, keyEqual;
      this.content, this.contentHash := content, contentHash;
      size, mod, mask := 8, PrimeMod(MIN_SHIFT), 7;
      nnodes, noccupied := 0, 0;
      var ks := new gpointer[8](i => NULL);
      hashes := new guint[8](i => UNUSED);
      keys, values := ks, ks;
      shift, index := MIN_SHIFT, map[];
      new;
      assert Pow2(3) == 8;
      EmptyTable(hashes[..], MIN_SHIFT);
    }

    /** Sets size, modulus and mask for 2^newShift slots. */
    method SetShift(newShift: nat)
      requires newShift < 32
      modifies this`size, this`mod, this`mask, this`shift
      ensures shift == newShift && size == Pow2(newShift) && mask == size - 1 && mod == PrimeMod(newShift)
    {
      size, mod, shift := Pow2(newShift), PrimeMod(newShift), newShift;
      var bits := 0;
      for i := 0 to newShift
        invariant bits == Pow2(i) - 1
      {
        bits := 2 * bits + 1;
      }
      mask := bits;
    }

    /** The slot and the hash that belong to a key: its own slot if it is in the table, else a free one on its path. */
    ghost predicate IsNodeFor(node: nat, hash: guint, key: gpointer)
      requires Consistent()
      reads this, hashes, keys, values
    {
      && node < size
      && hash == RealHash(hashFunc(key))
      && Reached(hashes[..], shift, hash, node)
      && (content(key) in index <==> IsReal(hashes[node]))
      && (content(key) in index ==> node == index[content(key)])
    }

    /**
     The slot for a key and the hash it is stored under: the key's own slot if
     the key is in the table, and otherwise the first free slot on its probe.
     */
    method LookupNode(key: gpointer) returns (node: nat, hash: guint)
      requires Valid()
      ensures IsNodeFor(node, hash, key)
      ensures content(key) !in index ==> FirstFree(hashes[..], shift, hash, node)
    {
      hash := RealHash(hashFunc(key));
      var found;
      node, found := Search(key, hash);
      if found {
        OwnSlot(hashes[..], keys[..], index, content, contentHash, key, node);
      }
    }

    /** The probe for a key. */
    method Search(key: gpointer, hash: guint) returns (node: nat, found: bool)
      requires HashLaw() && Shape() && PathsOk(hashes[..], shift) && |UsedSlots(hashes[..])| < size
      requires IndexOk(hashes[..], keys[..], index, content, contentHash) && hash == RealHash(hashFunc(key))
      ensures node < size && Reached(hashes[..], shift, hash, node)
      ensures if found then hashes[node] == hash && content(keys[node]) == content(key)
              else content(key) !in index && !IsReal(hashes[node]) && FirstFree(hashes[..], shift, hash, node)
    {
      PrimeModInRange(shift);
      node, found := hash % mod, false;
      var nodeHash := hashes[node];
      var haveTombstone, firstTombstone := false, 0;
      var step := 0;
      ghost var hs, ks := hashes[..], keys[..];
      ghost var last := ProbeEnds(hs, shift, hash);
      SearchStarts(hs, ks, content, shift, hash, key);
      while nodeHash != UNUSED
        invariant Searched(hs, ks, content, shift, hash, key, node, step, haveTombstone, firstTombstone)
        invariant nodeHash == hs[node] && !found
        decreases last - step
      {
        if nodeHash == hash && SameKey(keys[node], key) {
          return node, true;
        }
        OtherSlot(hs, ks, index, content, contentHash, key, node);
        SearchNext(hs, ks, content, shift, hash, key, node, step, haveTombstone, firstTombstone, mask);
        ReachedBefore(hs, shift, hash, node, step, last);
        if nodeHash != hash && nodeHash == TOMBSTONE && !haveTombstone {
          firstTombstone := node;
          haveTombstone := true;
        }
        node := BitAnd(node + (step + 1), mask);
        step := step + 1;
        nodeHash := hashes[node];
      }
      SearchEnds(hs, ks, index, content, contentHash, shift, key, node, step, haveTombstone, firstTombstone);
      if haveTombstone {
        node := firstTombstone;
      }
    }

    /** The objects a table is made of. */
    ghost function Repr(): set<object>
      reads this
    {
      {this, hashes, keys, values}
    }

    twostate predicate ArraysKeptOrFresh()
      reads this
    {
      && (hashes == old(hashes) || fresh(hashes))
      && (keys == old(keys) || fresh(keys))
      && (values == old(values) || fresh(values))
    }

    /** Puts a new key into a free slot and counts it. */
    method FillSlot(node: nat, hash: guint, key: gpointer)
      requires Consistent() && IsNodeFor(node, hash, key) && !IsReal(hashes[node])
      modifies this`nnodes, this`noccupied, this`index, hashes, keys
      ensures Consistent() && index == old(index)[content(key) := node]
      ensures noccupied == old(noccupied) + (if old(hashes[node]) == UNUSED then 1 else 0)
      ensures keys[..] == old(keys[..])[node := key]
    {
      ghost var hs, ks := hashes[..], keys[..];
      LiveCount(hs, node, hash);
      UsedCount(hs, node, hash);
      PathsUpdate(hs, shift, node, hash);
      IndexAdd(hs, ks, index, content, contentHash, node, key);
      nnodes := nnodes + 1;
      if hashes[node] == UNUSED {
        noccupied := noccupied + 1;
      }
      hashes[node] := hash;
      keys[node] := key;
      index := index[content(key) := node];
      assert hashes[..] == hs[node := hash] && keys[..] == ks[node := key];
    }

    /** Stores a value, giving the values an array of their own if they need one. */
    method StoreValue(node: nat, value: gpointer)
      requires Consistent() && node < size
      modifies this`values, values
      ensures Consistent()
      ensures hashes[..] == old(hashes[..]) && keys[..] == old(keys[..])
      ensures values[..] == old(values[..])[node := value]
      ensures values == old(values) || fresh(values)
      ensures old(keys != values) ==> values == old(values)
      ensures keys == values <==> old(keys == values && keys[node] == value)
    {
      ghost var hs, ks, vs := hashes[..], keys[..], values[..];
      if keys == values && keys[node] != value {
        var shared := keys;
        values := new gpointer[size](i requires 0 <= i < shared.Length reads shared => shared[i]);
        assert values[..] == vs;
      }
      values[node] := value;
      assert hashes[..] == hs && keys[..] == ks;
    }

    /** Replaces the stored pointer of a key by another pointer with the same content. */
    method ReplaceKey(node: nat, key: gpointer)
      requires Consistent() && node < size && IsReal(hashes[node]) && content(keys[node]) == content(key)
      modifies keys
      ensures Consistent() && hashes[..] == old(hashes[..])
      ensures keys[..] == old(keys[..])[node := key]
    {
      ghost var hs := hashes[..];
      keys[node] := key;
      assert hashes[..] == hs;
    }

    method MaybeResize()
      requires Consistent() && shift <= 28
      modifies Repr()
      ensures Valid() && ArraysKeptOrFresh()
      ensures Contents() == old(Contents())
    {
      if (size > nnodes * 4 && size > 8) || size <= noccupied + noccupied / 16 {
        Resize();
      }
    }

    /** The slot where the probe for a hash first meets an unused slot of the new array. */
    method ProbeUnused(newHashes: array<guint>, hash: guint) returns (slot: nat)
      requires shift < 32 && mod == PrimeMod(shift) && mask == Pow2(shift) - 1
      requires newHashes.Length == Pow2(shift) && |UsedSlots(newHashes[..])| < newHashes.Length
      ensures slot < newHashes.Length && newHashes[slot] == UNUSED
      ensures Reached(newHashes[..], shift, hash, slot)
    {
      ghost var nh := newHashes[..];
      ghost var last := ProbeEnds(nh, shift, hash);
      PrimeModInRange(shift);
      slot := hash % mod;
      var step := 0;
      ReachedFirst(nh, shift, hash);
      while newHashes[slot] != UNUSED
        invariant ReachedIn(nh, shift, hash, slot, step)
        decreases last - step
      {
        ReachedBefore(nh, shift, hash, slot, step, last);
        ReachedNext(nh, shift, hash, slot, step, mask);
        slot := BitAnd(slot + (step + 1), mask);
        step := step + 1;
      }
    }

    /** Size, modulus and mask for a table of n live entries. */
    method SetShiftFromSize(n: nat)
      requires n <= Pow2(shift) && shift <= 28
      modifies this`size, this`mod, this`mask, this`shift
      ensures MIN_SHIFT <= shift < 31 && 2 * n < size
      ensures size == Pow2(shift) && mask == size - 1 && mod == PrimeMod(shift)
    {
      var bits := FindClosestShift(2 * n);
      ResizedShift(n, shift, bits);
      var newShift := if bits > MIN_SHIFT then bits else MIN_SHIFT;
      Pow2Monotonic(bits, newShift);
      SetShift(newShift);
    }

    /** What the loop of a resize knows after passing the first i slots. */
    ghost predicate MovedInto(i: nat, nh: seq<guint>, nk: seq<gpointer>, nv: seq<gpointer>, newIndex: map<C, nat>)
      reads this, hashes, keys, values
    {
      && IndexOk(hashes[..], keys[..], index, content, contentHash)
      && i <= hashes.Length == values.Length
      && Moved(hashes[..], keys[..], values[..], index, i, nh, nk, nv, newIndex, content, contentHash, shift)
    }

    /** Writes an entry; when keys and values share an array, so do the new ones and key and value are the same. */
    static method PutEntry(
      newHashes: array<guint>, newKeys: array<gpointer>, newValues: array<gpointer>, slot: nat,
      hash: guint, key: gpointer, value: gpointer)
      requires slot < newHashes.Length == newKeys.Length == newValues.Length
      requires newHashes as object != newKeys && newHashes as object != newValues
      requires newKeys == newValues ==> key == value
      modifies newHashes, newKeys, newValues
      ensures newHashes[..] == old(newHashes[..])[slot := hash]
      ensures newKeys[..] == old(newKeys[..])[slot := key] && newValues[..] == old(newValues[..])[slot := value]
    {
      newHashes[slot] := hash;
      newKeys[slot] := key;
      newValues[slot] := value;
    }

    /** The body of the resize loop, for slot i. */
    method MoveEntry(
      i: nat, newHashes: array<guint>, newKeys: array<gpointer>, newValues: array<gpointer>, ghost was: map<C, nat>)
      returns (ghost newIndex: map<C, nat>)
      requires shift < 31 && mod == PrimeMod(shift) && mask == Pow2(shift) - 1
      requires i < hashes.Length && MovedInto(i, newHashes[..], newKeys[..], newValues[..], was)
      requires newHashes !in {hashes} && {newKeys, newValues} !! {keys, values}
      requires newHashes as object != keys && newHashes as object != values
      requires newHashes as object != newKeys && newHashes as object != newValues
      requires hashes as object != newKeys && hashes as object != newValues
      requires newKeys == newValues ==> keys == values
      requires 2 * |LiveSlots(hashes[..])| < newHashes.Length
      modifies newHashes, newKeys, newValues
      ensures MovedInto(i + 1, newHashes[..], newKeys[..], newValues[..], newIndex)
    {
      ghost var hs, ks, vs := hashes[..], keys[..], values[..];
      ghost var nh, nk, nv := newHashes[..], newKeys[..], newValues[..];
      var nodeHash := hashes[i];
      newIndex := was;
      if IsReal(nodeHash) {
        LiveSlotsPrefix(hs, i);
        var slot := ProbeUnused(newHashes, nodeHash);
        MoveLive(hs, ks, vs, index, i, nh, nk, nv, was, content, contentHash, shift, slot);
        PutEntry(newHashes, newKeys, newValues, slot, hashes[i], keys[i], values[i]);
        newIndex := was[content(ks[i]) := slot];
      } else {
        MoveDead(hs, ks, vs, index, i, nh, nk, nv, was, content, contentHash, shift);
      }
      assert hashes[..] == hs && keys[..] == ks && values[..] == vs;
    }

    /** The resize loop, from empty new arrays. */
    method MoveAll(newHashes: array<guint>, newKeys: array<gpointer>, newValues: array<gpointer>)
      returns (ghost newIndex: map<C, nat>)
      requires shift < 31 && mod == PrimeMod(shift) && mask == Pow2(shift) - 1
      requires MovedInto(0, newHashes[..], newKeys[..], newValues[..], map[])
      requires newHashes !in {hashes} && {newKeys, newValues} !! {keys, values}
      requires newHashes as object != keys && newHashes as object != values
      requires newHashes as object != newKeys && newHashes as object != newValues
      requires hashes as object != newKeys && hashes as object != newValues
      requires newKeys == newValues ==> keys == values
      requires 2 * |LiveSlots(hashes[..])| < newHashes.Length
      modifies newHashes, newKeys, newValues
      ensures MovedInto(hashes.Length, newHashes[..], newKeys[..], newValues[..], newIndex)
    {
      newIndex := map[];
      for i := 0 to hashes.Length
        invariant MovedInto(i, newHashes[..], newKeys[..], newValues[..], newIndex)
      {
        newIndex := MoveEntry(i, newHashes, newKeys, newValues, newIndex);
      }
    }

    /** Fresh arrays of the current size with the live entries of the old ones. */
    method Rebuild()
      returns (newHashes: array<guint>, newKeys: array<gpointer>, newValues: array<gpointer>,
               ghost newIndex: map<C, nat>)
      requires shift < 31 && mod == PrimeMod(shift) && mask == Pow2(shift) - 1 && size == Pow2(shift)
      requires IndexOk(hashes[..], keys[..], index, content, contentHash)
      requires values.Length == keys.Length == hashes.Length
      requires 2 * |LiveSlots(hashes[..])| < size
      ensures fresh(newHashes) && fresh(newKeys) && fresh(newValues)
      ensures newHashes.Length == newKeys.Length == newValues.Length == size
      ensures newKeys == newValues <==> keys == values
      ensures newHashes as object != newKeys && newHashes as object != newValues
      ensures PathsOk(newHashes[..], shift) && TOMBSTONE !in newHashes[..]
      ensures IndexOk(newHashes[..], newKeys[..], newIndex, content, contentHash)
      ensures Entries(newKeys[..], newValues[..], newIndex) == Entries(keys[..], values[..], index)
      ensures |LiveSlots(newHashes[..])| == |UsedSlots(newHashes[..])| == |LiveSlots(hashes[..])|
    {
      newKeys := new gpointer[size](i => NULL);
      newValues := newKeys;
      if keys != values {
        newValues := new gpointer[size](i => NULL);
      }
      newHashes := new guint[size](i => UNUSED);
      EmptyTable(newHashes[..], shift);
      newIndex := MoveAll(newHashes, newKeys, newValues);
      MovedAll(hashes[..], keys[..], values[..], index, newHashes[..], newKeys[..], newValues[..], newIndex,
               content, contentHash, shift);
    }

    /**
     Moves the live entries to fresh arrays of the least power of two above twice
     their number: no tombstone is left, and at most half of the slots are used.
     */
    method Resize()
      requires Consistent() && shift <= 28
      modifies Repr()
      ensures Valid() && ArraysKeptOrFresh()
      ensures Contents() == old(Contents())
      ensures nnodes == old(nnodes) == noccupied && 2 * noccupied <= size
      ensures TOMBSTONE !in hashes[..]
      ensures keys == values <==> old(keys == values)
    {
      LiveAtMost(hashes[..]);
      SetShiftFromSize(nnodes);
      var newHashes, newKeys, newValues, newIndex := Rebuild();
      Replace(newHashes, newKeys, newValues, newIndex);
    }

    /** The table with its new arrays. */
    method Replace(
      newHashes: array<guint>, newKeys: array<gpointer>, newValues: array<gpointer>, ghost newIndex: map<C, nat>)
      requires HashLaw() && MIN_SHIFT <= shift < 31 && size == Pow2(shift) && mask == size - 1 && mod == PrimeMod(shift)
      requires newHashes.Length == newKeys.Length == newValues.Length == size && 2 * nnodes < size
      requires newHashes as object != newKeys && newHashes as object != newValues
      requires PathsOk(newHashes[..], shift) && IndexOk(newHashes[..], newKeys[..], newIndex, content, contentHash)
      requires |LiveSlots(newHashes[..])| == |UsedSlots(newHashes[..])| == nnodes
      modifies this`hashes, this`keys, this`values, this`index, this`noccupied
      ensures hashes == newHashes && keys == newKeys && values == newValues && index == newIndex
      ensures Valid() && noccupied == nnodes
    {
      keys, values, hashes, index := newKeys, newValues, newHashes, newIndex;
      noccupied := nnodes;
    }

    /** The part of an insertion before a possible resize. */
    method StoreEntry(node: nat, hash: guint, key: gpointer, value: gpointer, keepNewKey: bool)
      requires Consistent() && IsNodeFor(node, hash, key)
      modifies this`values, this`nnodes, this`noccupied, this`index, hashes, keys, values
      ensures Consistent() && (values == old(values) || fresh(values))
      ensures index == old(index)[content(key) := node]
      ensures noccupied == old(noccupied) + (if old(hashes[node]) == UNUSED then 1 else 0)
      ensures keys[..] ==
        old(keys[..])[node := if old(IsReal(hashes[node])) && !keepNewKey then old(keys[node]) else key]
      ensures values[..] == old(values[..])[node := value]
    {
      if IsReal(hashes[node]) {
        assert index[content(key) := node] == index;
        if keepNewKey {
          ReplaceKey(node, key);
        }
      } else {
        FillSlot(node, hash, key);
      }
      StoreValue(node, value);
    }

    /** Inserts at a slot found by LookupNode; says whether the key is new. */
    method InsertNode(node: nat, hash: guint, key: gpointer, value: gpointer, keepNewKey: bool) returns (added: bool)
      requires Valid() && shift <= 28 && IsNodeFor(node, hash, key)
      modifies Repr()
      ensures Valid() && ArraysKeptOrFresh()
      ensures added <==> content(key) !in old(Contents())
      ensures Contents() == old(Contents())[content(key) :=
        Entry(if !added && !keepNewKey then old(Contents())[content(key)].key else key, value)]
    {
      var oldHash := hashes[node];
      added := !IsReal(oldHash);
      EntriesUpdate(keys[..], values[..], index, content(key), node,
                    if !added && !keepNewKey then keys[node] else key, value);
      StoreEntry(node, hash, key, value, keepNewKey);
      if added && oldHash == UNUSED {
        MaybeResize();
      }
    }

    /** The value stored for a key, NULL if the key is not in the table. */
    method Lookup(key: gpointer) returns (value: gpointer)
      requires Valid()
      ensures value == if content(key) in Contents() then Contents()[content(key)].value else NULL
    {
      var node, hash := LookupNode(key);
      value := if IsReal(hashes[node]) then values[node] else NULL;
    }

    /** Maps a key to a value; a key that is already there keeps its stored pointer. */
    method Insert(key: gpointer, value: gpointer) returns (added: bool)
      requires Valid() && shift <= 28
      modifies Repr()
      ensures Valid() && ArraysKeptOrFresh()
      ensures added <==> content(key) !in old(Contents())
      ensures Contents() == old(Contents())[content(key) :=
        Entry(if added then key else old(Contents())[content(key)].key, value)]
    {
      var node, hash := LookupNode(key);
      added := InsertNode(node, hash, key, value, false);
    }

    /** Buries the entry of a slot. */
    method RemoveNode(i: nat)
      requires Consistent() && i < size
      modifies this`nnodes, this`index, hashes, keys, values
      ensures hashes[..] == old(hashes[..])[i := TOMBSTONE] && nnodes == old(nnodes) - 1
      ensures old(IsReal(hashes[i])) ==>
        Consistent() && Contents() == old(Contents()) - {old(content(keys[i]))}
      ensures !old(IsReal(hashes[i])) ==> !Consistent()
    {
      ghost var hs, ks, vs := hashes[..], keys[..], values[..];
      LiveCount(hs, i, TOMBSTONE);
      UsedCount(hs, i, TOMBSTONE);
      PathsUpdate(hs, shift, i, TOMBSTONE);
      if IsReal(hs[i]) {
        IndexRemove(hs, ks, vs, index, content, contentHash, i);
        index := index - {content(ks[i])};
      }
      hashes[i] := TOMBSTONE;
      keys[i] := NULL;
      values[i] := NULL;
      nnodes := nnodes - 1;
      assert hashes[..] == hs[i := TOMBSTONE] && keys[..] == ks[i := NULL] && values[..] == vs[i := NULL];
    }

    /**
     Removes a key. NULL is ignored; for any other key the table stays usable
     exactly when the key is in it, because the source buries the slot it is
     given without asking whether it is live.
     */
    method Remove(key: gpointer)
      requires Valid()
      modifies this`nnodes, this`index, hashes, keys, values
      ensures Valid() <==> key == NULL || content(key) in old(Contents())
      ensures key == NULL ==> Contents() == old(Contents())
      ensures key != NULL && content(key) in old(Contents()) ==> Contents() == old(Contents()) - {content(key)}
    {
      if key != NULL {
        var node, hash := LookupNode(key);
        RemoveNode(node);
      }
    }
  }

  /** A table of at most 2^28 slots is never resized beyond 2^30. */
  lemma ResizedShift(n: nat, shift: nat, bits: nat)
    requires n <= Pow2(shift) && shift <= 28
    requires bits > 0 ==> Pow2(bits - 1) <= 2 * n
    ensures bits <= 30
  {
    Pow2Monotonic(shift, 28);
    Pow2Table();
    if bits > 30 {
      Pow2Monotonic(30, bits - 1);
    }
  }

  lemma EmptyTable(hs: seq<guint>, shift: nat)
    requires |hs| == Pow2(shift) && shift < 32 && AllUnused(hs)
    ensures PathsOk(hs, shift) && LiveSlots(hs) == {} && UsedSlots(hs) == {}
  {
  }

  /** The number of bits of n. */
  method FindClosestShift(n: nat) returns (i: nat)
    ensures n < Pow2(i)
    ensures i > 0 ==> Pow2(i - 1) <= n
  {
    i := 0;
    var rest := n;
    while rest != 0
      invariant Pow2(i) * rest <= n < Pow2(i) * (rest + 1)
      invariant i > 0 ==> Pow2(i - 1) <= n
    {
      HalveBounds(Pow2(i), n, rest);
      rest := rest / 2;
      i := i + 1;
    }
  }

  lemma HalveBounds(p: nat, n: nat, rest: nat)
    requires rest >= 1
    requires p * rest <= n < p * (rest + 1)
    ensures p <= n
    ensures (2 * p) * (rest / 2) <= n < (2 * p) * (rest / 2 + 1)
  {
    var half, bit := rest / 2, rest % 2;
    assert p * rest == p + p * (rest - 1);
    assert p * rest == (2 * p) * half + p * bit;
    assert p * (rest + 1) == (2 * p) * half + p * bit + p;
    assert (2 * p) * (half + 1) == (2 * p) * half + 2 * p;
    if bit == 0 { assert p * bit == 0; } else { assert p * bit == p; }
  }
}
