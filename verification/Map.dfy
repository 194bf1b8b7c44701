/**
 The indexed map of src/map.c: a hash table from keys to boxed slot numbers, and
 an array of slots holding key, value and box. A slot is free when its value is
 NULL. Keys are looked up through the table, values through their slot.
 */
module IndexedMap {
  import opened Probing
  import opened GHash
  import opened Wrappers

  const EEXIST := 17
  const ENOENT := 2
  const ENOSPC := 28

  datatype MapValue = MapValue(key: gpointer, value: gpointer, iptr: gpointer)

  /** Where a key lives and what is stored for it. */
  datatype Binding = Binding(index: nat, value: gpointer)

  const FREE := MapValue(NULL, NULL, NULL)

  ghost function Occupied(values: seq<MapValue>): set<nat> {
    set i: nat | i < |values| && values[i].value != NULL
  }

  /** The entry of a key points to a box that holds the number of the key's own slot. */
  ghost predicate IsHome(entry: Entry, values: seq<MapValue>, boxes: map<gpointer, nat>) {
    && entry.value != NULL
    && entry.value in boxes
    && boxes[entry.value] < |values|
    && values[boxes[entry.value]].key == entry.key
    && values[boxes[entry.value]].iptr == entry.value
    && values[boxes[entry.value]].value != NULL
  }

  /** Table and slots agree: table[k] = i exactly when slot i holds k. */
  ghost predicate Agree<C(!new)>(
    table: map<C, Entry>, values: seq<MapValue>, boxes: map<gpointer, nat>, content: gpointer -> C)
  {
    && (forall c :: c in table ==> IsHome(table[c], values, boxes) && content(table[c].key) == c)
    && (forall i :: 0 <= i < |values| && values[i].value != NULL ==>
          && content(values[i].key) in table
          && table[content(values[i].key)] == Entry(values[i].key, values[i].iptr)
          && values[i].iptr in boxes && boxes[values[i].iptr] == i)
  }

  ghost function Bindings<C(!new)>(
    table: map<C, Entry>, values: seq<MapValue>, boxes: map<gpointer, nat>): map<C, Binding>
    requires forall c :: c in table ==> table[c].value in boxes && boxes[table[c].value] < |values|
  {
    map c | c in table :: Binding(boxes[table[c].value], values[boxes[table[c].value]].value)
  }

  ghost predicate IndexTaken<C(!new)>(bindings: map<C, Binding>, i: nat) {
    exists c :: c in bindings && bindings[c].index == i
  }

  /** Filling a free slot, in the slots and in the table, adds one binding. */
  lemma AgreeAdd<C(!new)>(
    table: map<C, Entry>, values: seq<MapValue>, boxes: map<gpointer, nat>, content: gpointer -> C,
    i: nat, key: gpointer, value: gpointer, box: gpointer)
    requires Agree(table, values, boxes, content)
    requires i < |values| && values[i].value == NULL && value != NULL
    requires content(key) !in table && box != NULL && box !in boxes
    ensures Agree(table[content(key) := Entry(key, box)], values[i := MapValue(key, value, box)],
                  boxes[box := i], content)
    ensures Bindings(table[content(key) := Entry(key, box)], values[i := MapValue(key, value, box)],
                     boxes[box := i])
         == Bindings(table, values, boxes)[content(key) := Binding(i, value)]
    ensures |Occupied(values[i := MapValue(key, value, box)])| == |Occupied(values)| + 1
  {
    HomesAdd(table, values, boxes, content, i, key, value, box);
    SlotsAdd(table, values, boxes, content, i, key, value, box);
    OccupiedUpdate(values, i, MapValue(key, value, box));
  }

  /** The keys that were there keep their slots, and the new key gets slot i. */
  lemma HomesAdd<C(!new)>(
    table: map<C, Entry>, values: seq<MapValue>, boxes: map<gpointer, nat>, content: gpointer -> C,
    i: nat, key: gpointer, value: gpointer, box: gpointer)
    requires Agree(table, values, boxes, content)
    requires i < |values| && values[i].value == NULL && value != NULL
    requires content(key) !in table && box != NULL && box !in boxes
    ensures var table', values', boxes' :=
        table[content(key) := Entry(key, box)], values[i := MapValue(key, value, box)], boxes[box := i];
      && (forall c :: c in table' ==> IsHome(table'[c], values', boxes') && content(table'[c].key) == c)
      && Bindings(table', values', boxes') == Bindings(table, values, boxes)[content(key) := Binding(i, value)]
  {
    var table', values', boxes' :=
      table[content(key) := Entry(key, box)], values[i := MapValue(key, value, box)], boxes[box := i];
    forall c | c in table'
      ensures IsHome(table'[c], values', boxes') && content(table'[c].key) == c
    {
      assert c != content(key) ==> IsHome(table[c], values, boxes);
    }
  }

  lemma SlotsAdd<C(!new)>(
    table: map<C, Entry>, values: seq<MapValue>, boxes: map<gpointer, nat>, content: gpointer -> C,
    i: nat, key: gpointer, value: gpointer, box: gpointer)
    requires Agree(table, values, boxes, content)
    requires i < |values| && content(key) !in table && box !in boxes
    ensures var table', values', boxes' :=
        table[content(key) := Entry(key, box)], values[i := MapValue(key, value, box)], boxes[box := i];
      forall j :: 0 <= j < |values'| && values'[j].value != NULL ==>
        && content(values'[j].key) in table'
        && table'[content(values'[j].key)] == Entry(values'[j].key, values'[j].iptr)
        && values'[j].iptr in boxes' && boxes'[values'[j].iptr] == j
  {
  }

  /** What is written to a slot changes the number of occupied slots if it makes a difference there. */
  lemma OccupiedUpdate(values: seq<MapValue>, i: nat, v: MapValue)
    requires i < |values|
    ensures |Occupied(values[i := v])| ==
      |Occupied(values)| + (if v.value != NULL then 1 else 0) - (if values[i].value != NULL then 1 else 0)
  {
    var now, was := Occupied(values[i := v]), Occupied(values);
    assert now - {i} == was - {i};
    assert v.value != NULL ==> now == (now - {i}) + {i};
    assert v.value == NULL ==> now == now - {i};
    assert values[i].value != NULL ==> was == (was - {i}) + {i};
    assert values[i].value == NULL ==> was == was - {i};
  }

  lemma AgreeGrow<C(!new)>(
    table: map<C, Entry>, values: seq<MapValue>, boxes: map<gpointer, nat>, content: gpointer -> C)
    requires Agree(table, values, boxes, content)
    ensures Agree(table, values + [FREE], boxes, content)
    ensures Bindings(table, values + [FREE], boxes) == Bindings(table, values, boxes)
    ensures Occupied(values + [FREE]) == Occupied(values)
  {
  }

  lemma AgreeReplace<C(!new)>(
    table: map<C, Entry>, values: seq<MapValue>, boxes: map<gpointer, nat>, content: gpointer -> C,
    c: C, i: nat, value: gpointer)
    requires Agree(table, values, boxes, content)
    requires c in table && i == boxes[table[c].value] && value != NULL
    ensures Agree(table, values[i := values[i].(value := value)], boxes, content)
    ensures Bindings(table, values[i := values[i].(value := value)], boxes)
         == Bindings(table, values, boxes)[c := Binding(i, value)]
    ensures Occupied(values[i := values[i].(value := value)]) == Occupied(values)
  {
  }

  lemma AgreeRemove<C(!new)>(
    table: map<C, Entry>, values: seq<MapValue>, boxes: map<gpointer, nat>, content: gpointer -> C, c: C, i: nat)
    requires Agree(table, values, boxes, content)
    requires c in table && i == boxes[table[c].value]
    ensures Agree(table - {c}, values[i := FREE], boxes, content)
    ensures Bindings(table - {c}, values[i := FREE], boxes) == Bindings(table, values, boxes) - {c}
    ensures |Occupied(values[i := FREE])| == |Occupied(values)| - 1
    ensures !Agree(table, values[i := FREE], boxes, content)
  {
    OccupiedUpdate(values, i, FREE);
    assert !IsHome(table[c], values[i := FREE], boxes);
  }

  /** A slot is free whenever not all are counted as occupied. */
  lemma FreeSlot(values: seq<MapValue>)
    requires |Occupied(values)| < |values|
    ensures exists i :: 0 <= i < |values| && values[i].value == NULL
  {
    if forall i :: 0 <= i < |values| ==> values[i].value != NULL {
      assert Occupied(values) == Below(|values|);
      BelowCardinality(|values|);
    }
  }

  lemma OccupiedAtMost(values: seq<MapValue>)
    ensures |Occupied(values)| <= |values|
    ensures |Occupied(values)| == |values| ==> forall i :: 0 <= i < |values| ==> values[i].value != NULL
  {
    BelowCardinality(|values|);
    CardinalityMonotonic(Occupied(values), Below(|values|));
    if i :| 0 <= i < |values| && values[i].value == NULL {
      CardinalityMonotonic(Occupied(values), Below(|values|) - {i});
    }
  }

  class Map<C(!new)> {
    const ghash: GHashTable<C>
    const maxSize: int
    var values: seq<MapValue>
    var size: nat
    var numValues: int

    /** The integers boxed on the heap so far, and a fresh address for the next one. */
    var boxes: map<gpointer, nat>
    var nextBox: gpointer

    ghost predicate Valid()
      reads this, ghash, ghash.hashes, ghash.keys, ghash.values
    {
      && ghash.Valid()
      && |values| == size
      && numValues == |Occupied(values)|
      && (maxSize > 0 ==> size <= maxSize)
      && Agree(ghash.Contents(), values, boxes, ghash.content)
      && nextBox > NULL
      && forall box :: box in boxes ==> box < nextBox
    }

    /** The finite map this object stands for: each key with its index and value. */
    ghost function Slots(): map<C, Binding>
      requires Valid()
      reads this, ghash, ghash.hashes, ghash.keys, ghash.values
    {
      Bindings(ghash.Contents(), values, boxes)
    }

    constructor (hashFunc: gpointer -> guint, keyEqual: Option<(gpointer, gpointer) -> bool>,
                 ghost content: gpointer -> C, ghost contentHash: C -> guint, maxSize: int)
      requires forall a, b {:trigger Same(keyEqual, a, b)} :: Same(keyEqual, a, b) <==> content(a) == content(b)
      requires forall a {:trigger hashFunc(a)} :: hashFunc(a) == contentHash(content(a))
      ensures Valid() && Slots() == map[] && this.maxSize == maxSize && ghash.content == content
    {
      ghash := new GHashTable<C>(hashFunc, keyEqual, content, contentHash);
      this.maxSize := maxSize;
      values, size, numValues, boxes, nextBox := [], 0, 0, map[], 1;
    }

    /** The slot a key lives in; looked up in the table, by way of the key's box. */
    method GetIdxForKey(key: gpointer) returns (err: int, idx: nat)
      requires Valid()
      ensures err == if ghash.content(key) in Slots() then 0 else -ENOENT
      ensures err == 0 ==> idx == Slots()[ghash.content(key)].index
    {
      idx := 0;
      var gval := ghash.Lookup(key);
      if gval != NULL {
        return 0, boxes[gval];
      }
      err := -ENOENT;
    }

    method GetByKey(key: gpointer) returns (err: int, value: gpointer)
      requires Valid()
      ensures err == if ghash.content(key) in Slots() then 0 else -ENOENT
      ensures err == 0 ==> value == Slots()[ghash.content(key)].value
    {
      value := NULL;
      var gval := ghash.Lookup(key);
      if gval != NULL {
        return 0, values[boxes[gval]].value;
      }
      err := -ENOENT;
    }

    /** Every index below size is accepted; the value of a free slot is NULL. */
    method GetByIdx(idx: int) returns (err: int, value: gpointer)
      requires Valid()
      ensures err == if 0 <= idx < size then 0 else -ENOENT
      ensures err == 0 ==> (value != NULL <==> IndexTaken(Slots(), idx))
      ensures err == 0 ==> forall c :: c in Slots() && Slots()[c].index == idx ==> Slots()[c].value == value
    {
      if 0 <= idx < size {
        err, value := 0, values[idx].value;
        if value != NULL {
          assert ghash.content(values[idx].key) in Slots();
        }
      } else {
        err, value := -ENOENT, NULL;
      }
    }

    /** One more slot, a free one. */
    method Grow()
      requires Valid() && (maxSize > 0 ==> size < maxSize)
      modifies this`values, this`size
      ensures Valid() && size == old(size) + 1 && Slots() == old(Slots())
    {
      AgreeGrow(ghash.Contents(), values, boxes, ghash.content);
      values := values + [FREE];
      size := size + 1;
    }

    /** The scan for a free slot, from the top. */
    method TopFreeSlot() returns (idx: int)
      requires Valid() && numValues < size
      ensures 0 <= idx < size && values[idx].value == NULL
      ensures forall i :: idx < i < size ==> values[i].value != NULL
    {
      FreeSlot(values);
      idx := size - 1;
      while idx >= 0 && values[idx].value != NULL
        invariant -1 <= idx < size
        invariant forall i :: idx < i < size ==> values[i].value != NULL
      {
        idx := idx - 1;
      }
    }

    /** The slots are ahead of the table by one key, which is in slot idx with this box. */
    ghost predicate Ahead(slots: map<C, Binding>, key: gpointer, box: gpointer, idx: nat, value: gpointer)
      requires ghash.Valid()
      reads this, ghash, ghash.hashes, ghash.keys, ghash.values
    {
      var table := ghash.Contents()[ghash.content(key) := Entry(key, box)];
      && Agree(table, values, boxes, ghash.content)
      && Bindings(table, values, boxes) == slots[ghash.content(key) := Binding(idx, value)]
    }

    /** Writes a free slot and a new box. */
    method WriteSlot(idx: nat, key: gpointer, value: gpointer) returns (box: gpointer)
      requires Valid() && idx < size && values[idx].value == NULL && ghash.content(key) !in Slots()
      modifies this
      ensures |values| == size == old(size) && numValues == old(numValues) + 1
      ensures nextBox > NULL && forall box :: box in boxes ==> box < nextBox
      ensures if value == NULL then |Occupied(values)| < numValues
              else numValues == |Occupied(values)| && Ahead(old(Slots()), key, box, idx, value)
    {
      box := nextBox;
      if value != NULL {
        AgreeAdd(ghash.Contents(), values, boxes, ghash.content, idx, key, value, box);
      } else {
        OccupiedUpdate(values, idx, MapValue(key, value, box));
      }
      values := values[idx := MapValue(key, value, box)];
      boxes := boxes[box := idx];
      nextBox := box + 1;
      numValues := numValues + 1;
    }

    /** Puts a new key, its value and a new box into a free slot and into the table. */
    method FillSlot(idx: nat, key: gpointer, value: gpointer)
      requires Valid() && ghash.shift <= 28
      requires idx < size && values[idx].value == NULL && ghash.content(key) !in Slots()
      modifies this, ghash.Repr()
      ensures size == old(size) && numValues == old(numValues) + 1
      ensures Valid() <==> value != NULL
      ensures value != NULL ==> Slots() == old(Slots())[ghash.content(key) := Binding(idx, value)]
    {
      ghost var slots := Slots();
      var box := WriteSlot(idx, key, value);
      InsertBox(key, box, slots, idx, value);
    }

    /** The table catches up with the slots. */
    method InsertBox(key: gpointer, box: gpointer, ghost slots: map<C, Binding>, ghost idx: nat, ghost value: gpointer)
      requires ghash.Valid() && ghash.shift <= 28 && ghash.content(key) !in ghash.Contents()
      requires |values| == size && (maxSize > 0 ==> size <= maxSize)
      requires nextBox > NULL && forall box :: box in boxes ==> box < nextBox
      modifies ghash.Repr()
      ensures size == old(size) && numValues == old(numValues) && values == old(values)
      ensures numValues != |Occupied(values)| ==> !Valid()
      ensures numValues == |Occupied(values)| && old(Ahead(slots, key, box, idx, value)) ==>
        Valid() && Slots() == slots[ghash.content(key) := Binding(idx, value)]
    {
      var added := ghash.Insert(key, box);
    }

    /**
     Adds a key. The new key gets the topmost free index, after the slots have
     grown by one if all of them were taken and the maximal size allows it.
     The pointer that is stored is a duplicate of the key with the same content.
     A NULL value marks a slot as free; storing one leaves the map inconsistent.
     */
    method Add(key: gpointer, duplicate: gpointer, value: gpointer) returns (r: int)
      requires Valid() && ghash.shift <= 28 && ghash.content(duplicate) == ghash.content(key)
      modifies this, ghash.Repr()
      ensures Valid() <==> r < 0 || value != NULL
      ensures r == -EEXIST <==> ghash.content(key) in old(Slots())
      ensures r == -ENOSPC <==> r != -EEXIST && old(numValues == size) && maxSize > 0 && old(size) == maxSize
      ensures r == -EEXIST || r == -ENOSPC || 0 <= r < size
      ensures r < 0 ==> Slots() == old(Slots()) && size == old(size) && numValues == old(numValues)
      ensures r >= 0 ==>
        && size == old(if numValues == size then size + 1 else size)
        && numValues == old(numValues) + 1
        && !IndexTaken(old(Slots()), r)
        && (forall i :: r < i < size ==> IndexTaken(old(Slots()), i))
        && (value != NULL ==> Slots() == old(Slots())[ghash.content(key) := Binding(r, value)])
    {
      var gval := ghash.Lookup(key);
      if gval != NULL {
        return -EEXIST;
      }
      OccupiedAtMost(values);
      if numValues == size {
        if maxSize > 0 && size == maxSize {
          return -ENOSPC;
        }
        Grow();
      }
      r := TopFreeSlot();
      TopmostFree(ghash.Contents(), values, boxes, ghash.content, r);
      FillSlot(r, duplicate, value);
    }

    /** Replaces a value, but only while every slot is taken. A NULL value leaves the map inconsistent. */
    method Update(key: gpointer, value: gpointer) returns (r: int, previous: gpointer)
      requires Valid()
      modifies this
      ensures Valid() <==> r < 0 || value != NULL
      ensures size == old(size) && numValues == old(numValues)
      ensures r >= 0 <==> old(numValues == size) && ghash.content(key) in old(Slots())
      ensures r >= 0 ==> old(Slots())[ghash.content(key)] == Binding(r, previous)
      ensures r >= 0 && value != NULL ==> Slots() == old(Slots())[ghash.content(key) := Binding(r, value)]
      ensures r < 0 ==> r == -1 && Slots() == old(Slots())
    {
      previous := NULL;
      var gval := ghash.Lookup(key);
      if numValues == size && gval != NULL {
        var idx := boxes[gval];
        previous := values[idx].value;
        if value != NULL {
          AgreeReplace(ghash.Contents(), values, boxes, ghash.content, ghash.content(key), idx, value);
        } else {
          OccupiedUpdate(values, idx, values[idx].(value := value));
        }
        values := values[idx := values[idx].(value := value)];
        return idx, previous;
      }
      r := -1;
    }

    /**
     Deletes a key. The source hands the key to a removal that ignores NULL, so
     the map stays consistent exactly when no entry with a NULL key is deleted.
     */
    method Del(key: gpointer) returns (r: int)
      requires Valid()
      modifies this, ghash.Repr()
      ensures r == if ghash.content(key) in old(Slots()) then 0 else -ENOENT
      ensures r != 0 ==> Valid() && Slots() == old(Slots())
      ensures r == 0 ==> (Valid() <==> key != NULL)
      ensures r == 0 && key != NULL ==>
        Slots() == old(Slots()) - {ghash.content(key)} && size == old(size) && numValues == old(numValues) - 1
    {
      var gval := ghash.Lookup(key);
      if gval == NULL {
        return -ENOENT;
      }
      ghost var slots := Slots();
      ClearSlot(ghash.content(key), boxes[gval]);
      RemoveKey(key, slots - {ghash.content(key)});
      r := 0;
    }

    /** The table catches up with the slots, unless the key is NULL. */
    method RemoveKey(key: gpointer, ghost slots: map<C, Binding>)
      requires ghash.Valid() && ghash.content(key) in ghash.Contents()
      requires |values| == size && (maxSize > 0 ==> size <= maxSize) && numValues == |Occupied(values)|
      requires nextBox > NULL && forall box :: box in boxes ==> box < nextBox
      requires !Agree(ghash.Contents(), values, boxes, ghash.content)
      requires Agree(ghash.Contents() - {ghash.content(key)}, values, boxes, ghash.content)
      requires Bindings(ghash.Contents() - {ghash.content(key)}, values, boxes) == slots
      modifies ghash.Repr()
      ensures size == old(size) && numValues == old(numValues)
      ensures Valid() <==> key != NULL
      ensures key != NULL ==> Slots() == slots
    {
      ghash.Remove(key);
    }

    /** Frees the slot of a key; the table is then ahead of the slots by this key. */
    method ClearSlot(ghost c: C, idx: nat)
      requires Valid() && c in ghash.Contents() && idx == boxes[ghash.Contents()[c].value]
      modifies this`values, this`numValues
      ensures |values| == size && numValues == |Occupied(values)| == old(numValues) - 1
      ensures !Agree(ghash.Contents(), values, boxes, ghash.content)
      ensures Agree(ghash.Contents() - {c}, values, boxes, ghash.content)
      ensures Bindings(ghash.Contents() - {c}, values, boxes) == old(Slots()) - {c}
    {
      AgreeRemove(ghash.Contents(), values, boxes, ghash.content, c, idx);
      values := values[idx := FREE];
      numValues := numValues - 1;
    }
  }

  /** Slots above idx are taken, slot idx is free: what that says about the bindings. */
  lemma TopmostFree<C(!new)>(
    table: map<C, Entry>, values: seq<MapValue>, boxes: map<gpointer, nat>, content: gpointer -> C, idx: nat)
    requires Agree(table, values, boxes, content)
    requires idx < |values| && values[idx].value == NULL
    requires forall i :: idx < i < |values| ==> values[i].value != NULL
    ensures !IndexTaken(Bindings(table, values, boxes), idx)
    ensures forall i :: idx < i < |values| ==> IndexTaken(Bindings(table, values, boxes), i)
  {
    var bindings := Bindings(table, values, boxes);
    forall i | idx < i < |values|
      ensures IndexTaken(bindings, i)
    {
      var c := content(values[i].key);
      assert c in bindings && bindings[c].index == i;
    }
  }
}
