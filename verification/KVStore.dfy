/** The key-value store: an open-addressing hash table over values allocated one after the other. */
module KVStore {
  import opened Arith
  import opened Bits
  import opened Buffers
  import opened KVLayout

  class KVStore<V(0)> {
    const node: array<Node>
    const nodeCapacity: nat
    var nodeSize: nat
    const data: array<V>
    const dataCapacity: nat
    var dataSize: nat
    const valueLen: nat

    /** Where each key's node is, and the how-manieth key it was. */
    ghost var slot: map<nat, nat>
    ghost var rank: map<nat, nat>
    ghost const level: nat

    ghost predicate Valid()
      reads this, node
    {
      && (node as object) != data
      && node.Length == nodeCapacity == Pow2(level)
      && data.Length == dataCapacity == Base(nodeCapacity, valueLen) < IMMUTABLE_MASK
      && nodeSize == |slot| && dataSize == Base(nodeSize, valueLen)
      && Laid(node[..], slot, rank, valueLen)
    }

    /** The map the store stands for. */
    ghost function Contents(): (m: map<nat, Entry<V>>)
      reads this, node, data
    {
      View(node[..], data[..], slot, valueLen)
    }

    /** The first MAX_PROBE_NUM slots on the key's path are all taken. */
    ghost predicate PathFull(key: nat)
      requires Valid()
      reads this, node
    {
      PathTaken(node[..], key, MAX_PROBE_NUM)
    }

    /** Those are 32, from the slot of the key's remainder on and around the end: with an empty one among them the path
        is not full. */
    lemma EmptySlotOnPath(key: nat, q: nat)
      requires Valid() && q < 32 && nodeCapacity > 0 && node[(key + q) % nodeCapacity].offset < 0
      ensures !PathFull(key)
    {
      assert Slot(key, q, nodeCapacity) == (key + q) % nodeCapacity;
    }

    /** And if it is not full, one of them is empty. */
    lemma EmptySlotOf(key: nat) returns (q: nat)
      requires Valid() && !PathFull(key)
      ensures q < 32 && nodeCapacity > 0 && node[(key + q) % nodeCapacity].offset < 0
    {
      q :| q < MAX_PROBE_NUM && node[..][Slot(key, q, nodeCapacity)].offset < 0;
    }

    /** A full path takes 32 keys, or all slots. */
    lemma FullPathIsLong(key: nat)
      requires Valid() && PathFull(key)
      ensures |Contents()| >= 32 || |Contents()| == nodeCapacity
    {
      hide Laid, View;
      var m := if nodeCapacity < 32 then nodeCapacity else 32;
      SlotsTaken(node[..], slot, rank, valueLen, key, m);
      SizeBound(node[..], slot, rank, valueLen);
      assert Contents().Keys == slot.Keys;
    }

    /** The values of a stretch of the data. */
    ghost function ValuesAt(offset: nat): seq<V>
      reads this, data
    {
      Region(data[..], offset, valueLen)
    }

    /** The capacity is the least power of two that is not below the requested one. */
    constructor (initCapacity: nat, valueLen: nat, zero: V)
      requires Base(2 * initCapacity + 1, valueLen) < IMMUTABLE_MASK
      ensures Valid() && fresh(node) && fresh(data) && this.valueLen == valueLen
      ensures initCapacity <= nodeCapacity && (nodeCapacity > 1 ==> nodeCapacity < 2 * initCapacity)
      ensures Contents() == map[0 := Entry(seq(valueLen, _ => zero), true)]
    {
      var capacity := 1;
      ghost var k := 0;
      while capacity < initCapacity
        invariant capacity == Pow2(k) && (capacity == 1 || capacity < 2 * initCapacity)
        decreases initCapacity - capacity
      {
        capacity := capacity * 2;
        k := k + 1;
      }
      MulLe(capacity, 2 * initCapacity + 1, valueLen);
      nodeCapacity, level := capacity, k;
      this.valueLen := valueLen;
      nodeSize, dataSize := 0, 0;
      dataCapacity := Base(capacity, valueLen);
      node := new Node[capacity](_ => Node(0, -1));
      data := new V[Base(capacity, valueLen)];
      slot, rank := map[], map[];
      new;
      var zeros := seq(valueLen, _ => zero);
      assert node[0].offset < 0;
      assert !PathFull(0) by {
        assert 0 <= Slot(0, 0, |node[..]|) < |node[..]|;
      }
      AddBlackList(zero);
    }

    /** Key 0 holds zeros for ever. */
    method AddBlackList(zero: V)
      requires Valid() && (0 in slot || !PathFull(0))
      modifies node, data, `nodeSize, `dataSize, `slot, `rank
      ensures Valid()
      ensures Contents() == old(Contents())[0 := Entry(seq(valueLen, _ => zero), true)]
    {
      var zeros := seq(valueLen, _ => zero);
      var fatal := Set(0, zeros, true);
    }

    /** Put a new key into the empty slot its search ended at. */
    method AddEntry(key: nat, index: nat, ghost p: nat) returns (offset: nat)
      requires Valid() && key !in slot
      requires p < MAX_PROBE_NUM && PathTaken(node[..], key, p)
      requires index == Slot(key, p, nodeCapacity) && node[index].offset < 0
      modifies node, `nodeSize, `dataSize, `slot, `rank
      ensures Valid()
      ensures rank == old(rank)[key := |old(slot)|] && slot == old(slot)[key := index]
      ensures offset == Base(rank[key], valueLen)
      ensures Contents() == old(Contents())[key := Entry(ValuesAt(offset), false)]
    {
      hide Slot, Laid, View, Flagged, PathTaken, Base, Region;
      ghost var nodes := node[..];
      RoomLeft(nodes, slot, rank, valueLen, index, key);
      RegionFits(nodeSize, nodeCapacity, valueLen);
      InsertLaid(nodes, slot, rank, valueLen, key, p);
      InsertView(nodes, data[..], slot, rank, valueLen, index, key, dataSize);
      NextBase(nodeSize, valueLen);
      node[index] := Node(key, dataSize);
      offset := dataSize;
      dataSize := dataSize + valueLen;
      nodeSize := nodeSize + 1;
      assert slot[key := index].Keys == slot.Keys + {key};
      slot, rank := slot[key := index], rank[key := |slot|];
      assert node[..] == nodes[index := Node(key, offset)];
    }

    /** Look the key up; unless the search is read-only, a missing key gets a slot and a stretch of the data. The
        search is fatal exactly when the key is missing and its whole path taken. */
    method Get(key: nat, readOnly: bool) returns (fatal: bool, nodeIndex: nat, offset: int, immutable: bool,
               newData: bool)
      requires Valid()
      modifies node, `nodeSize, `dataSize, `slot, `rank
      ensures Valid()
      ensures fatal <==> key !in old(slot) && old(PathFull(key))
      ensures fatal ==> |Contents()| >= 32 || |Contents()| == nodeCapacity
      ensures fatal || key in old(slot) || readOnly ==>
        node[..] == old(node[..]) && slot == old(slot) && rank == old(rank) && Contents() == old(Contents())
      ensures key in old(slot) ==>
        key in rank && nodeIndex == slot[key] && offset == Base(rank[key], valueLen) && !newData
        && Contents()[key].values == ValuesAt(offset)
        && immutable == (readOnly || Contents()[key].immutable)
      ensures !fatal && key !in old(slot) && readOnly ==> offset == -1 && !newData && immutable
      ensures !fatal && key !in old(slot) && !readOnly ==>
        newData && !immutable
        && rank == old(rank)[key := |old(slot)|] && slot == old(slot)[key := nodeIndex]
        && offset == Base(rank[key], valueLen)
        && Contents() == old(Contents())[key := Entry(ValuesAt(offset), false)]
    {
      hide Slot, Laid, View, Flagged, PathTaken, NotOnPath, Base, Region;
      fatal, nodeIndex, offset, immutable, newData := false, 0, -1, readOnly, false;
      ghost var nodes := node[..];
      ghost var p := 0;
      MaskIsModulo(key, level);
      var index := And(key, nodeCapacity - 1);
      FirstSlot(key, nodeCapacity);
      PathStart(nodes, key);
      var probeNum := MAX_PROBE_NUM;
      while index < nodeCapacity && probeNum > 0
        decreases probeNum
        invariant p == MAX_PROBE_NUM - probeNum && 0 <= probeNum && index == Slot(key, p, nodeCapacity)
        invariant node[..] == nodes
        invariant PathTaken(nodes, key, p) && NotOnPath(nodes, key, p)
        invariant nodeSize == old(nodeSize) && dataSize == old(dataSize) && slot == old(slot) && rank == old(rank)
      {
        probeNum := probeNum - 1;
        assert nodes[index] == node[index];
        if node[index].offset < 0 {
          NotFound(nodes, slot, rank, valueLen, key, p);
          PathEnds(nodes, key, p);
          if readOnly {
            offset := -1;
          } else {
            offset := AddEntry(key, index, p);
            nodeIndex := index;
            newData := true;
          }
          return;
        } else if node[index].key == key {
          FoundAt(nodes, data[..], slot, rank, valueLen, key, index);
          offset := node[index].offset;
          nodeIndex := index;
          if Flagged(offset) {
            offset := Offset(offset);
            immutable := true;
          }
          return;
        }
        PathExtend(nodes, key, p);
        MaskIsModulo(index + 1, level);
        NextSlot(key, p, nodeCapacity);
        index := And(index + 1, nodeCapacity - 1);
        p := p + 1;
      }
      NotFound(nodes, slot, rank, valueLen, key, p);
      fatal := true;
      FullPathIsLong(key);
    }

    /** Write the key's values and its flag; no other key's entry changes. */
    method Set(key: nat, val: seq<V>, immutable: bool) returns (fatal: bool)
      requires Valid() && |val| == valueLen
      modifies node, data, `nodeSize, `dataSize, `slot, `rank
      ensures Valid()
      ensures fatal <==> key !in old(slot) && old(PathFull(key))
      ensures fatal ==> Contents() == old(Contents()) && PathFull(key)
      ensures fatal ==> |Contents()| >= 32 || |Contents()| == nodeCapacity
      ensures !fatal ==> Contents() == old(Contents())[key := Entry(val, immutable)]
    {
      hide Slot, Laid, View, Flagged, Offset, PathTaken, Base, Region;
      var nodeIndex, offset, immu, newData;
      fatal, nodeIndex, offset, immu, newData := Get(key, false);
      if fatal {
        return;
      }
      ghost var nodes, values := node[..], data[..];
      ghost var flagged := EntrySet(nodes, slot, rank, valueLen, values, key, val, immutable);
      CopyIn(offset, val);
      StoredOffset(nodes, slot, rank, valueLen, key, |values|);
      if immutable {
        node[nodeIndex] := node[nodeIndex].(offset := WithFlag(node[nodeIndex].offset));
      } else {
        node[nodeIndex] := node[nodeIndex].(offset := Offset(node[nodeIndex].offset));
      }
      assert node[..] == flagged;
    }

    /** Write through the address a search returned: the key's values change, its flag does not. */
    method Write(ghost key: nat, offset: nat, val: seq<V>)
      requires Valid() && key in slot && key in rank && offset == Base(rank[key], valueLen) && |val| == valueLen
      modifies data
      ensures Valid()
      ensures Contents() == old(Contents())[key := Entry(val, old(Contents())[key].immutable)]
    {
      ghost var nodes, values, immutable := node[..], data[..], Contents()[key].immutable;
      hide Slot, Laid, View, Flagged, Offset, PathTaken, Base, Region;
      SizeFits(nodes, slot, rank, valueLen);
      NodeAt(nodes, values, slot, rank, valueLen, key);
      RegionFits(rank[key], nodeSize, valueLen);
      assert nodes[slot[key] := NodeOf(key, rank[key], valueLen, immutable)] == nodes;
      OverwriteView(nodes, slot, rank, valueLen, values, key, val, immutable);
      CopyIn(offset, val);
      assert node[..] == nodes;
    }

    /** Read the values at the address a search returned. */
    method Read(ghost key: nat, offset: nat) returns (val: seq<V>)
      requires Valid() && key in slot && key in rank && offset == Base(rank[key], valueLen)
      ensures val == Contents()[key].values && |val| == valueLen
    {
      hide Slot, Laid, PathTaken, Base;
      SizeFits(node[..], slot, rank, valueLen);
      NodeAt(node[..], data[..], slot, rank, valueLen, key);
      RegionFits(rank[key], nodeSize, valueLen);
      val := data[offset..offset + valueLen];
    }

    /** Copy values over those that start at the offset. */
    method CopyIn(offset: nat, val: seq<V>)
      requires offset + |val| <= data.Length
      modifies data
      ensures data[..] == Overwrite(old(data[..]), offset, val)
    {
      for i := 0 to |val|
        invariant data[..] == Overwrite(old(data[..]), offset, val[..i])
      {
        data[offset + i] := val[i];
        assert val[..i + 1] == val[..i] + [val[i]];
      }
      assert val[..|val|] == val;
    }
  }

  /** A stored offset gives the same base with the flag set or cleared. */
  lemma {:induction false} StoredOffset(nodes: seq<Node>, slot: map<nat, nat>, rank: map<nat, nat>, len: nat,
                                        key: nat, size: nat)
    requires Placed(nodes, slot, rank, len, key) && Base(rank[key], len) + len <= size < IMMUTABLE_MASK
    ensures nodes[slot[key]].offset >= 0 && nodes[slot[key]].key == key
    ensures Offset(nodes[slot[key]].offset) == Base(rank[key], len)
    ensures WithFlag(nodes[slot[key]].offset) == Base(rank[key], len) + IMMUTABLE_MASK
  {
    FlagFacts(Base(rank[key], len));
  }

  /** A stored key's node, and its entry in the map. */
  lemma {:induction false} NodeAt<V>(nodes: seq<Node>, data: seq<V>, slot: map<nat, nat>, rank: map<nat, nat>,
                                     len: nat, key: nat)
    requires Laid(nodes, slot, rank, len) && key in slot
    requires Base(|nodes|, len) < IMMUTABLE_MASK
    ensures Placed(nodes, slot, rank, len, key)
    ensures nodes[slot[key]] == NodeOf(key, rank[key], len, View(nodes, data, slot, len)[key].immutable)
    ensures View(nodes, data, slot, len)[key].values == Region(data, Base(rank[key], len), len)
  {
    assert Placed(nodes, slot, rank, len, key);
    SizeBound(nodes, slot, rank, len);
    hide Laid, Reaches, Base, Region;
    RegionFits(rank[key], |nodes|, len);
    FlagFacts(Base(rank[key], len));
  }

  /** A key's values and flag set: the layout stays, and the map has the new entry. */
  lemma {:induction false} EntrySet<V>(nodes: seq<Node>, slot: map<nat, nat>, rank: map<nat, nat>, len: nat,
                                       data: seq<V>, key: nat, values: seq<V>, flag: bool)
    returns (flagged: seq<Node>)
    requires Laid(nodes, slot, rank, len) && key in slot && |values| == len
    requires |data| == Base(|nodes|, len) < IMMUTABLE_MASK
    ensures Placed(nodes, slot, rank, len, key) && Base(rank[key], len) + len <= |data|
    ensures flagged == nodes[slot[key] := NodeOf(key, rank[key], len, flag)] && Laid(flagged, slot, rank, len)
    ensures View(flagged, Overwrite(data, Base(rank[key], len), values), slot, len)
         == View(nodes, data, slot, len)[key := Entry(values, flag)]
  {
    hide Slot, Laid, View, Flagged, Offset, PathTaken, Base, Region;
    FlagLaid(nodes, slot, rank, len, key, flag);
    SizeFits(nodes, slot, rank, len);
    RegionFits(rank[key], |slot|, len);
    flagged := nodes[slot[key] := NodeOf(key, rank[key], len, flag)];
    OverwriteView(nodes, slot, rank, len, data, key, values, flag);
  }

  lemma {:induction false} SizeFits(nodes: seq<Node>, slot: map<nat, nat>, rank: map<nat, nat>, len: nat)
    requires Laid(nodes, slot, rank, len)
    ensures |slot| <= |nodes| && Base(|slot|, len) <= Base(|nodes|, len)
  {
    SizeBound(nodes, slot, rank, len);
    MulLe(|slot|, |nodes|, len);
  }

  lemma {:induction false} FirstSlot(key: nat, capacity: nat)
    requires capacity > 0
    ensures key % capacity == Slot(key, 0, capacity)
  {
  }

  lemma {:induction false} NextBase(r: nat, len: nat)
    ensures Base(r + 1, len) == Base(r, len) + len
  {
  }

  lemma {:induction false} PathStart(nodes: seq<Node>, key: nat)
    requires |nodes| > 0
    ensures PathTaken(nodes, key, 0) && NotOnPath(nodes, key, 0)
  {
  }

  lemma {:induction false} PathExtend(nodes: seq<Node>, key: nat, p: nat)
    requires |nodes| > 0 && PathTaken(nodes, key, p) && NotOnPath(nodes, key, p)
    requires nodes[Slot(key, p, |nodes|)].offset >= 0 && nodes[Slot(key, p, |nodes|)].key != key
    ensures PathTaken(nodes, key, p + 1) && NotOnPath(nodes, key, p + 1)
  {
    hide Slot;
  }

  lemma {:induction false} PathEnds(nodes: seq<Node>, key: nat, p: nat)
    requires |nodes| > 0 && p < MAX_PROBE_NUM && nodes[Slot(key, p, |nodes|)].offset < 0
    ensures !PathTaken(nodes, key, MAX_PROBE_NUM)
  {
    hide Slot;
  }

  /** The node that a search stops at is the key's. */
  lemma {:induction false} FoundAt<V>(nodes: seq<Node>, data: seq<V>, slot: map<nat, nat>, rank: map<nat, nat>,
                                      len: nat, key: nat, i: nat)
    requires Laid(nodes, slot, rank, len) && i < |nodes| && nodes[i].offset >= 0 && nodes[i].key == key
    requires Base(|nodes|, len) < IMMUTABLE_MASK
    ensures key in slot && slot[key] == i && key in rank
    ensures Offset(nodes[i].offset) == Base(rank[key], len)
    ensures !Flagged(nodes[i].offset) ==> nodes[i].offset == Base(rank[key], len)
    ensures var e := View(nodes, data, slot, len)[key];
            e.values == Region(data, Base(rank[key], len), len) && e.immutable == Flagged(nodes[i].offset)
  {
    assert nodes[i].key in slot && slot[nodes[i].key] == i;
    assert Placed(nodes, slot, rank, len, key);
    SizeBound(nodes, slot, rank, len);
    hide Laid, Reaches, Base, Region;
    RegionFits(rank[key], |nodes|, len);
    FlagFacts(Base(rank[key], len));
  }
}
