/** How the key-value store lays out nodes and values, and what the layout says about the map it stands for. */
module KVLayout {
  import opened Arith
  import opened Bits
  import opened Buffers

  /** A slot of the hash table; the offset is negative when the slot is empty. */
  datatype Node = Node(key: nat, offset: int)

  /** What the store holds for a key. */
  datatype Entry<V> = Entry(values: seq<V>, immutable: bool)

  const MAX_PROBE_NUM := 32
  const IMMUTABLE_MASK := 0x4000000000000000

  lemma {:induction false} MaskIsBit62()
    ensures Pow2(62) == IMMUTABLE_MASK
  {
    assert Pow2(2) == 4;
    Pow2Product(2, 2);
    Pow2Product(4, 4);
    Pow2Product(8, 8);
    Pow2Product(16, 16);
    Pow2Product(2, 4);
    Pow2Product(6, 8);
    Pow2Product(14, 16);
    Pow2Product(30, 32);
  }

  /** offset & ~mask */
  function Offset(offset: nat): int {
    offset - And(offset, IMMUTABLE_MASK)
  }

  /** (offset & mask) != 0 */
  predicate Flagged(offset: nat) {
    And(offset, IMMUTABLE_MASK) != 0
  }

  /** offset | mask */
  function WithFlag(offset: nat): int {
    Offset(offset) + IMMUTABLE_MASK
  }

  lemma {:induction false} FlagFacts(base: nat)
    requires base < IMMUTABLE_MASK
    ensures Offset(base) == Offset(base + IMMUTABLE_MASK) == base
    ensures !Flagged(base) && Flagged(base + IMMUTABLE_MASK)
  {
    MaskIsBit62();
    BitOf(base, 62);
  }

  ghost function Slot(key: nat, p: nat, capacity: nat): (i: nat)
    requires capacity > 0
    ensures i < capacity
  {
    DivModDef(key + p, capacity);
    (key + p) % capacity
  }

  /** One probe further is one slot further, around the end. */
  lemma {:induction false} NextSlot(key: nat, p: nat, capacity: nat)
    requires capacity > 0
    ensures (Slot(key, p, capacity) + 1) % capacity == Slot(key, p + 1, capacity)
  {
    var q, r := (key + p) / capacity, (key + p) % capacity;
    DivModDef(key + p, capacity);
    WrapOnce(r + 1, capacity);
    if r + 1 < capacity {
      DivModUnique(key + p + 1, capacity, q, r + 1);
    } else {
      assert (q + 1) * capacity == q * capacity + capacity;
      DivModUnique(key + p + 1, capacity, q + 1, 0);
    }
  }

  /** The first m slots on the key's path are taken. */
  ghost predicate PathTaken(nodes: seq<Node>, key: nat, m: nat)
    requires |nodes| > 0
  {
    forall q: nat {:trigger Slot(key, q, |nodes|)} :: q < m ==> nodes[Slot(key, q, |nodes|)].offset >= 0
  }

  /** None of the first m slots on the key's path holds the key. */
  ghost predicate NotOnPath(nodes: seq<Node>, key: nat, m: nat)
    requires |nodes| > 0
  {
    forall q: nat {:trigger Slot(key, q, |nodes|)} :: q < m ==> nodes[Slot(key, q, |nodes|)].key != key
  }

  /** Slot i is on the key's path, within the probe limit, and no slot before it is empty. */
  ghost predicate Reaches(nodes: seq<Node>, key: nat, i: nat)
    requires |nodes| > 0
  {
    exists p: nat {:trigger Slot(key, p, |nodes|)} ::
      p < MAX_PROBE_NUM && i == Slot(key, p, |nodes|) && PathTaken(nodes, key, p)
  }

  ghost predicate KeyAt(nodes: seq<Node>, key: nat, base: nat, i: nat) {
    && i < |nodes| && nodes[i].key == key
    && (nodes[i].offset == base || nodes[i].offset == base + IMMUTABLE_MASK)
  }

  /** Key k was the rank[k]-th to arrive, owns the rank[k]-th stretch of values and is found on its path. */
  ghost predicate Placed(nodes: seq<Node>, slot: map<nat, nat>, rank: map<nat, nat>, len: nat, k: nat) {
    && |nodes| > 0 && k in slot && k in rank && rank[k] < |slot|
    && KeyAt(nodes, k, Base(rank[k], len), slot[k])
    && Reaches(nodes, k, slot[k])
  }

  ghost predicate Laid(nodes: seq<Node>, slot: map<nat, nat>, rank: map<nat, nat>, len: nat) {
    && |nodes| > 0
    && (forall k {:trigger Placed(nodes, slot, rank, len, k)} :: k in slot ==> Placed(nodes, slot, rank, len, k))
    && (forall k, l {:trigger rank[k], rank[l]} :: k in slot && l in slot && k in rank && l in rank && k != l ==>
          rank[k] != rank[l])
    && (forall i {:trigger nodes[i]} :: 0 <= i < |nodes| && nodes[i].offset >= 0 ==>
          nodes[i].key in slot && slot[nodes[i].key] == i)
  }

  /** A stored key is met within the probe limit, before any empty slot. */
  lemma {:induction false} OnPath(nodes: seq<Node>, slot: map<nat, nat>, rank: map<nat, nat>, len: nat, key: nat)
    returns (p: nat)
    requires Laid(nodes, slot, rank, len) && key in slot
    ensures p < MAX_PROBE_NUM && slot[key] == Slot(key, p, |nodes|) && PathTaken(nodes, key, p)
    ensures nodes[Slot(key, p, |nodes|)].key == key && nodes[Slot(key, p, |nodes|)].offset >= 0
  {
    hide Slot, Base;
    assert Placed(nodes, slot, rank, len, key);
    p :| p < MAX_PROBE_NUM && slot[key] == Slot(key, p, |nodes|) && PathTaken(nodes, key, p);
  }

  /** A search that meets an empty slot, or runs out of probes, without meeting the key proves it absent. */
  lemma {:induction false} NotFound(nodes: seq<Node>, slot: map<nat, nat>, rank: map<nat, nat>, len: nat, key: nat,
                                    m: nat)
    requires Laid(nodes, slot, rank, len) && m <= MAX_PROBE_NUM
    requires NotOnPath(nodes, key, m)
    requires m == MAX_PROBE_NUM || nodes[Slot(key, m, |nodes|)].offset < 0
    ensures key !in slot
  {
    hide Laid, Slot;
    if key in slot {
      var p := OnPath(nodes, slot, rank, len, key);
    }
  }

  /** Finitely many numbers below n that different keys map to are no more than n. */
  lemma {:induction false} InjectionBound(slot: map<nat, nat>, n: nat)
    requires forall k {:trigger slot[k]} :: k in slot ==> slot[k] < n
    requires forall k, l {:trigger slot[k], slot[l]} :: k in slot && l in slot && k != l ==> slot[k] != slot[l]
    ensures |slot| <= n
    decreases n
  {
    if n == 0 {
      assert forall k :: k in slot ==> slot[k] < 0;
      assert slot == map[];
    } else if k :| k in slot && slot[k] == n - 1 {
      var rest := slot - {k};
      assert slot.Keys == rest.Keys + {k};
      InjectionBound(rest, n - 1);
    } else {
      InjectionBound(slot, n - 1);
    }
  }

  /** While a slot is empty there is room for one more key. */
  lemma {:induction false} RoomLeft(nodes: seq<Node>, slot: map<nat, nat>, rank: map<nat, nat>, len: nat, i: nat,
                                    key: nat)
    requires Laid(nodes, slot, rank, len) && i < |nodes| && nodes[i].offset < 0 && key !in slot
    ensures |slot| < |nodes|
  {
    hide Reaches, Base;
    var slot' := slot[key := i];
    assert slot'.Keys == slot.Keys + {key};
    forall k | k in slot ensures k in rank && KeyAt(nodes, k, Base(rank[k], len), slot[k]) {
      assert Placed(nodes, slot, rank, len, k);
    }
    InjectionBound(slot', |nodes|);
  }

  lemma {:induction false} SizeBound(nodes: seq<Node>, slot: map<nat, nat>, rank: map<nat, nat>, len: nat)
    requires Laid(nodes, slot, rank, len)
    ensures |slot| <= |nodes|
  {
    hide Reaches, Base;
    forall k | k in slot ensures k in rank && KeyAt(nodes, k, Base(rank[k], len), slot[k]) {
      assert Placed(nodes, slot, rank, len, k);
    }
    InjectionBound(slot, |nodes|);
  }

  /** The keys in the first m slots on a path. */
  ghost function KeysOnPath(nodes: seq<Node>, key: nat, m: nat): set<nat>
    requires |nodes| > 0
  {
    if m == 0 then {} else KeysOnPath(nodes, key, m - 1) + {nodes[Slot(key, m - 1, |nodes|)].key}
  }

  lemma {:induction false} OnPathWhere(nodes: seq<Node>, key: nat, m: nat, k: nat) returns (q: nat)
    requires |nodes| > 0 && k in KeysOnPath(nodes, key, m)
    ensures q < m && nodes[Slot(key, q, |nodes|)].key == k
  {
    if k == nodes[Slot(key, m - 1, |nodes|)].key {
      q := m - 1;
    } else {
      q := OnPathWhere(nodes, key, m - 1, k);
    }
  }

  /** Different probes, fewer than the slots apart, look at different slots. */
  lemma {:induction false} SlotsDiffer(key: nat, q: nat, p: nat, capacity: nat)
    requires q < p < q + capacity
    ensures Slot(key, q, capacity) != Slot(key, p, capacity)
  {
    DivModDef(key + q, capacity);
    DivModDef(key + p, capacity);
    if Slot(key, q, capacity) == Slot(key, p, capacity) {
      var a, b := (key + q) / capacity, (key + p) / capacity;
      assert (b - a) * capacity == b * capacity - a * capacity == p - q;
      if b > a {
        MulLe(1, b - a, capacity);
      } else {
        MulLe(b, a, capacity);
      }
    }
  }

  /** Taken slots hold different keys, so a path of m taken slots takes m keys. */
  lemma {:induction false} SlotsTaken(nodes: seq<Node>, slot: map<nat, nat>, rank: map<nat, nat>, len: nat, key: nat,
                                      m: nat)
    requires Laid(nodes, slot, rank, len) && PathTaken(nodes, key, m) && m <= |nodes|
    ensures |slot| >= m && |KeysOnPath(nodes, key, m)| == m && KeysOnPath(nodes, key, m) <= slot.Keys
    decreases m
  {
    hide Slot, Reaches, Base;
    if m == 0 {
    } else {
      SlotsTaken(nodes, slot, rank, len, key, m - 1);
      var i := Slot(key, m - 1, |nodes|);
      assert nodes[i].offset >= 0;
      var k := nodes[i].key;
      if k in KeysOnPath(nodes, key, m - 1) {
        var q := OnPathWhere(nodes, key, m - 1, k);
        assert nodes[Slot(key, q, |nodes|)].offset >= 0;
        SlotsDiffer(key, q, m - 1, |nodes|);
      }
      SetSize(KeysOnPath(nodes, key, m), slot.Keys);
    }
  }

  lemma {:induction false} SetSize(a: set<nat>, b: set<nat>)
    requires a <= b
    ensures |a| <= |b|
  {
    assert b == a + (b - a);
  }

  function EntryAt<V>(nodes: seq<Node>, data: seq<V>, i: nat, len: nat): Entry<V> {
    if i < |nodes| && nodes[i].offset >= 0 then
      Entry(Region(data, Offset(nodes[i].offset), len), Flagged(nodes[i].offset))
    else Entry([], false)
  }

  /** The map the store stands for. */
  ghost function View<V>(nodes: seq<Node>, data: seq<V>, slot: map<nat, nat>, len: nat): (v: map<nat, Entry<V>>)
    ensures v.Keys == slot.Keys
  {
    map k | k in slot :: EntryAt(nodes, data, slot[k], len)
  }

  /** Taking the empty slot at the end of the key's path keeps the layout. */
  lemma {:induction false} InsertLaid(nodes: seq<Node>, slot: map<nat, nat>, rank: map<nat, nat>, len: nat, key: nat,
                                      p: nat)
    requires Laid(nodes, slot, rank, len) && key !in slot
    requires p < MAX_PROBE_NUM && PathTaken(nodes, key, p) && nodes[Slot(key, p, |nodes|)].offset < 0
    ensures var i := Slot(key, p, |nodes|);
            Laid(nodes[i := Node(key, Base(|slot|, len))], slot[key := i], rank[key := |slot|], len)
  {
    hide Slot, Base, Reaches, PathTaken, KeyAt;
    var i := Slot(key, p, |nodes|);
    var nodes', slot', rank' := nodes[i := Node(key, Base(|slot|, len))], slot[key := i], rank[key := |slot|];
    forall k | k in slot' ensures Placed(nodes', slot', rank', len, k) {
      if k == key {
        PlacedNew(nodes, slot, rank, len, key, p);
      } else {
        assert Placed(nodes, slot, rank, len, k);
        PlacedStill(nodes, slot, rank, len, i, key, k);
      }
    }
    forall k | k in slot ensures k in rank && rank[k] < |slot| {
      assert Placed(nodes, slot, rank, len, k);
    }
  }

  lemma {:induction false} PlacedNew(nodes: seq<Node>, slot: map<nat, nat>, rank: map<nat, nat>, len: nat, key: nat,
                                     p: nat)
    requires |nodes| > 0 && key !in slot
    requires p < MAX_PROBE_NUM && PathTaken(nodes, key, p) && nodes[Slot(key, p, |nodes|)].offset < 0
    ensures var i := Slot(key, p, |nodes|);
            Placed(nodes[i := Node(key, Base(|slot|, len))], slot[key := i], rank[key := |slot|], len, key)
  {
    hide Slot, Base, Reaches, PathTaken;
    var i := Slot(key, p, |nodes|);
    assert slot[key := i].Keys == slot.Keys + {key};
    ReachesNew(nodes, i, Node(key, Base(|slot|, len)), key, p);
  }

  lemma {:induction false} PlacedStill(nodes: seq<Node>, slot: map<nat, nat>, rank: map<nat, nat>, len: nat,
                                       i: nat, key: nat, k: nat)
    requires Placed(nodes, slot, rank, len, k) && k != key && key !in slot && i < |nodes| && nodes[i].offset < 0
    ensures Placed(nodes[i := Node(key, Base(|slot|, len))], slot[key := i], rank[key := |slot|], len, k)
  {
    hide Slot, Base, Reaches, PathTaken;
    assert slot[key := i].Keys == slot.Keys + {key};
    ReachesStill(nodes, i, Node(key, Base(|slot|, len)), k, slot[k]);
  }

  lemma {:induction false} ReachesNew(nodes: seq<Node>, i: nat, node: Node, key: nat, p: nat)
    requires i < |nodes| && node.offset >= 0 && p < MAX_PROBE_NUM
    requires PathTaken(nodes, key, p) && i == Slot(key, p, |nodes|)
    ensures Reaches(nodes[i := node], key, i)
  {
    PathGrows(nodes, i, node, key, p);
    assert i == Slot(key, p, |nodes[i := node]|);
  }

  lemma {:induction false} ReachesStill(nodes: seq<Node>, i: nat, node: Node, key: nat, at: nat)
    requires i < |nodes| && node.offset >= 0 && Reaches(nodes, key, at)
    ensures Reaches(nodes[i := node], key, at)
  {
    hide Slot;
    var p: nat :| p < MAX_PROBE_NUM && at == Slot(key, p, |nodes|) && PathTaken(nodes, key, p);
    PathGrows(nodes, i, node, key, p);
    assert at == Slot(key, p, |nodes[i := node]|);
  }

  /** Filling a slot keeps paths taken. */
  lemma {:induction false} PathGrows(nodes: seq<Node>, i: nat, node: Node, key: nat, m: nat)
    requires i < |nodes| && node.offset >= 0 && PathTaken(nodes, key, m)
    ensures PathTaken(nodes[i := node], key, m)
  {
    hide Slot;
    forall q: nat | q < m ensures nodes[i := node][Slot(key, q, |nodes|)].offset >= 0 {
      assert nodes[Slot(key, q, |nodes|)].offset >= 0;
    }
  }

  /** The new key's entry joins the map, everything else stays. */
  lemma {:induction false} InsertView<V>(nodes: seq<Node>, data: seq<V>, slot: map<nat, nat>, rank: map<nat, nat>,
                                         len: nat, i: nat, key: nat, base: nat)
    requires Laid(nodes, slot, rank, len)
    requires i < |nodes| && nodes[i].offset < 0 && key !in slot && base < IMMUTABLE_MASK
    ensures View(nodes[i := Node(key, base)], data, slot[key := i], len)
         == View(nodes, data, slot, len)[key := Entry(Region(data, base, len), false)]
  {
    hide Reaches, Region, Flagged, Offset;
    FlagFacts(base);
    forall k | k in slot ensures slot[k] != i {
      assert Placed(nodes, slot, rank, len, k);
    }
  }

  /** The node of the r-th key. */
  function NodeOf(key: nat, r: nat, len: nat, flag: bool): Node {
    Node(key, if flag then Base(r, len) + IMMUTABLE_MASK else Base(r, len))
  }

  /** Setting or clearing the flag of a stored key keeps the layout. */
  lemma {:induction false} FlagLaid(nodes: seq<Node>, slot: map<nat, nat>, rank: map<nat, nat>, len: nat, key: nat,
                                    flag: bool)
    requires Laid(nodes, slot, rank, len) && key in slot
    ensures Placed(nodes, slot, rank, len, key)
    ensures Laid(nodes[slot[key] := NodeOf(key, rank[key], len, flag)], slot, rank, len)
  {
    hide Slot, Base, Reaches, PathTaken;
    assert Placed(nodes, slot, rank, len, key);
    var i := slot[key];
    var nodes' := nodes[i := NodeOf(key, rank[key], len, flag)];
    forall k | k in slot ensures Placed(nodes', slot, rank, len, k) {
      assert Placed(nodes, slot, rank, len, k);
      ReachesStill(nodes, i, nodes'[i], k, slot[k]);
    }
  }

  /** Overwriting one key's values and flag changes that key's entry and no other. */
  lemma {:induction false} OverwriteView<V>(nodes: seq<Node>, slot: map<nat, nat>, rank: map<nat, nat>, len: nat,
                                            data: seq<V>, key: nat, values: seq<V>, flag: bool)
    requires Laid(nodes, slot, rank, len) && key in slot && Placed(nodes, slot, rank, len, key)
    requires |values| == len && Base(|slot|, len) <= |data| < IMMUTABLE_MASK
    requires Base(rank[key], len) + len <= |data|
    ensures View(nodes[slot[key] := NodeOf(key, rank[key], len, flag)], Overwrite(data, Base(rank[key], len), values),
                 slot, len)
         == View(nodes, data, slot, len)[key := Entry(values, flag)]
  {
    var nodes' := nodes[slot[key] := NodeOf(key, rank[key], len, flag)];
    hide Laid, EntryAt, Base, Placed;
    var data' := Overwrite(data, Base(rank[key], len), values);
    forall k | k in slot
      ensures EntryAt(nodes', data', slot[k], len) ==
              if k == key then Entry(values, flag) else EntryAt(nodes, data, slot[k], len)
    {
      OverwriteAt(nodes, slot, rank, len, data, key, values, flag, k);
    }
  }

  lemma {:induction false} OverwriteAt<V>(nodes: seq<Node>, slot: map<nat, nat>, rank: map<nat, nat>, len: nat,
                                          data: seq<V>, key: nat, values: seq<V>, flag: bool, k: nat)
    requires Laid(nodes, slot, rank, len) && key in slot && k in slot && Placed(nodes, slot, rank, len, key)
    requires |values| == len && Base(|slot|, len) <= |data| < IMMUTABLE_MASK
    requires Base(rank[key], len) + len <= |data|
    ensures EntryAt(nodes[slot[key] := NodeOf(key, rank[key], len, flag)],
                    Overwrite(data, Base(rank[key], len), values), slot[k], len)
         == if k == key then Entry(values, flag) else EntryAt(nodes, data, slot[k], len)
  {
    assert Placed(nodes, slot, rank, len, k);
    RegionFits(rank[k], |slot|, len);
    FlagFacts(Base(rank[k], len));
    hide Reaches, Base, Overwrite, Region, Flagged, Offset;
    if k == key {
      SameRegion(data, Base(rank[key], len), values);
    } else {
      OtherRegion(data, rank[key], rank[k], len, values);
    }
  }
}
