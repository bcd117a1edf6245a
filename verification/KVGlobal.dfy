/** The sharded key-value table stands for one map. */
module KVGlobal {
  import opened Buffers
  import opened KVLayout
  import opened KVStore
  import opened Sharding
  import opened KVTable

  /** The worker's half: a store of its own that replies are written to. */
  class KVWorkerTable<V(0)> {
    const store: KVStore<V>

    constructor (initCapacity: nat, valueLen: nat, zero: V)
      requires Base(2 * initCapacity + 1, valueLen) < IMMUTABLE_MASK
      ensures store.Valid() && fresh(store) && fresh(store.node) && fresh(store.data) && store.valueLen == valueLen
    {
      store := new KVStore<V>(initCapacity, valueLen, zero);
    }

    method ProcessReplyGet(keys: seq<nat>, vals: seq<V>) returns (fatal: bool)
      requires store.Valid() && |vals| == Base(|keys|, store.valueLen)
      modifies store, store.node, store.data
      ensures store.Valid()
      ensures !fatal ==> store.Contents() == SetAll(old(store.Contents()), keys, Rows(vals, |keys|, store.valueLen))
      ensures fatal ==> exists i {:trigger keys[i]} ::
        && 0 <= i < |keys| && keys[i] !in old(store.Contents()) && store.PathFull(keys[i])
        && store.Contents() == SetAll(old(store.Contents()), keys[..i], Rows(vals, |keys|, store.valueLen)[..i])
    {
      hide Base, Region, Laid, EntryAt;
      ghost var before := store.Contents();
      var len := store.valueLen;
      ghost var rows := Rows(vals, |keys|, len);
      fatal := false;
      for i := 0 to |keys|
        invariant store.Valid() && !fatal
        invariant store.Contents() == SetAll(before, keys[..i], rows[..i])
      {
        assert keys[..i + 1][..i] == keys[..i] && rows[..i + 1][..i] == rows[..i];
        RowOf(vals, |keys|, len, i);
        SetAllKeys(before, keys[..i], rows[..i]);
        fatal := store.Set(keys[i], vals[Base(i, len)..Base(i, len) + len], false);
        if fatal {
          return;
        }
      }
      assert keys[..|keys|] == keys && rows[..|rows|] == rows;
    }

    /** Copy the keys' values out of the store; a missing key has no address to copy from. */
    method GetFromLocal(keys: seq<nat>) returns (missing: bool, vals: seq<V>)
      requires store.Valid()
      modifies store.node, store`nodeSize, store`dataSize, store`slot, store`rank
      ensures store.Valid() && store.Contents() == old(store.Contents())
      ensures missing <==> exists i :: 0 <= i < |keys| && keys[i] !in store.Contents()
      ensures !missing ==> |vals| == Base(|keys|, store.valueLen)
      ensures !missing ==> forall i {:trigger keys[i]} :: 0 <= i < |keys| ==>
        Rows(vals, |keys|, store.valueLen)[i] == store.Contents()[keys[i]].values
    {
      hide Base, Region, View, Laid;
      ghost var contents := store.Contents();
      var len := store.valueLen;
      missing := false;
      var fill: V := *;
      vals := seq(Base(|keys|, len), _ => fill);
      for i := 0 to |keys|
        invariant store.Valid() && store.Contents() == contents && |vals| == Base(|keys|, len) && !missing
        invariant forall j {:trigger keys[j]} :: 0 <= j < i ==>
          keys[j] in contents && Rows(vals, i, len)[j] == contents[keys[j]].values
      {
        var found, row := ReadLocal(keys[i]);
        if !found {
          missing := true;
          return;
        }
        RowWritten(vals, |keys|, len, i, row);
        vals := vals[..Base(i, len)] + row + vals[Base(i, len) + len..];
      }
    }

    method ReadLocal(key: nat) returns (found: bool, row: seq<V>)
      requires store.Valid()
      modifies store.node, store`nodeSize, store`dataSize, store`slot, store`rank
      ensures store.Valid() && store.Contents() == old(store.Contents())
      ensures found <==> key in store.Contents()
      ensures found ==> row == store.Contents()[key].values && |row| == store.valueLen
    {
      hide Base, Region, View, Laid;
      row := [];
      var fatal, nodeIndex, offset, immutable, newData := store.Get(key, true);
      found := !fatal && offset >= 0;
      if found {
        row := store.Read(key, offset);
      }
    }
  }

  lemma {:induction false} SetAllKeys<V>(m: map<nat, Entry<V>>, keys: seq<nat>, rows: seq<seq<V>>)
    requires |keys| == |rows|
    ensures m.Keys <= SetAll(m, keys, rows).Keys
    decreases |keys|
  {
    if keys == [] {
    } else {
      SetAllKeys(m, keys[..|keys| - 1], rows[..|keys| - 1]);
    }
  }

  /** Server s holds the global map's entries for its own keys. */
  ghost predicate Agrees<V>(server: map<nat, Entry<V>>, global: map<nat, Entry<V>>, n: nat, s: nat)
    requires n > 0
  {
    forall k: nat {:trigger k in server} {:trigger k in global} :: k % n == s ==>
      (k in server <==> k in global) && (k in server ==> server[k] == global[k])
  }

  /** Fetching its part of the keys keeps a server in agreement. */
  lemma {:induction false} FetchSharded<V>(server: map<nat, Entry<V>>, global: map<nat, Entry<V>>, keys: seq<nat>,
                                           initial: seq<V>, n: nat, s: nat)
    requires n > 0 && Agrees(server, global, n, s)
    ensures Agrees(Fetch(server, Select(keys, keys, n, s), initial), Fetch(global, keys, initial), n, s)
    decreases |keys|
  {
    if keys == [] {
    } else {
      var i := |keys| - 1;
      FetchSharded(server, global, keys[..i], initial, n, s);
      var part := Select(keys[..i], keys[..i], n, s);
      assert part + [] == part;
      FetchAppend(server, part, keys[i], initial);
    }
  }

  lemma {:induction false} FetchAppend<V>(m: map<nat, Entry<V>>, keys: seq<nat>, k: nat, initial: seq<V>)
    ensures var m' := Fetch(m, keys, initial);
            Fetch(m, keys + [k], initial) == if k in m' then m' else m'[k := Entry(initial, false)]
  {
    assert (keys + [k])[..|keys|] == keys;
  }

  /** Adding its part of the rows keeps a server in agreement. */
  lemma {:induction false} AddSharded<V>(server: map<nat, Entry<V>>, global: map<nat, Entry<V>>, keys: seq<nat>,
                                         rows: seq<seq<V>>, update: (seq<V>, seq<V>) -> seq<V>, n: nat, s: nat)
    requires n > 0 && |rows| == |keys| && Agrees(server, global, n, s)
    ensures |Select(keys, keys, n, s)| == |Select(keys, rows, n, s)|
    ensures Agrees(AddAll(server, Select(keys, keys, n, s), Select(keys, rows, n, s), update),
                   AddAll(global, keys, rows, update), n, s)
    decreases |keys|
  {
    SelectSize(keys, keys, rows, n, s);
    if keys == [] {
    } else {
      var i := |keys| - 1;
      AddSharded(server, global, keys[..i], rows[..i], update, n, s);
      var part, values := Select(keys[..i], keys[..i], n, s), Select(keys[..i], rows[..i], n, s);
      assert part + [] == part && values + [] == values;
      AddAppend(server, part, values, keys[i], rows[i], update);
    }
  }

  lemma {:induction false} AddAppend<V>(m: map<nat, Entry<V>>, keys: seq<nat>, rows: seq<seq<V>>, k: nat, row: seq<V>,
                                        update: (seq<V>, seq<V>) -> seq<V>)
    requires |keys| == |rows|
    ensures var m' := AddAll(m, keys, rows, update);
            AddAll(m, keys + [k], rows + [row], update) ==
              if k in m' && !m'[k].immutable then m'[k := Entry(update(m'[k].values, row), false)] else m'
  {
    assert (keys + [k])[..|keys|] == keys && (rows + [row])[..|rows|] == rows;
  }

  datatype TableOp<V> = GetOp(keys: seq<nat>) | AddOp(keys: seq<nat>, rows: seq<seq<V>>)

  ghost predicate Aligned<V>(ops: seq<TableOp<V>>) {
    forall i {:trigger ops[i]} :: 0 <= i < |ops| ==> ops[i].AddOp? ==> |ops[i].rows| == |ops[i].keys|
  }

  /** One map, all operations applied to it. */
  ghost function GlobalAfter<V>(m: map<nat, Entry<V>>, ops: seq<TableOp<V>>, initial: seq<V>,
                                update: (seq<V>, seq<V>) -> seq<V>): map<nat, Entry<V>>
    requires Aligned(ops)
    decreases |ops|
  {
    if ops == [] then m
    else
      var m' := GlobalAfter(m, ops[..|ops| - 1], initial, update);
      match ops[|ops| - 1]
      case GetOp(keys) => Fetch(m', keys, initial)
      case AddOp(keys, rows) => AddAll(m', keys, rows, update)
  }

  /** The last operation: an Add of a row to a known key is what a Get then reads of it, and a Get changes nothing
      read but makes its keys known. */
  lemma {:induction false} ReadAfterAdd<V>(m: map<nat, Entry<V>>, ops: seq<TableOp<V>>, initial: seq<V>,
                                           update: (seq<V>, seq<V>) -> seq<V>, k: nat, row: seq<V>)
    requires Aligned(ops) && k in GlobalAfter(m, ops, initial, update)
    requires !GlobalAfter(m, ops, initial, update)[k].immutable
    ensures Aligned(ops + [AddOp([k], [row])])
    ensures var before, after := GlobalAfter(m, ops, initial, update),
                                 GlobalAfter(m, ops + [AddOp([k], [row])], initial, update);
            after == before[k := Entry(update(before[k].values, row), false)]
            && Served(after, k, initial) == update(before[k].values, row)
  {
    assert (ops + [AddOp([k], [row])])[..|ops|] == ops;
    AddOne(GlobalAfter(m, ops, initial, update), k, row, update);
  }

  lemma {:induction false} KnownAfterGet<V>(m: map<nat, Entry<V>>, ops: seq<TableOp<V>>, initial: seq<V>,
                                            update: (seq<V>, seq<V>) -> seq<V>, keys: seq<nat>, k: nat)
    requires Aligned(ops) && k in keys
    ensures Aligned(ops + [GetOp(keys)])
    ensures var before, after := GlobalAfter(m, ops, initial, update),
                                 GlobalAfter(m, ops + [GetOp(keys)], initial, update);
            k in after && after[k] == if k in before then before[k] else Entry(initial, false)
  {
    assert (ops + [GetOp(keys)])[..|ops|] == ops;
    FetchServed(GlobalAfter(m, ops, initial, update), keys, initial, k);
  }

  /** Server s, its part of every operation applied to it. */
  ghost function ServerAfter<V>(m: map<nat, Entry<V>>, ops: seq<TableOp<V>>, initial: seq<V>,
                                update: (seq<V>, seq<V>) -> seq<V>, n: nat, s: nat): map<nat, Entry<V>>
    requires Aligned(ops) && n > 0
    decreases |ops|
  {
    if ops == [] then m
    else
      var m' := ServerAfter(m, ops[..|ops| - 1], initial, update, n, s);
      match ops[|ops| - 1]
      case GetOp(keys) => Fetch(m', Select(keys, keys, n, s), initial)
      case AddOp(keys, rows) =>
        SelectSize(keys, keys, rows, n, s);
        AddAll(m', Select(keys, keys, n, s), Select(keys, rows, n, s), update)
  }

  /** Over any run of Gets and Adds every server holds its share of the one map. */
  lemma {:induction false} ShardsStandForOneMap<V>(server: map<nat, Entry<V>>, global: map<nat, Entry<V>>,
                                                   ops: seq<TableOp<V>>, initial: seq<V>,
                                                   update: (seq<V>, seq<V>) -> seq<V>, n: nat, s: nat)
    requires n > 0 && Aligned(ops) && Agrees(server, global, n, s)
    ensures Agrees(ServerAfter(server, ops, initial, update, n, s), GlobalAfter(global, ops, initial, update), n, s)
    decreases |ops|
  {
    if ops == [] {
    } else {
      var before := ops[..|ops| - 1];
      ShardsStandForOneMap(server, global, before, initial, update, n, s);
      var sv, g := ServerAfter(server, before, initial, update, n, s), GlobalAfter(global, before, initial, update);
      match ops[|ops| - 1] {
        case GetOp(keys) => FetchSharded(sv, g, keys, initial, n, s);
        case AddOp(keys, rows) => AddSharded(sv, g, keys, rows, update, n, s);
      }
    }
  }

  /** A map's entries for the keys of server s. */
  ghost function OwnEntries<V>(m: map<nat, Entry<V>>, n: nat, s: nat): map<nat, Entry<V>>
    requires n > 0
  {
    map k | k in m && k % n == s :: m[k]
  }

  /** The one map when every server applies the operations in an order of its own: a key's entry is what the order of
      the key's server makes of it. */
  ghost function MergedAfter<V>(m: map<nat, Entry<V>>, orders: seq<seq<TableOp<V>>>, initial: seq<V>,
                                update: (seq<V>, seq<V>) -> seq<V>, count: nat): map<nat, Entry<V>>
    requires |orders| > 0 && count <= |orders|
    requires forall s {:trigger orders[s]} :: 0 <= s < |orders| ==> Aligned(orders[s])
  {
    if count == 0 then map[]
    else
      var own := OwnEntries(GlobalAfter(m, orders[count - 1], initial, update), |orders|, count - 1);
      MergedAfter(m, orders, initial, update, count - 1) + own
  }

  lemma {:induction false} MergedEntry<V>(m: map<nat, Entry<V>>, orders: seq<seq<TableOp<V>>>, initial: seq<V>,
                                          update: (seq<V>, seq<V>) -> seq<V>, count: nat, k: nat)
    requires |orders| > 0 && count <= |orders|
    requires forall s {:trigger orders[s]} :: 0 <= s < |orders| ==> Aligned(orders[s])
    ensures var merged, s := MergedAfter(m, orders, initial, update, count), k % |orders|;
            if s >= count then k !in merged
            else var g := GlobalAfter(m, orders[s], initial, update);
                 (k in merged <==> k in g) && (k in g ==> merged[k] == g[k])
  {
    hide GlobalAfter;
    if count == 0 {
    } else {
      MergedEntry(m, orders, initial, update, count - 1, k);
    }
  }

  /** The operations of different clients may reach the servers in different orders: after any orders at all every
      server holds its share of one map. */
  lemma {:induction false} OrdersMayDiffer<V>(servers: seq<map<nat, Entry<V>>>, global: map<nat, Entry<V>>,
                                              orders: seq<seq<TableOp<V>>>, initial: seq<V>,
                                              update: (seq<V>, seq<V>) -> seq<V>, s: nat)
    requires s < |servers| == |orders| && Agrees(servers[s], global, |servers|, s)
    requires forall i {:trigger orders[i]} :: 0 <= i < |orders| ==> Aligned(orders[i])
    ensures Agrees(ServerAfter(servers[s], orders[s], initial, update, |servers|, s),
                   MergedAfter(global, orders, initial, update, |servers|), |servers|, s)
  {
    hide GlobalAfter, ServerAfter, MergedAfter;
    var n := |servers|;
    var own := ServerAfter(servers[s], orders[s], initial, update, n, s);
    var g := GlobalAfter(global, orders[s], initial, update);
    var merged := MergedAfter(global, orders, initial, update, n);
    ShardsStandForOneMap(servers[s], global, orders[s], initial, update, n, s);
    forall k: nat | k % n == s
      ensures (k in own <==> k in merged) && (k in own ==> own[k] == merged[k])
    {
      MergedEntry(global, orders, initial, update, n, k);
      assert k in own <==> k in g;
    }
  }

  /** The rows a server answers with. */
  ghost function Answers<V>(m: map<nat, Entry<V>>, keys: seq<nat>, initial: seq<V>): (r: seq<seq<V>>)
    ensures |r| == |keys| && forall i {:trigger r[i]} :: 0 <= i < |r| ==> r[i] == Served(m, keys[i], initial)
  {
    seq(|keys|, i requires 0 <= i < |keys| => Served(m, keys[i], initial))
  }

  /** The worker's store after the replies of the servers in the order given. */
  ghost function Gather<V>(local: map<nat, Entry<V>>, servers: seq<map<nat, Entry<V>>>, keys: seq<nat>,
                           initial: seq<V>, order: seq<nat>): map<nat, Entry<V>>
    requires |servers| > 0 && forall i {:trigger order[i]} :: 0 <= i < |order| ==> order[i] < |servers|
    decreases |order|
  {
    if order == [] then local
    else
      var s := order[|order| - 1];
      var part := Select(keys, keys, |servers|, s);
      SetAll(Gather(local, servers, keys, initial, order[..|order| - 1]), part, Answers(servers[s], part, initial))
  }

  /** Setting answers writes exactly the keys answered. */
  lemma {:induction false} SetAnswers<V>(m: map<nat, Entry<V>>, server: map<nat, Entry<V>>, keys: seq<nat>,
                                         initial: seq<V>, k: nat, rows: seq<seq<V>>)
    requires |rows| == |keys|
    requires forall i {:trigger rows[i]} :: 0 <= i < |rows| ==> rows[i] == Served(server, keys[i], initial)
    ensures var r := SetAll(m, keys, rows);
            if k in keys then k in r && r[k] == Entry(Served(server, k, initial), false)
            else (k in r <==> k in m) && (k in m ==> r[k] == m[k])
    decreases |keys|
  {
    if keys == [] {
    } else {
      var i := |keys| - 1;
      assert keys == keys[..i] + [keys[i]];
      SetAnswers(m, server, keys[..i], initial, k, rows[..i]);
    }
  }

  lemma {:induction false} Gathered<V>(local: map<nat, Entry<V>>, servers: seq<map<nat, Entry<V>>>,
                                       global: map<nat, Entry<V>>, keys: seq<nat>, initial: seq<V>, order: seq<nat>,
                                       i: nat)
    requires |servers| > 0 && forall j {:trigger order[j]} :: 0 <= j < |order| ==> order[j] < |servers|
    requires forall s {:trigger servers[s]} :: 0 <= s < |servers| ==> Agrees(servers[s], global, |servers|, s)
    requires i < |keys| && keys[i] % |servers| in order
    ensures var r := Gather(local, servers, keys, initial, order);
            keys[i] in r && r[keys[i]].values == Served(global, keys[i], initial)
    decreases |order|
  {
    hide Select, SetAll, Answers;
    var n, last := |servers|, |order| - 1;
    var s, k := order[last], keys[i];
    var part := Select(keys, keys, n, s);
    var before := Gather(local, servers, keys, initial, order[..last]);
    SetAnswers(before, servers[s], part, initial, k, Answers(servers[s], part, initial));
    if k % n == s {
      KeyIsSelected(keys, n, i);
      assert Agrees(servers[s], global, n, s);
    } else {
      assert k % n in order[..last];
      Gathered(local, servers, global, keys, initial, order[..last], i);
      if k in part {
        var j :| 0 <= j < |part| && part[j] == k;
        SelectedKey(keys, n, s, j);
      }
    }
  }

  /** A worker's Get. When every server asked has replied, in whatever order, reading the keys locally gives the
      values of the one map, duplicates included. */
  lemma {:induction false} GetReadsOneMap<V>(local: map<nat, Entry<V>>, servers: seq<map<nat, Entry<V>>>,
                                             global: map<nat, Entry<V>>, keys: seq<nat>, initial: seq<V>,
                                             order: seq<nat>)
    requires |servers| > 0 && forall j {:trigger order[j]} :: 0 <= j < |order| ==> order[j] < |servers|
    requires forall s {:trigger servers[s]} :: 0 <= s < |servers| ==> Agrees(servers[s], global, |servers|, s)
    requires forall s: nat {:trigger s in order} ::
               s < |servers| && Select(keys, keys, |servers|, s) != [] ==> s in order
    ensures var r := Gather(local, servers, keys, initial, order);
            forall i {:trigger keys[i]} :: 0 <= i < |keys| ==>
              keys[i] in r && r[keys[i]].values == Served(global, keys[i], initial)
  {
    var r := Gather(local, servers, keys, initial, order);
    forall i | 0 <= i < |keys| ensures keys[i] in r && r[keys[i]].values == Served(global, keys[i], initial) {
      KeyIsSelected(keys, |servers|, i);
      assert keys[i] % |servers| in order;
      Gathered(local, servers, global, keys, initial, order, i);
    }
  }

  /** The operations each server has handled when it answers a Get. */
  ghost function Handled<V>(orders: seq<seq<TableOp<V>>>, at: seq<nat>): (r: seq<seq<TableOp<V>>>)
    requires |at| == |orders| && forall s {:trigger orders[s]} :: 0 <= s < |orders| ==> Aligned(orders[s])
    requires forall s {:trigger at[s]} :: 0 <= s < |at| ==> at[s] <= |orders[s]|
    ensures |r| == |orders| && forall s {:trigger r[s]} :: 0 <= s < |r| ==> Aligned(r[s]) && r[s] <= orders[s]
  {
    assert forall s {:trigger orders[s]} {:trigger at[s]} :: 0 <= s < |orders| ==> Aligned(orders[s][..at[s]]) by {
      forall s | 0 <= s < |orders| ensures Aligned(orders[s][..at[s]]) {
        assert Aligned(orders[s]);
      }
    }
    seq(|orders|, s requires 0 <= s < |orders| => orders[s][..at[s]])
  }

  /** The servers, each after operations of its own. */
  ghost function ServersAfter<V>(servers: seq<map<nat, Entry<V>>>, orders: seq<seq<TableOp<V>>>, initial: seq<V>,
                                 update: (seq<V>, seq<V>) -> seq<V>): (r: seq<map<nat, Entry<V>>>)
    requires |servers| == |orders|
    requires forall s {:trigger orders[s]} :: 0 <= s < |orders| ==> Aligned(orders[s])
    ensures |r| == |servers|
    ensures forall s {:trigger r[s]} :: 0 <= s < |r| ==>
              r[s] == ServerAfter(servers[s], orders[s], initial, update, |servers|, s)
  {
    seq(|servers|, s requires 0 <= s < |servers| =>
      ServerAfter(servers[s], orders[s], initial, update, |servers|, s))
  }

  /** A Get among the operations of others: each server answers at a point of its own order. The value read of a key is
      the one that the operations its server has handled till then leave in the one map. */
  lemma {:induction false} GetReadsPrefixes<V>(local: map<nat, Entry<V>>, servers: seq<map<nat, Entry<V>>>,
                                               global: map<nat, Entry<V>>, orders: seq<seq<TableOp<V>>>,
                                               at: seq<nat>, keys: seq<nat>, initial: seq<V>,
                                               update: (seq<V>, seq<V>) -> seq<V>, order: seq<nat>)
    requires |servers| > 0 && forall j {:trigger order[j]} :: 0 <= j < |order| ==> order[j] < |servers|
    requires |at| == |orders| == |servers| && forall s {:trigger orders[s]} :: 0 <= s < |orders| ==> Aligned(orders[s])
    requires forall s {:trigger at[s]} :: 0 <= s < |at| ==> at[s] <= |orders[s]|
    requires forall s {:trigger servers[s]} :: 0 <= s < |servers| ==> Agrees(servers[s], global, |servers|, s)
    requires forall s: nat {:trigger s in order} ::
               s < |servers| && Select(keys, keys, |servers|, s) != [] ==> s in order
    ensures var handled := Handled(orders, at);
            var r := Gather(local, ServersAfter(servers, handled, initial, update), keys, initial, order);
            forall i {:trigger keys[i]} :: 0 <= i < |keys| ==>
              keys[i] in r && r[keys[i]].values ==
                Served(GlobalAfter(global, handled[keys[i] % |servers|], initial, update), keys[i], initial)
  {
    hide ServerAfter, GlobalAfter, MergedAfter, Gather, Select, Agrees, Served;
    var n, handled := |servers|, Handled(orders, at);
    var now, merged := ServersAfter(servers, handled, initial, update),
                       MergedAfter(global, handled, initial, update, n);
    forall s | 0 <= s < n
      ensures Agrees(now[s], merged, n, s)
    {
      OrdersMayDiffer(servers, global, handled, initial, update, s);
    }
    GetReadsOneMap(local, now, merged, keys, initial, order);
    forall i | 0 <= i < |keys|
      ensures Served(merged, keys[i], initial) ==
              Served(GlobalAfter(global, handled[keys[i] % n], initial, update), keys[i], initial)
    {
      MergedEntry(global, handled, initial, update, n, keys[i]);
      SameServed(merged, GlobalAfter(global, handled[keys[i] % n], initial, update), keys[i], initial);
    }
  }

  lemma {:induction false} SameServed<V>(a: map<nat, Entry<V>>, b: map<nat, Entry<V>>, k: nat, initial: seq<V>)
    requires (k in a <==> k in b) && (k in b ==> a[k] == b[k])
    ensures Served(a, k, initial) == Served(b, k, initial)
  {
  }

  /** Key 0 reads zeros on its server whatever was added to it. */
  lemma {:induction false} KeyZeroStays<V>(m: map<nat, Entry<V>>, ops: seq<TableOp<V>>, initial: seq<V>,
                                           update: (seq<V>, seq<V>) -> seq<V>, zeros: seq<V>)
    requires Aligned(ops) && 0 in m && m[0] == Entry(zeros, true)
    ensures 0 in GlobalAfter(m, ops, initial, update) && GlobalAfter(m, ops, initial, update)[0] == Entry(zeros, true)
    decreases |ops|
  {
    if ops == [] {
    } else {
      var before := ops[..|ops| - 1];
      KeyZeroStays(m, before, initial, update, zeros);
      var g := GlobalAfter(m, before, initial, update);
      match ops[|ops| - 1] {
        case GetOp(keys) => FetchServed(g, keys, initial, 0);
        case AddOp(keys, rows) => AddElsewhere(g, keys, rows, update, 0);
      }
    }
  }
}
