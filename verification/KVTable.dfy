/** The sharded key-value table: the worker's half cuts a request up by server and gathers the replies, the server's
    half answers Gets and applies Adds. */
module KVTable {
  import opened Buffers
  import opened KVLayout
  import opened KVStore
  import opened Sharding

  /** The blobs of one server's request. */
  datatype Part<V> = Part(keys: seq<nat>, vals: seq<V>)

  ghost predicate PartIs<V>(part: Part<V>, keys: seq<nat>, vals: seq<V>, withVals: bool, n: nat, len: nat, dst: nat)
    requires n > 0
  {
    && part.keys == Select(keys, keys, n, dst) != []
    && (if withVals then
          |part.vals| == Base(|part.keys|, len)
          && Rows(part.vals, |part.keys|, len) == Select(keys, Rows(vals, |keys|, len), n, dst)
        else part.vals == [])
  }

  /** The first i keys, and with them their rows, have been copied to their places in the part. */
  ghost predicate Filled<V>(part: Part<V>, keys: seq<nat>, vals: seq<V>, withVals: bool, n: nat, len: nat, dst: nat,
                            i: nat)
    requires n > 0 && i <= |keys|
  {
    var total, c := |Select(keys, keys, n, dst)|, |Select(keys[..i], keys[..i], n, dst)|;
    && |part.keys| == total && c <= total && part.keys[..c] == Select(keys[..i], keys[..i], n, dst)
    && (if withVals then
          |part.vals| == Base(total, len)
          && Rows(part.vals, c, len) == Select(keys[..i], Rows(vals, |keys|, len)[..i], n, dst)
        else part.vals == [])
  }

  ghost function CountTo(keys: seq<nat>, n: nat, dst: nat, i: nat): nat
    requires n > 0 && i <= |keys|
  {
    |Select(keys[..i], keys[..i], n, dst)|
  }

  lemma {:induction false} CountNext(keys: seq<nat>, n: nat, dst: nat, i: nat)
    requires n > 0 && i < |keys|
    ensures CountTo(keys, n, dst, i + 1) == CountTo(keys, n, dst, i) + if keys[i] % n == dst then 1 else 0
    ensures CountTo(keys, n, dst, i + 1) <= |Select(keys, keys, n, dst)|
  {
    SelectNext(keys, keys, n, dst, i);
    SelectGrows(keys, keys, n, dst, i + 1);
  }

  ghost predicate Counted(counts: map<nat, nat>, keys: seq<nat>, n: nat, i: nat)
    requires n > 0 && i <= |keys|
  {
    forall dst: nat {:trigger counts[dst]} {:trigger CountTo(keys, n, dst, i)} ::
      if dst in counts then counts[dst] == CountTo(keys, n, dst, i) > 0 else CountTo(keys, n, dst, i) == 0
  }

  lemma {:induction false} CountedNext(counts: map<nat, nat>, keys: seq<nat>, n: nat, i: nat)
    requires n > 0 && i < |keys| && Counted(counts, keys, n, i)
    ensures var dst := keys[i] % n;
            Counted(counts[dst := (if dst in counts then counts[dst] else 0) + 1], keys, n, i + 1)
  {
    hide CountTo;
    forall dst: nat
      ensures CountTo(keys, n, dst, i + 1) == CountTo(keys, n, dst, i) + if keys[i] % n == dst then 1 else 0
    {
      CountNext(keys, n, dst, i);
    }
  }

  /** Copying key i, and its row, fills the part of its server one further, and every other part as far as before. */
  lemma {:induction false} FillNext<V>(part: Part<V>, keys: seq<nat>, vals: seq<V>, withVals: bool, n: nat, len: nat,
                                       dst: nat, i: nat)
    requires n > 0 && i < |keys| && Filled(part, keys, vals, withVals, n, len, dst, i)
    requires withVals ==> |vals| == Base(|keys|, len)
    ensures keys[i] % n != dst ==> Filled(part, keys, vals, withVals, n, len, dst, i + 1)
    ensures keys[i] % n == dst ==>
      var c := CountTo(keys, n, dst, i); var row := Region(vals, Base(i, len), len);
      && c < |part.keys| && (withVals ==> |row| == len && Base(c, len) + len <= |part.vals|)
      && Filled(Part(part.keys[c := keys[i]], if withVals then Overwrite(part.vals, Base(c, len), row) else part.vals),
                keys, vals, withVals, n, len, dst, i + 1)
  {
    var rows := Rows(vals, |keys|, len);
    CountNext(keys, n, dst, i);
    SelectNext(keys, keys, n, dst, i);
    SelectNext(keys, rows, n, dst, i);
    if withVals {
      RowOf(vals, |keys|, len, i);
      if keys[i] % n == dst {
        var c := CountTo(keys, n, dst, i);
        RowWritten(part.vals, |part.keys|, len, c, Region(vals, Base(i, len), len));
      }
    }
  }

  /** Cut a request up: every server gets the keys that fall to it, in order, each with its own row. */
  method Partition<V(0)>(keys: seq<nat>, vals: seq<V>, withVals: bool, numServers: nat, valueLen: nat)
    returns (num: nat, out: map<nat, Part<V>>)
    requires numServers > 0 && (withVals ==> |vals| == Base(|keys|, valueLen))
    ensures num == |out|
    ensures forall dst: nat {:trigger dst in out} :: dst in out <==> Select(keys, keys, numServers, dst) != []
    ensures forall dst: nat {:trigger out[dst]} :: dst in out ==>
      PartIs(out[dst], keys, vals, withVals, numServers, valueLen, dst)
  {
    hide Select, Filled, Base, Region;
    var counts: map<nat, nat> := map[];
    NoneCounted(keys, numServers);
    for i := 0 to |keys|
      invariant Counted(counts, keys, numServers, i)
    {
      var dst := keys[i] % numServers;
      CountedNext(counts, keys, numServers, i);
      counts := counts[dst := (if dst in counts then counts[dst] else 0) + 1];
    }
    ghost var totals := counts;
    assert keys[..|keys|] == keys;
    out := map[];
    var fill: V := *;
    var rest := counts.Keys;
    while rest != {}
      invariant rest <= counts.Keys && counts == totals
      invariant forall dst: nat {:trigger dst in out} {:trigger dst in rest} ::
          dst in out <==> dst in counts && dst !in rest
      invariant forall dst: nat {:trigger out[dst]} :: dst in out ==>
        Filled(out[dst], keys, vals, withVals, numServers, valueLen, dst, 0)
    {
      var dst :| dst in rest;
      var part := Part(seq(counts[dst], _ => 0), if withVals then seq(Base(counts[dst], valueLen), _ => fill) else []);
      FillNothing(part, keys, vals, withVals, numServers, valueLen, dst);
      out := out[dst := part];
      rest := rest - {dst};
    }
    counts := map[];
    for i := 0 to |keys|
      invariant Counted(counts, keys, numServers, i)
      invariant forall dst: nat {:trigger dst in out} :: dst in out <==> dst in totals
      invariant forall dst: nat {:trigger out[dst]} :: dst in out ==>
        Filled(out[dst], keys, vals, withVals, numServers, valueLen, dst, i)
    {
      var dst := keys[i] % numServers;
      CountNext(keys, numServers, dst, i);
      assert CountTo(keys, numServers, dst, |keys|) > 0;
      var at := if dst in counts then counts[dst] else 0;
      forall d: nat | d in out
        ensures Filled(out[d], keys, vals, withVals, numServers, valueLen, d, i)
      {
      }
      forall d: nat | d in out && d != dst
        ensures Filled(out[d], keys, vals, withVals, numServers, valueLen, d, i + 1)
      {
        FillNext(out[d], keys, vals, withVals, numServers, valueLen, d, i);
      }
      FillNext(out[dst], keys, vals, withVals, numServers, valueLen, dst, i);
      assert at == CountTo(keys, numServers, dst, i);
      var part := out[dst].(keys := out[dst].keys[at := keys[i]]);
      if withVals {
        part := part.(vals := CopyRow(out[dst].vals, at, vals, i, |keys|, valueLen));
      }
      CountedNext(counts, keys, numServers, i);
      out := out[dst := part];
      counts := counts[dst := at + 1];
    }
    forall dst: nat | dst in out ensures PartIs(out[dst], keys, vals, withVals, numServers, valueLen, dst) {
      FillAll(out[dst], keys, vals, withVals, numServers, valueLen, dst);
    }
    forall dst: nat ensures dst in out <==> Select(keys, keys, numServers, dst) != [] {
      assert dst in out <==> dst in totals;
      assert CountTo(keys, numServers, dst, |keys|) == |Select(keys, keys, numServers, dst)|;
    }
    num := |out|;
  }

  /** memcpy of one row from one blob to another. */
  function CopyRow<V>(to: seq<V>, at: nat, from: seq<V>, i: nat, count: nat, len: nat): (r: seq<V>)
    requires Base(at, len) + len <= |to| && i < count && |from| == Base(count, len)
    ensures |Region(from, Base(i, len), len)| == len
    ensures r == Overwrite(to, Base(at, len), Region(from, Base(i, len), len))
  {
    RegionFits(i, count, len);
    to[..Base(at, len)] + from[Base(i, len)..Base(i, len) + len] + to[Base(at, len) + len..]
  }

  lemma {:induction false} NoneCounted(keys: seq<nat>, n: nat)
    requires n > 0
    ensures Counted(map[], keys, n, 0)
  {
  }

  lemma {:induction false} FillNothing<V>(part: Part<V>, keys: seq<nat>, vals: seq<V>, withVals: bool, n: nat,
                                          len: nat, dst: nat)
    requires n > 0 && |part.keys| == CountTo(keys, n, dst, |keys|)
    requires if withVals then |part.vals| == Base(|part.keys|, len) else part.vals == []
    ensures Filled(part, keys, vals, withVals, n, len, dst, 0)
  {
    assert keys[..|keys|] == keys && keys[..0] == [] && part.keys[..0] == [];
    assert Rows(vals, |keys|, len)[..0] == [];
  }

  lemma {:induction false} FillAll<V>(part: Part<V>, keys: seq<nat>, vals: seq<V>, withVals: bool, n: nat, len: nat,
                                      dst: nat)
    requires n > 0 && Filled(part, keys, vals, withVals, n, len, dst, |keys|) && CountTo(keys, n, dst, |keys|) > 0
    ensures PartIs(part, keys, vals, withVals, n, len, dst)
  {
    assert keys[..|keys|] == keys && Rows(vals, |keys|, len)[..|keys|] == Rows(vals, |keys|, len);
    assert part.keys[..|part.keys|] == part.keys;
  }

  /** The values the server answers for a key: a key never seen before holds the initial ones. */
  ghost function Served<V>(m: map<nat, Entry<V>>, key: nat, initial: seq<V>): seq<V> {
    if key in m then m[key].values else initial
  }

  /** The contents after a Get of the keys. */
  ghost function Fetch<V>(m: map<nat, Entry<V>>, keys: seq<nat>, initial: seq<V>): map<nat, Entry<V>> {
    if keys == [] then m
    else
      var k := keys[|keys| - 1];
      var m' := Fetch(m, keys[..|keys| - 1], initial);
      if k in m' then m' else m'[k := Entry(initial, false)]
  }

  /** A Get changes no answer, and knows its keys afterwards. */
  lemma {:induction false} FetchServed<V>(m: map<nat, Entry<V>>, keys: seq<nat>, initial: seq<V>, key: nat)
    ensures Served(Fetch(m, keys, initial), key, initial) == Served(m, key, initial)
    ensures key in Fetch(m, keys, initial) <==> key in m || key in keys
    ensures key in m ==> Fetch(m, keys, initial)[key] == m[key]
    ensures key in keys && key !in m ==> Fetch(m, keys, initial)[key] == Entry(initial, false)
    decreases |keys|
  {
    if keys == [] {
    } else {
      var k := |keys| - 1;
      FetchServed(m, keys[..k], initial, key);
      assert keys == keys[..k] + [keys[k]];
    }
  }

  /** The contents after Adds of the rows to their keys: an immutable entry is left alone. */
  ghost function AddAll<V>(m: map<nat, Entry<V>>, keys: seq<nat>, rows: seq<seq<V>>,
                           update: (seq<V>, seq<V>) -> seq<V>): (r: map<nat, Entry<V>>)
    requires |keys| == |rows|
    ensures r.Keys == m.Keys
    decreases |keys|
  {
    if keys == [] then m
    else
      var i := |keys| - 1;
      var m' := AddAll(m, keys[..i], rows[..i], update);
      if keys[i] in m' && !m'[keys[i]].immutable then
        m'[keys[i] := Entry(update(m'[keys[i]].values, rows[i]), false)]
      else m'
  }

  /** Adding to other keys leaves an entry alone, as does adding to an immutable one. */
  lemma {:induction false} AddElsewhere<V>(m: map<nat, Entry<V>>, keys: seq<nat>, rows: seq<seq<V>>,
                                           update: (seq<V>, seq<V>) -> seq<V>, k: nat)
    requires |keys| == |rows| && k in m && (k !in keys || m[k].immutable)
    ensures AddAll(m, keys, rows, update)[k] == m[k]
    decreases |keys|
  {
    if keys == [] {
    } else {
      AddElsewhere(m, keys[..|keys| - 1], rows[..|rows| - 1], update, k);
    }
  }

  /** One row is added to its key by the updater. */
  lemma {:induction false} AddOne<V>(m: map<nat, Entry<V>>, k: nat, row: seq<V>, update: (seq<V>, seq<V>) -> seq<V>)
    requires k in m && !m[k].immutable
    ensures AddAll(m, [k], [row], update) == m[k := Entry(update(m[k].values, row), false)]
  {
    assert [k][..0] == [] && [row][..0] == [];
  }

  /** Rows are added one after the other, also those of one key. */
  lemma {:induction false} AddInTurn<V>(m: map<nat, Entry<V>>, a: seq<nat>, b: seq<nat>, rowsA: seq<seq<V>>,
                                        rowsB: seq<seq<V>>, update: (seq<V>, seq<V>) -> seq<V>)
    requires |a| == |rowsA| && |b| == |rowsB|
    ensures AddAll(m, a + b, rowsA + rowsB, update) == AddAll(AddAll(m, a, rowsA, update), b, rowsB, update)
    decreases |b|
  {
    if b == [] {
      assert a + b == a && rowsA + rowsB == rowsA;
    } else {
      var i := |b| - 1;
      AddInTurn(m, a, b[..i], rowsA, rowsB[..i], update);
      assert (a + b)[..|a| + i] == a + b[..i] && (rowsA + rowsB)[..|a| + i] == rowsA + rowsB[..i];
    }
  }

  lemma {:induction false} AddNext<V>(m: map<nat, Entry<V>>, keys: seq<nat>, rows: seq<seq<V>>,
                                      update: (seq<V>, seq<V>) -> seq<V>, i: nat)
    requires |keys| == |rows| && i < |keys|
    ensures var m' := AddAll(m, keys[..i], rows[..i], update);
            AddAll(m, keys[..i + 1], rows[..i + 1], update) ==
              if keys[i] in m' && !m'[keys[i]].immutable then
                m'[keys[i] := Entry(update(m'[keys[i]].values, rows[i]), false)]
              else m'
  {
    assert keys[..i + 1][..i] == keys[..i] && rows[..i + 1][..i] == rows[..i];
  }

  /** The contents after the rows were set. */
  ghost function SetAll<V>(m: map<nat, Entry<V>>, keys: seq<nat>, rows: seq<seq<V>>): (r: map<nat, Entry<V>>)
    requires |keys| == |rows|
    decreases |keys|
  {
    if keys == [] then m
    else
      var i := |keys| - 1;
      SetAll(m, keys[..i], rows[..i])[keys[i] := Entry(rows[i], false)]
  }

  /** The last row of a key is the one that stays; other entries are left alone. */
  lemma {:induction false} SetLast<V>(m: map<nat, Entry<V>>, keys: seq<nat>, rows: seq<seq<V>>, i: nat)
    requires |keys| == |rows| && i < |keys| && keys[i] !in keys[i + 1..]
    ensures keys[i] in SetAll(m, keys, rows) && SetAll(m, keys, rows)[keys[i]] == Entry(rows[i], false)
    decreases |keys|
  {
    var last := |keys| - 1;
    if i < last {
      assert keys[last] in keys[i + 1..];
      assert keys[..last][i + 1..] <= keys[i + 1..];
      SetLast(m, keys[..last], rows[..last], i);
    }
  }

  lemma {:induction false} SetElsewhere<V>(m: map<nat, Entry<V>>, keys: seq<nat>, rows: seq<seq<V>>, k: nat)
    requires |keys| == |rows| && k !in keys
    ensures k in SetAll(m, keys, rows) <==> k in m
    ensures k in m ==> SetAll(m, keys, rows)[k] == m[k]
    decreases |keys|
  {
    if keys == [] {
    } else {
      SetElsewhere(m, keys[..|keys| - 1], rows[..|rows| - 1], k);
    }
  }

  ghost predicate LengthKeeping<V(!new)>(update: (seq<V>, seq<V>) -> seq<V>) {
    forall a: seq<V>, b: seq<V> {:trigger update(a, b)} :: |update(a, b)| == |a|
  }

  /** The server's half, with a stateless updater and constant initial values. */
  class KVServerTable<V(0, !new)> {
    const store: KVStore<V>
    const update: (seq<V>, seq<V>) -> seq<V>
    const initial: seq<V>

    constructor (initCapacity: nat, initial: seq<V>, zero: V, update: (seq<V>, seq<V>) -> seq<V>)
      requires LengthKeeping(update) && Base(2 * initCapacity + 1, |initial|) < IMMUTABLE_MASK
      ensures Valid() && fresh(store) && fresh(store.node) && fresh(store.data)
      ensures this.update == update && this.initial == initial
      ensures store.Contents() == map[0 := Entry(seq(|initial|, _ => zero), true)]
    {
      store := new KVStore<V>(initCapacity, |initial|, zero);
      this.initial, this.update := initial, update;
    }

    ghost predicate Valid()
      reads store, store.node
    {
      store.Valid() && |initial| == store.valueLen && LengthKeeping(update)
    }

    /** The values of one key; a new key is given the initial ones first. */
    method GetRow(key: nat) returns (fatal: bool, row: seq<V>)
      requires Valid()
      modifies store, store.node, store.data
      ensures Valid()
      ensures fatal ==> key !in old(store.Contents()) && store.Contents() == old(store.Contents())
      ensures !fatal ==>
        && |row| == store.valueLen && row == Served(old(store.Contents()), key, initial)
        && store.Contents() == if key in old(store.Contents()) then old(store.Contents())
                               else old(store.Contents())[key := Entry(initial, false)]
    {
      hide Laid, Base, Region, View;
      var nodeIndex, offset, immutable, newData;
      row := [];
      fatal, nodeIndex, offset, immutable, newData := store.Get(key, false);
      if fatal {
        return;
      }
      if newData {
        store.Write(key, offset, initial);
      }
      row := store.Read(key, offset);
    }

    /** Add one row to its key, unless the key is immutable. */
    method AddRow(key: nat, row: seq<V>) returns (fatal: bool)
      requires Valid() && |row| == store.valueLen
      modifies store, store.node, store.data
      ensures Valid()
      ensures key in old(store.Contents()) ==>
        var e := old(store.Contents())[key];
        !fatal && store.Contents() == if e.immutable then old(store.Contents())
                                      else old(store.Contents())[key := Entry(update(e.values, row), false)]
    {
      hide Laid, Base, Region, View;
      var nodeIndex, offset, immutable, newData;
      fatal, nodeIndex, offset, immutable, newData := store.Get(key, false);
      if fatal {
        return;
      }
      if !immutable {
        var values := store.Read(key, offset);
        store.Write(key, offset, update(values, row));
      }
    }

    /** Apply an Add. When every key has been fetched before, nothing is fatal and each row goes to its key. */
    method ProcessAdd(keys: seq<nat>, vals: seq<V>) returns (fatal: bool)
      requires Valid() && |vals| == Base(|keys|, store.valueLen)
      modifies store, store.node, store.data
      ensures Valid()
      ensures (forall i {:trigger keys[i]} :: 0 <= i < |keys| ==> keys[i] in old(store.Contents())) ==>
        !fatal && store.Contents() == AddAll(old(store.Contents()), keys, Rows(vals, |keys|, store.valueLen), update)
    {
      hide Valid, Base, Region;
      ghost var before := store.Contents();
      var len := store.valueLen;
      ghost var rows := Rows(vals, |keys|, len);
      fatal := false;
      for i := 0 to |keys|
        invariant Valid() && len == store.valueLen && !fatal
        invariant (forall j {:trigger keys[j]} :: 0 <= j < |keys| ==> keys[j] in before) ==>
          store.Contents() == AddAll(before, keys[..i], rows[..i], update)
      {
        AddNext(before, keys, rows, update, i);
        RowOf(vals, |keys|, len, i);
        fatal := AddRow(keys[i], vals[Base(i, len)..Base(i, len) + len]);
        if fatal {
          return;
        }
      }
      assert keys[..|keys|] == keys && rows[..|rows|] == rows;
    }

    /** Answer a Get. A key seen for the first time is given the initial values. */
    method ProcessGet(keys: seq<nat>) returns (fatal: bool, vals: seq<V>)
      requires Valid()
      modifies store, store.node, store.data
      ensures Valid()
      ensures fatal ==> exists i :: 0 <= i < |keys| && keys[i] !in old(store.Contents())
      ensures !fatal ==>
        && store.Contents() == Fetch(old(store.Contents()), keys, initial)
        && |vals| == Base(|keys|, store.valueLen)
        && forall i {:trigger keys[i]} :: 0 <= i < |keys| ==>
             Rows(vals, |keys|, store.valueLen)[i] ==
               if keys[i] in old(store.Contents()) then old(store.Contents())[keys[i]].values else initial
    {
      hide Valid, Base, Region, Fetch, Rows;
      ghost var before := store.Contents();
      var len := store.valueLen;
      fatal := false;
      var fill: V := *;
      vals := seq(Base(|keys|, len), _ => fill);
      FetchNone(before, keys, initial);
      for i := 0 to |keys|
        invariant Valid() && len == store.valueLen && |vals| == Base(|keys|, len) && !fatal
        invariant store.Contents() == Fetch(before, keys[..i], initial)
        invariant forall j {:trigger keys[j]} :: 0 <= j < i ==>
            Rows(vals, i, len)[j] == Served(before, keys[j], initial)
      {
        FetchNext(before, keys, initial, i);
        FetchServed(before, keys[..i], initial, keys[i]);
        var row;
        fatal, row := GetRow(keys[i]);
        if fatal {
          return;
        }
        RowWritten(vals, |keys|, len, i, row);
        ghost var rows := Rows(vals, i, len) + [row];
        vals := vals[..Base(i, len)] + row + vals[Base(i, len) + len..];
        assert Rows(vals, i + 1, len) == rows;
      }
      assert keys[..|keys|] == keys;
    }
  }

  lemma {:induction false} FetchNone<V>(m: map<nat, Entry<V>>, keys: seq<nat>, initial: seq<V>)
    ensures Fetch(m, keys[..0], initial) == m
  {
  }

  lemma {:induction false} FetchNext<V>(m: map<nat, Entry<V>>, keys: seq<nat>, initial: seq<V>, i: nat)
    requires i < |keys|
    ensures var m' := Fetch(m, keys[..i], initial);
            Fetch(m, keys[..i + 1], initial) == if keys[i] in m' then m' else m'[keys[i] := Entry(initial, false)]
  {
    assert keys[..i + 1][..i] == keys[..i];
  }
}
