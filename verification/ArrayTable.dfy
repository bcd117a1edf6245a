/** The sharded array table: every server holds one stretch of the array. */
module ArrayTable {
  import opened Arith
  import opened Buffers

  /** Where server i's stretch starts; the last one ends at the array's end. */
  ghost function OffsetOf(size: nat, n: nat, i: nat): nat
    requires n > 0
  {
    if i < n then Base(i, size / n) else size
  }

  /** How many elements server i allocates. */
  function ServerSize(size: nat, n: nat, i: nat): nat
    requires n > 0
  {
    size / n + if i == n - 1 then size % n else 0
  }

  /** The stretches the worker cuts are as long as the servers' stores, for any size and number of servers. */
  lemma {:induction false} SizesAgree(size: nat, n: nat, i: nat)
    requires n > 0 && i < n
    ensures OffsetOf(size, n, i) <= OffsetOf(size, n, i + 1) <= size
    ensures OffsetOf(size, n, i + 1) - OffsetOf(size, n, i) == ServerSize(size, n, i)
  {
    DivModDef(size, n);
    var length := size / n;
    assert Base(i + 1, length) == Base(i, length) + length;
    assert Base(n, length) == (size / n) * n;
    MulLe(i + 1, n, length);
  }

  /** All stretches are the size divided by the number of servers, rounded down, and the last one has the rest too. */
  lemma {:induction false} StretchIs(size: nat, n: nat, i: nat)
    requires n > 0 && i < n
    ensures OffsetOf(size, n, i) == i * (size / n)
    ensures OffsetOf(size, n, i + 1) == if i == n - 1 then size else (i + 1) * (size / n)
    ensures ServerSize(size, n, i) == if i == n - 1 then size - i * (size / n) else size / n
  {
    SizesAgree(size, n, i);
  }

  lemma {:induction false} OffsetsGrow(size: nat, n: nat, i: nat, j: nat)
    requires n > 0 && i <= j <= n
    ensures OffsetOf(size, n, i) <= OffsetOf(size, n, j) <= size
    decreases j - i
  {
    if i < j {
      SizesAgree(size, n, i);
      OffsetsGrow(size, n, i + 1, j);
    }
  }

  /** Server i's stretch of an array. */
  ghost function Shard<T>(all: seq<T>, n: nat, i: nat): (r: seq<T>)
    requires n > 0 && i < n
    ensures |r| == ServerSize(|all|, n, i)
  {
    SizesAgree(|all|, n, i);
    all[OffsetOf(|all|, n, i)..OffsetOf(|all|, n, i + 1)]
  }

  /** The worker's half. */
  class ArrayWorker<T> {
    const size: nat
    const numServer: nat
    var serverOffsets: seq<nat>
    /** The caller's array, which replies are copied into. */
    var data: seq<T>

    ghost predicate Valid()
      reads this
    {
      && numServer > 0 && |data| == size && |serverOffsets| == numServer + 1
      && forall i {:trigger serverOffsets[i]} :: 0 <= i <= numServer ==>
           serverOffsets[i] == OffsetOf(size, numServer, i)
    }

    constructor (size: nat, numServer: nat, data: seq<T>)
      requires 0 < numServer < size == |data|
      ensures Valid() && this.size == size && this.numServer == numServer && this.data == data
    {
      this.size, this.numServer, this.data := size, numServer, data;
      serverOffsets := [0];
      new;
      var length := size / numServer;
      for i := 1 to numServer
        invariant |serverOffsets| == i && this.data == data
        invariant forall j {:trigger serverOffsets[j]} :: 0 <= j < i ==> serverOffsets[j] == Base(j, length)
      {
        serverOffsets := serverOffsets + [Base(i, length)];
      }
      serverOffsets := serverOffsets + [size];
    }

    /** Every server gets its stretch of the values. */
    method Partition(values: seq<T>) returns (out: seq<seq<T>>)
      requires Valid() && |values| == size
      ensures |out| == numServer
      ensures forall i {:trigger out[i]} :: 0 <= i < numServer ==> out[i] == Shard(values, numServer, i)
    {
      out := [];
      for i := 0 to numServer
        invariant |out| == i
        invariant forall j {:trigger out[j]} :: 0 <= j < i ==> out[j] == Shard(values, numServer, j)
      {
        SizesAgree(size, numServer, i);
        out := out + [values[serverOffsets[i]..serverOffsets[i + 1]]];
      }
    }

    /** Copy a server's values to their place. */
    method ProcessReplyGet(id: nat, values: seq<T>)
      requires Valid() && id < numServer && |values| == ServerSize(size, numServer, id)
      modifies `data
      ensures Valid()
      ensures OffsetOf(size, numServer, id) + |values| <= size
      ensures data == Overwrite(old(data), OffsetOf(size, numServer, id), values)
    {
      SizesAgree(size, numServer, id);
      assert |values| == serverOffsets[id + 1] - serverOffsets[id];
      data := data[..serverOffsets[id]] + values + data[serverOffsets[id] + |values|..];
    }
  }

  /** The servers hold the stretches of one array. */
  ghost predicate Sharded<T>(servers: seq<seq<T>>, all: seq<T>) {
    |servers| > 0 && forall i {:trigger servers[i]} :: 0 <= i < |servers| ==> servers[i] == Shard(all, |servers|, i)
  }

  /** An updater that works element by element; an element's state may hold more than its value, as momentum or the
      square sums of adagrad do. */
  ghost function Updated<S, D>(data: seq<S>, delta: seq<D>, f: (S, D) -> S): (r: seq<S>)
    requires |data| == |delta|
    ensures |r| == |data| && forall i {:trigger r[i]} :: 0 <= i < |r| ==> r[i] == f(data[i], delta[i])
  {
    seq(|data|, i requires 0 <= i < |data| => f(data[i], delta[i]))
  }

  /** Updating every stretch with its part of the delta is updating the array with the delta. */
  lemma {:induction false} AddSharded<S, D>(servers: seq<seq<S>>, all: seq<S>, delta: seq<D>, f: (S, D) -> S,
                                            after: seq<seq<S>>)
    requires Sharded(servers, all) && |delta| == |all| && |after| == |servers|
    requires forall i {:trigger after[i]} :: 0 <= i < |after| ==>
               after[i] == Updated(servers[i], Shard(delta, |servers|, i), f)
    ensures Sharded(after, Updated(all, delta, f))
  {
    forall i | 0 <= i < |after| ensures after[i] == Shard(Updated(all, delta, f), |after|, i) {
      SizesAgree(|all|, |servers|, i);
      assert servers[i] == Shard(all, |servers|, i);
    }
  }

  /** The worker's array with server i's reply copied to its place. */
  ghost function WithReply<T>(data: seq<T>, servers: seq<seq<T>>, all: seq<T>, i: nat): (r: seq<T>)
    requires Sharded(servers, all) && |data| == |all| && i < |servers|
    ensures |r| == |data|
  {
    SizesAgree(|all|, |servers|, i);
    Overwrite(data, OffsetOf(|all|, |servers|, i), servers[i])
  }

  /** The server whose stretch an element is in. */
  lemma {:induction false} ServerOf(size: nat, n: nat, p: nat, k: nat) returns (i: nat)
    requires 0 < k <= n && p < OffsetOf(size, n, k)
    ensures i < k && OffsetOf(size, n, i) <= p < OffsetOf(size, n, i + 1)
    decreases k
  {
    assert Base(0, size / n) == 0;
    if k > 1 && p < OffsetOf(size, n, k - 1) {
      i := ServerOf(size, n, p, k - 1);
    } else {
      i := k - 1;
    }
  }
}
