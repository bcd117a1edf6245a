/** Asynchronous requests: the caller waits until the countdown of its request has reached zero. */
module Requests {
  import opened Buffers
  import opened ArrayTable

  class Waiter {
    var numWait: int

    constructor ()
      ensures numWait == 1
    {
      numWait := 1;
    }

    method Notify()
      modifies this
      ensures numWait == old(numWait) - 1
    {
      numWait := numWait - 1;
    }

    method Reset(n: int)
      modifies this
      ensures numWait == n
    {
      numWait := n;
    }
  }

  /** The waiters of a worker's table, one a request; a request that was waited for has none any more. */
  class WorkerTable {
    var msgId: nat
    var waitings: seq<Waiter?>

    ghost predicate Valid()
      reads this
    {
      && msgId == |waitings|
      && forall i, j {:trigger waitings[i], waitings[j]} :: 0 <= i < j < |waitings| && waitings[i] != null ==>
           waitings[i] != waitings[j]
    }

    constructor ()
      ensures Valid() && waitings == []
    {
      msgId, waitings := 0, [];
    }

    /** A new request has a number and a waiter of its own. */
    method NewRequest() returns (id: nat)
      requires Valid()
      modifies this
      ensures Valid() && id == old(|waitings|) && |waitings| == id + 1 && waitings[..id] == old(waitings)
      ensures waitings[id] != null && fresh(waitings[id]) && waitings[id].numWait == 1
    {
      id := msgId;
      msgId := msgId + 1;
      var w := new Waiter();
      waitings := waitings + [w];
    }

    /** A reply counts down its own request and no other. */
    method Notify(id: nat)
      requires Valid() && id < |waitings| && waitings[id] != null
      modifies waitings[id]
      ensures Valid() && waitings[id].numWait == old(waitings[id].numWait) - 1
      ensures forall j {:trigger waitings[j]} :: 0 <= j < |waitings| && j != id && waitings[j] != null ==>
        waitings[j].numWait == old(waitings[j].numWait)
    {
      waitings[id].Notify();
    }

    method Reset(id: nat, num: int)
      requires Valid() && id < |waitings| && waitings[id] != null
      modifies waitings[id]
      ensures Valid() && waitings[id].numWait == num
      ensures forall j {:trigger waitings[j]} :: 0 <= j < |waitings| && j != id && waitings[j] != null ==>
        waitings[j].numWait == old(waitings[j].numWait)
    {
      waitings[id].Reset(num);
    }

    /** Wait has returned: the countdown is at zero. */
    method Forget(id: nat)
      requires Valid() && id < |waitings| && waitings[id] != null && waitings[id].numWait <= 0
      modifies this
      ensures Valid() && waitings == old(waitings)[id := null]
    {
      waitings := waitings[id := null];
    }
  }

  /** How far a server's part of the request is. */
  datatype Stage = Outstanding | Copied | Notified

  /** One Get of the array. The worker actor may have several threads: the copying and the counting of different
      replies may be interleaved. */
  datatype Get<T> = Get(sent: bool, numWait: int, stages: seq<Stage>, data: seq<T>)

  ghost predicate Asked<T>(g: Get<T>, n: nat) {
    && g.numWait == 1 && !g.sent && |g.stages| == n
    && forall i {:trigger g.stages[i]} :: 0 <= i < n ==> g.stages[i] == Outstanding
  }

  /** The countdown is set before any part of the request leaves. */
  ghost predicate Sends<T>(g: Get<T>, g': Get<T>) {
    !g.sent && g' == g.(sent := true, numWait := |g.stages|)
  }

  /** A reply arrives and is copied to its place. */
  ghost predicate Copies<T>(g: Get<T>, g': Get<T>, servers: seq<seq<T>>, all: seq<T>, i: nat)
    requires Sharded(servers, all)
  {
    && g.sent && i < |g.stages| == |servers| && g.stages[i] == Outstanding && |g.data| == |all|
    && g' == g.(stages := g.stages[i := Copied], data := WithReply(g.data, servers, all, i))
  }

  /** Only then is it counted. */
  ghost predicate Counts<T>(g: Get<T>, g': Get<T>, i: nat) {
    && g.sent && i < |g.stages| && g.stages[i] == Copied
    && g' == g.(stages := g.stages[i := Notified], numWait := g.numWait - 1)
  }

  ghost predicate Next<T>(g: Get<T>, g': Get<T>, servers: seq<seq<T>>, all: seq<T>)
    requires Sharded(servers, all)
  {
    Sends(g, g') || exists i: nat :: Copies(g, g', servers, all, i) || Counts(g, g', i)
  }

  ghost predicate IsRun<T>(run: seq<Get<T>>, servers: seq<seq<T>>, all: seq<T>)
    requires Sharded(servers, all)
  {
    && |run| > 0 && Asked(run[0], |servers|) && |run[0].data| == |all|
    && forall k {:trigger run[k]} :: 0 < k < |run| ==> Next(run[k - 1], run[k], servers, all)
  }

  function NotCounted(stages: seq<Stage>): (c: nat)
    ensures c <= |stages|
  {
    if stages == [] then 0
    else NotCounted(stages[..|stages| - 1]) + if stages[|stages| - 1] == Notified then 0 else 1
  }

  lemma {:induction false} NotCountedUpdate(stages: seq<Stage>, i: nat, s: Stage)
    requires i < |stages| && stages[i] != Notified
    ensures NotCounted(stages[i := s]) == NotCounted(stages) - if s == Notified then 1 else 0
    decreases |stages|
  {
    var k := |stages| - 1;
    if i < k {
      assert stages[i := s][..k] == stages[..k][i := s];
      NotCountedUpdate(stages[..k], i, s);
    } else {
      assert stages[i := s][..k] == stages[..k];
    }
  }

  lemma {:induction false} AllCounted(stages: seq<Stage>)
    requires NotCounted(stages) == 0
    ensures forall i {:trigger stages[i]} :: 0 <= i < |stages| ==> stages[i] == Notified
    decreases |stages|
  {
    if stages == [] {
    } else {
      var k := |stages| - 1;
      AllCounted(stages[..k]);
      assert forall i {:trigger stages[i]} :: 0 <= i < k ==> stages[i] == stages[..k][i];
    }
  }

  lemma {:induction false} NoneCounted(stages: seq<Stage>)
    requires forall i {:trigger stages[i]} :: 0 <= i < |stages| ==> stages[i] == Outstanding
    ensures NotCounted(stages) == |stages|
    decreases |stages|
  {
    if stages == [] {
    } else {
      NoneCounted(stages[..|stages| - 1]);
    }
  }

  /** Server i's stretch of the caller's array is right. */
  ghost predicate InPlace<T>(data: seq<T>, all: seq<T>, n: nat, i: nat)
    requires n > 0 && i < n
  {
    |data| == |all| && Shard(data, n, i) == Shard(all, n, i)
  }

  ghost predicate Inv<T>(g: Get<T>, servers: seq<seq<T>>, all: seq<T>)
    requires Sharded(servers, all)
  {
    && |g.stages| == |servers| && |g.data| == |all|
    && (if g.sent then g.numWait == NotCounted(g.stages)
        else g.numWait == 1 && forall i {:trigger g.stages[i]} :: 0 <= i < |g.stages| ==> g.stages[i] == Outstanding)
    && forall i {:trigger g.stages[i]} :: 0 <= i < |g.stages| && g.stages[i] != Outstanding ==>
         InPlace(g.data, all, |servers|, i)
  }

  /** Copying one reply puts its stretch in place and leaves the others alone. */
  lemma {:induction false} CopyInPlace<T>(data: seq<T>, servers: seq<seq<T>>, all: seq<T>, i: nat, k: nat)
    requires Sharded(servers, all) && |data| == |all| && i < |servers| && k < |servers|
    ensures InPlace(WithReply(data, servers, all, i), all, |servers|, i)
    ensures k != i && InPlace(data, all, |servers|, k) ==> InPlace(WithReply(data, servers, all, i), all, |servers|, k)
  {
    var n, size := |servers|, |all|;
    SizesAgree(size, n, i);
    SizesAgree(size, n, k);
    assert servers[i] == Shard(all, n, i);
    var r := Overwrite(data, OffsetOf(size, n, i), servers[i]);
    assert WithReply(data, servers, all, i) == r;
    if k == i {
      assert Shard(r, n, i) == servers[i];
    } else {
      StretchKept(data, n, i, k, servers[i]);
    }
  }

  /** Overwriting one stretch leaves another one alone. */
  lemma {:induction false} StretchKept<T>(data: seq<T>, n: nat, i: nat, k: nat, values: seq<T>)
    requires n > 0 && i < n && k < n && k != i && |values| == ServerSize(|data|, n, i)
    ensures OffsetOf(|data|, n, i) + |values| <= |data|
    ensures Shard(Overwrite(data, OffsetOf(|data|, n, i), values), n, k) == Shard(data, n, k)
  {
    SizesAgree(|data|, n, i);
    SizesAgree(|data|, n, k);
    if k < i {
      OffsetsGrow(|data|, n, k + 1, i);
    } else {
      OffsetsGrow(|data|, n, i + 1, k);
    }
    hide OffsetOf, ServerSize;
    var from, r := OffsetOf(|data|, n, k), Overwrite(data, OffsetOf(|data|, n, i), values);
    assert forall p :: from <= p < OffsetOf(|data|, n, k + 1) ==> r[p] == data[p];
  }

  lemma {:induction false} NextInv<T>(g: Get<T>, g': Get<T>, servers: seq<seq<T>>, all: seq<T>)
    requires Sharded(servers, all) && Inv(g, servers, all) && Next(g, g', servers, all)
    ensures Inv(g', servers, all)
  {
    hide Sharded, InPlace, WithReply, NotCounted;
    if Sends(g, g') {
      NoneCounted(g.stages);
    } else {
      var i: nat :| Copies(g, g', servers, all, i) || Counts(g, g', i);
      if Copies(g, g', servers, all, i) {
        NotCountedUpdate(g.stages, i, Copied);
        forall k | 0 <= k < |g'.stages| && g'.stages[k] != Outstanding ensures InPlace(g'.data, all, |servers|, k) {
          CopyInPlace(g.data, servers, all, i, k);
        }
      } else {
        NotCountedUpdate(g.stages, i, Notified);
      }
    }
  }

  lemma {:induction false} RunInv<T>(run: seq<Get<T>>, servers: seq<seq<T>>, all: seq<T>, k: nat)
    requires Sharded(servers, all) && IsRun(run, servers, all) && k < |run|
    ensures Inv(run[k], servers, all)
    decreases k
  {
    hide Sharded, Inv, Next;
    if k > 0 {
      RunInv(run, servers, all, k - 1);
      NextInv(run[k - 1], run[k], servers, all);
    } else {
      StartInv(run[0], servers, all);
    }
  }

  lemma {:induction false} StartInv<T>(g: Get<T>, servers: seq<seq<T>>, all: seq<T>)
    requires Sharded(servers, all) && Asked(g, |servers|) && |g.data| == |all|
    ensures Inv(g, servers, all)
  {
  }

  /** Whenever Wait may return every reply was copied and counted, and the caller holds the whole array. */
  lemma {:induction false} WaitReturnsTheArray<T>(run: seq<Get<T>>, servers: seq<seq<T>>, all: seq<T>, k: nat)
    requires Sharded(servers, all) && IsRun(run, servers, all) && k < |run| && run[k].numWait <= 0
    ensures run[k].sent && run[k].data == all
    ensures forall i {:trigger run[k].stages[i]} :: 0 <= i < |run[k].stages| ==> run[k].stages[i] == Notified
  {
    RunInv(run, servers, all, k);
    var g, n := run[k], |servers|;
    AllCounted(g.stages);
    forall p: nat | p < |all| ensures g.data[p] == all[p] {
      var i := ServerOf(|all|, n, p, n);
      SizesAgree(|all|, n, i);
      assert g.stages[i] == Notified && InPlace(g.data, all, n, i);
      assert Shard(g.data, n, i)[p - OffsetOf(|all|, n, i)] == Shard(all, n, i)[p - OffsetOf(|all|, n, i)];
    }
  }
}
