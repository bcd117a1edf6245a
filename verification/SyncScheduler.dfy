/** The synchronous scheduler: requests of workers that run ahead wait in two caches. */
module SyncScheduler {
  import opened VectorClock

  /** A request: the worker that sent it and its place among that worker's requests. */
  datatype Msg = Msg(worker: nat, idx: nat)

  datatype Op = Add | Get

  /** What the scheduler did to the table: apply an Add, or answer a Get. */
  datatype Event = Event(op: Op, msg: Msg)

  /** The scheduler's fields, the table accesses so far, and whether one of its checks failed. */
  datatype State = State(gets: Clock, adds: Clock, waited: seq<int>,
                         addCache: seq<Msg>, getCache: seq<Msg>, handled: seq<Event>, failed: bool)

  ghost predicate Sized(s: State, n: nat) {
    && |s.gets.local| == |s.adds.local| == |s.waited| == n
    && (forall i {:trigger s.addCache[i]} :: 0 <= i < |s.addCache| ==> s.addCache[i].worker < n)
    && (forall i {:trigger s.getCache[i]} :: 0 <= i < |s.getCache| ==> s.getCache[i].worker < n)
  }

  /** Serve the first cached Get. */
  ghost function ServeCachedGet(s: State): State
    requires Sized(s, |s.waited|) && s.getCache != []
  {
    var m := s.getCache[0];
    var (gets, all) := Tick(s.gets, m.worker);
    State(gets, s.adds, s.waited, s.addCache, s.getCache[1..], s.handled + [Event(Get, m)], all)
  }

  lemma {:induction false} ServeSized(s: State)
    requires Sized(s, |s.waited|) && s.getCache != []
    ensures s.getCache[0].worker < |s.waited| == |s.adds.local| == |s.gets.local|
    ensures Sized(ServeCachedGet(s), |s.waited|)
    ensures !s.failed ==> DrainGets(s) == DrainGets(ServeCachedGet(s))
  {
  }

  ghost function DrainGets(s: State): (r: State)
    requires Sized(s, |s.waited|)
    ensures Sized(r, |s.waited|)
    decreases |s.getCache|
  {
    if s.getCache == [] || s.failed then s else DrainGets(ServeCachedGet(s))
  }

  /** Apply the first cached Add; its worker waits for one fewer, unless the check fails first. */
  ghost function ApplyCachedAdd(s: State): State
    requires Sized(s, |s.waited|) && s.addCache != []
  {
    var m := s.addCache[0];
    var (adds, all) := Tick(s.adds, m.worker);
    State(s.gets, adds, if all then s.waited else s.waited[m.worker := s.waited[m.worker] - 1],
          s.addCache[1..], s.getCache, s.handled + [Event(Add, m)], all)
  }

  lemma {:induction false} ApplySized(s: State)
    requires Sized(s, |s.waited|) && s.addCache != []
    ensures s.addCache[0].worker < |s.waited| == |s.adds.local| == |s.gets.local|
    ensures Sized(ApplyCachedAdd(s), |s.waited|)
    ensures !s.failed ==> DrainAdds(s) == DrainAdds(ApplyCachedAdd(s))
  {
  }

  ghost function DrainAdds(s: State): (r: State)
    requires Sized(s, |s.waited|)
    ensures Sized(r, |s.waited|)
    decreases |s.addCache|
  {
    if s.addCache == [] || s.failed then s else DrainAdds(ApplyCachedAdd(s))
  }

  /** Cached requests are taken in the order they came. */
  lemma {:induction false} GetsInOrder(s: State)
    requires Sized(s, |s.waited|) && !s.failed && !DrainGets(s).failed
    ensures var r := DrainGets(s);
      && r.getCache == [] && r.addCache == s.addCache && |r.handled| == |s.handled| + |s.getCache|
      && s.handled <= r.handled
      && forall i {:trigger s.getCache[i]} :: 0 <= i < |s.getCache| ==>
           r.handled[|s.handled| + i] == Event(Get, s.getCache[i])
    decreases |s.getCache|
  {
    hide Tick;
    if s.getCache == [] {
    } else {
      ServeSized(s);
      var t := ServeCachedGet(s);
      if !t.failed {
        GetsInOrder(t);
        var r := DrainGets(s);
        assert r.handled[|s.handled|] == t.handled[|s.handled|] == Event(Get, s.getCache[0]);
        forall i | 0 < i < |s.getCache| ensures r.handled[|s.handled| + i] == Event(Get, s.getCache[i]) {
          assert t.getCache[i - 1] == s.getCache[i];
        }
      }
    }
  }

  lemma {:induction false} AddsInOrder(s: State)
    requires Sized(s, |s.waited|) && !s.failed && !DrainAdds(s).failed
    ensures var r := DrainAdds(s);
      && r.addCache == [] && r.getCache == s.getCache && |r.handled| == |s.handled| + |s.addCache|
      && s.handled <= r.handled
      && forall i {:trigger s.addCache[i]} :: 0 <= i < |s.addCache| ==>
           r.handled[|s.handled| + i] == Event(Add, s.addCache[i])
    decreases |s.addCache|
  {
    hide Tick;
    if s.addCache == [] {
    } else {
      ApplySized(s);
      var t := ApplyCachedAdd(s);
      if !t.failed {
        AddsInOrder(t);
        var r := DrainAdds(s);
        assert r.handled[|s.handled|] == t.handled[|s.handled|] == Event(Add, s.addCache[0]);
        forall i | 0 < i < |s.addCache| ensures r.handled[|s.handled| + i] == Event(Add, s.addCache[i]) {
          assert t.addCache[i - 1] == s.addCache[i];
        }
      }
    }
  }

  /** An Add is cached while its worker's Gets are ahead. */
  ghost predicate AddMustWait(s: State, w: nat)
    requires Sized(s, |s.waited|) && w < |s.waited|
  {
    s.gets.local[w] > s.gets.global
  }

  /** A Get is cached while its worker's Adds are ahead, or cached themselves. */
  ghost predicate GetMustWait(s: State, w: nat)
    requires Sized(s, |s.waited|) && w < |s.waited|
  {
    s.adds.local[w] > s.adds.global || s.waited[w] > 0
  }

  ghost function AfterAdd(s: State, m: Msg): (r: State)
    requires Sized(s, |s.waited|) && m.worker < |s.waited|
    ensures Sized(r, |s.waited|)
  {
    if AddMustWait(s, m.worker) then
      s.(addCache := s.addCache + [m], waited := s.waited[m.worker := s.waited[m.worker] + 1])
    else
      var (adds, all) := Tick(s.adds, m.worker);
      var t := s.(adds := adds, handled := s.handled + [Event(Add, m)]);
      if !all then t
      else if s.addCache != [] then t.(failed := true)
      else DrainGets(t)
  }

  ghost function AfterGet(s: State, m: Msg): (r: State)
    requires Sized(s, |s.waited|) && m.worker < |s.waited|
    ensures Sized(r, |s.waited|)
  {
    if GetMustWait(s, m.worker) then s.(getCache := s.getCache + [m])
    else
      var (gets, all) := Tick(s.gets, m.worker);
      var t := s.(gets := gets, handled := s.handled + [Event(Get, m)]);
      if all then DrainAdds(t) else t
  }

  ghost function Fresh(n: nat): (s: State)
    ensures Sized(s, n)
  {
    var zero := Clock(seq(n, _ => 0), 0);
    State(zero, zero, seq(n, _ => 0), [], [], [], false)
  }

  class SyncScheduler {
    const workerGetClocks: VectorClock
    const workerAddClocks: VectorClock
    var numWaitedAdd: seq<int>
    var msgAddCache: seq<Msg>
    var msgGetCache: seq<Msg>
    /** The table accesses so far; the table itself and the replies follow from them. */
    var handled: seq<Event>
    /** A check failed: the process has stopped. */
    var failed: bool

    constructor (numWorker: nat)
      ensures Valid() && fresh(workerGetClocks) && fresh(workerAddClocks)
      ensures Value() == Fresh(numWorker)
    {
      workerGetClocks := new VectorClock(numWorker);
      workerAddClocks := new VectorClock(numWorker);
      numWaitedAdd := seq(numWorker, _ => 0);
      msgAddCache, msgGetCache, handled, failed := [], [], [], false;
    }

    ghost function Value(): State
      reads this, workerGetClocks, workerAddClocks
    {
      State(workerGetClocks.Value(), workerAddClocks.Value(), numWaitedAdd, msgAddCache, msgGetCache, handled, failed)
    }

    ghost predicate Valid()
      reads this, workerGetClocks, workerAddClocks
    {
      && workerGetClocks != workerAddClocks
      && |workerGetClocks.localClock| == |workerAddClocks.localClock| == |numWaitedAdd|
      && Sized(Value(), |numWaitedAdd|)
    }

    /** One turn of the loop over the cached Gets. */
    method ServeFirstGet()
      requires Valid() && msgGetCache != []
      modifies `msgGetCache, `handled, `failed, workerGetClocks
      ensures Valid() && Value() == ServeCachedGet(old(Value()))
    {
      hide Tick;
      ServeSized(Value());
      var getMsg := msgGetCache[0];
      msgGetCache := msgGetCache[1..];
      handled := handled + [Event(Get, getMsg)];
      failed := workerGetClocks.Update(getMsg.worker);
    }

    /** One turn of the loop over the cached Adds. */
    method ApplyFirstAdd()
      requires Valid() && msgAddCache != []
      modifies `msgAddCache, `handled, `failed, `numWaitedAdd, workerAddClocks
      ensures Valid() && Value() == ApplyCachedAdd(old(Value()))
    {
      hide Tick;
      ApplySized(Value());
      var addMsg := msgAddCache[0];
      msgAddCache := msgAddCache[1..];
      handled := handled + [Event(Add, addMsg)];
      failed := workerAddClocks.Update(addMsg.worker);
      if !failed {
        numWaitedAdd := numWaitedAdd[addMsg.worker := numWaitedAdd[addMsg.worker] - 1];
      }
    }

    method ProcessAdd(msg: Msg)
      requires Valid() && !failed && msg.worker < |numWaitedAdd|
      modifies this, workerGetClocks, workerAddClocks
      ensures Valid() && Value() == AfterAdd(old(Value()), msg)
    {
      hide Tick;
      var worker := msg.worker;
      if workerGetClocks.localClock[worker] > workerGetClocks.globalClock {
        msgAddCache := msgAddCache + [msg];
        numWaitedAdd := numWaitedAdd[worker := numWaitedAdd[worker] + 1];
        return;
      }
      handled := handled + [Event(Add, msg)];
      var all := workerAddClocks.Update(worker);
      if all {
        if msgAddCache != [] {
          failed := true;
          return;
        }
        ghost var start := Value();
        while msgGetCache != [] && !failed
          invariant Valid() && DrainGets(Value()) == DrainGets(start)
          invariant |numWaitedAdd| == |old(numWaitedAdd)|
          decreases |msgGetCache|
        {
          ServeSized(Value());
          ServeFirstGet();
        }
      }
    }

    method ProcessGet(msg: Msg)
      requires Valid() && !failed && msg.worker < |numWaitedAdd|
      modifies this, workerGetClocks, workerAddClocks
      ensures Valid() && Value() == AfterGet(old(Value()), msg)
    {
      hide Tick;
      var worker := msg.worker;
      if workerAddClocks.localClock[worker] > workerAddClocks.globalClock || numWaitedAdd[worker] > 0 {
        msgGetCache := msgGetCache + [msg];
        return;
      }
      handled := handled + [Event(Get, msg)];
      var all := workerGetClocks.Update(worker);
      if all {
        ghost var start := Value();
        while msgAddCache != [] && !failed
          invariant Valid() && DrainAdds(Value()) == DrainAdds(start)
          invariant |numWaitedAdd| == |old(numWaitedAdd)|
          decreases |msgAddCache|
        {
          ApplySized(Value());
          ApplyFirstAdd();
        }
      }
    }
  }
}
