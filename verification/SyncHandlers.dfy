/** Both handlers of the synchronous scheduler lead from a good state to a good state; no check fails. */
module SyncHandlers {
  import opened VectorClock
  import opened SyncScheduler
  import opened SyncState

  /** State s with message m added to the cache of its kind. */
  ghost function Enqueued(s: State, op: Op, m: Msg): State
    requires Sized(s, |s.waited|) && m.worker < |s.waited|
  {
    if op == Add then s.(addCache := s.addCache + [m], waited := s.waited[m.worker := s.waited[m.worker] + 1])
    else s.(getCache := s.getCache + [m])
  }

  /** State s after the request of m was carried out. */
  ghost function Handled(s: State, op: Op, m: Msg): State
    requires Sized(s, |s.waited|) && m.worker < |s.waited|
  {
    if op == Add then s.(adds := Tick(s.adds, m.worker).0, handled := s.handled + [Event(Add, m)])
    else s.(gets := Tick(s.gets, m.worker).0, handled := s.handled + [Event(Get, m)])
  }

  lemma {:induction false} RangeAppend(w: nat, lo: nat, hi: nat)
    requires lo <= hi
    ensures Range(w, lo, hi + 1) == Range(w, lo, hi) + [Msg(w, hi)]
  {
  }

  /** The message being delivered: worker w's next one, with no Get of w unanswered. */
  ghost predicate Arrives(prog: seq<Op>, s: State, received: seq<nat>, w: nat) {
    Good(prog, s, received) && w < |received| && received[w] < |prog| && Of(s.getCache, w) == []
  }

  lemma {:induction false} EnqueuedQueued(prog: seq<Op>, s: State, received: seq<nat>, w: nat, u: nat)
    requires Arrives(prog, s, received, w) && u < |received|
    ensures var r := Enqueued(s, prog[received[w]], Msg(w, received[w]));
        var received' := received[w := received[w] + 1];
            Sized(r, |received'|) && Queued(prog, r, received', u)
  {
    hide Core, Proc, Of, AddsAhead, GetsAhead;
    assert Queued(prog, s, received, u);
    OfAppend(s.addCache, Msg(w, received[w]), u);
    OfAppend(s.getCache, Msg(w, received[w]), u);
    RangeAppend(u, Proc(s.gets, s.adds)[u], Proc(s.gets, s.adds)[u] + s.waited[u]);
  }

  /** A message that has to wait is queued behind its worker's earlier ones. */
  lemma {:induction false} EnqueueGood(prog: seq<Op>, s: State, received: seq<nat>, w: nat)
    requires Arrives(prog, s, received, w)
    requires prog[received[w]] == Add ==> AddMustWait(s, w)
    requires prog[received[w]] == Get ==> GetMustWait(s, w)
    ensures var r := Enqueued(s, prog[received[w]], Msg(w, received[w]));
            Good(prog, r, received[w := received[w] + 1]) && NoLess(s, r)
  {
    hide Core, Proc, Of, Queued;
    var r := Enqueued(s, prog[received[w]], Msg(w, received[w]));
    var received' := received[w := received[w] + 1];
    forall u: nat | u < |received| ensures Sized(r, |received|) && Queued(prog, r, received', u) {
      EnqueuedQueued(prog, s, received, w, u);
    }
    forall u: nat | u < |r.waited| && r.waited[u] > 0 ensures AddMustWait(r, u) {
      if s.waited[u] > 0 {
        assert AddMustWait(s, u);
      }
    }
    forall u: nat | u < |r.waited| && Of(r.getCache, u) != [] ensures GetMustWait(r, u) {
      OfAppend(s.getCache, Msg(w, received[w]), u);
      if Of(s.getCache, u) != [] {
        assert GetMustWait(s, u);
      }
    }
  }

  /** A request that need not wait is its worker's next one. */
  lemma {:induction false} NextInLine(prog: seq<Op>, s: State, received: seq<nat>, w: nat)
    requires Arrives(prog, s, received, w) && s.waited[w] == 0
    ensures Proc(s.gets, s.adds)[w] == received[w]
  {
    assert Queued(prog, s, received, w);
  }

  lemma {:induction false} HandledQueued(prog: seq<Op>, s: State, received: seq<nat>, w: nat, u: nat)
    requires Arrives(prog, s, received, w) && s.waited[w] == 0 && u < |received|
    requires var r := Handled(s, prog[received[w]], Msg(w, received[w]));
             Proc(r.gets, r.adds) == Proc(s.gets, s.adds)[w := Proc(s.gets, s.adds)[w] + 1]
    ensures var r := Handled(s, prog[received[w]], Msg(w, received[w]));
        var received' := received[w := received[w] + 1];
            Sized(r, |received'|) && Queued(prog, r, received', u)
  {
    hide Core, Proc, Tick, AddsAhead, GetsAhead;
    assert Queued(prog, s, received, u) && Queued(prog, s, received, w);
  }

  /** A request that need not wait keeps everything but, perhaps, what the caches promise. */
  lemma {:induction false} HandleConsistent(prog: seq<Op>, s: State, received: seq<nat>, w: nat)
    requires Arrives(prog, s, received, w) && s.waited[w] == 0
    requires prog[received[w]] == Add ==> !AddMustWait(s, w)
    requires prog[received[w]] == Get ==> !GetMustWait(s, w)
    ensures var r := Handled(s, prog[received[w]], Msg(w, received[w]));
            Consistent(prog, r, received[w := received[w] + 1]) && NoLess(s, r)
  {
    hide Core, Proc, Of, Queued, Tick, AddsAhead, GetsAhead;
    var r := Handled(s, prog[received[w]], Msg(w, received[w]));
    NextInLine(prog, s, received, w);
    if prog[received[w]] == Add {
      CoreAdd(prog, s.gets, s.adds, s.handled, w);
    } else {
      CoreGet(prog, s.gets, s.adds, s.handled, w);
    }
    var received' := received[w := received[w] + 1];
    forall u: nat | u < |received| ensures Queued(prog, r, received', u) {
      HandledQueued(prog, s, received, w, u);
    }
  }

  /** An Add that need not wait finds no cached Add. */
  lemma {:induction false} NoCachedAdd(prog: seq<Op>, s: State, received: seq<nat>, w: nat)
    requires Arrives(prog, s, received, w) && s.waited[w] == 0 && prog[received[w]] == Add && !AddMustWait(s, w)
    ensures s.addCache == []
  {
    NextInLine(prog, s, received, w);
    MostGets(prog, s.gets, s.adds, s.handled, w);
    hide Core, Of;
    forall u: nat | u < |received| ensures Of(s.addCache, u) == [] {
      assert Queued(prog, s, received, u);
      assert s.gets.local[u] <= s.gets.local[w];
    }
    OfNobody(s.addCache, |received|);
  }

  lemma {:induction false} NothingWaits(prog: seq<Op>, s: State, received: seq<nat>)
    requires Consistent(prog, s, received) && s.addCache == []
    ensures AddsAhead(s)
  {
    forall w: nat | w < |s.waited| ensures s.waited[w] == 0 {
      assert Queued(prog, s, received, w) && |Of(s.addCache, w)| == 0;
    }
  }

  lemma {:induction false} CacheEmpty(s: State)
    requires Sized(s, |s.waited|) && s.getCache == []
    ensures GetsAhead(s)
  {
  }

  /** When the greatest local count is the global one, all are. */
  lemma {:induction false} LevelIfLeast(c: Clock, u: nat)
    requires InStep(c) && u < |c.local| && !AllReached(c)
    requires forall v {:trigger c.local[v]} :: 0 <= v < |c.local| ==> c.local[v] <= c.local[u]
    ensures c.local[u] > c.global
  {
  }

  /** A worker whose next request is a cached Get, or an Add. */
  lemma {:induction false} NextRequest(prog: seq<Op>, r: State, received: seq<nat>, u: nat)
    requires Sized(r, |received|) && u < |received| && Queued(prog, r, received, u)
    ensures r.waited[u] > 0 ==> var p := Proc(r.gets, r.adds)[u]; p < |prog| && prog[p] == Add
    ensures r.waited[u] == 0 && Of(r.getCache, u) != [] ==>
        var p := Proc(r.gets, r.adds)[u]; p < |prog| && prog[p] == Get
  {
    hide Of;
  }

  /** Unless all Adds are level now, Gets that were cached stay ahead. */
  lemma {:induction false} AddKeepsGetsAhead(prog: seq<Op>, r: State, received: seq<nat>)
    requires Consistent(prog, r, received) && !AllReached(r.adds)
    ensures GetsAhead(r)
  {
    hide Of, Queued, Core, InStep, AllReached;
    CoreInStep(prog, r.gets, r.adds, r.handled);
    forall u: nat | u < |r.waited| && Of(r.getCache, u) != [] ensures GetMustWait(r, u) {
      assert Queued(prog, r, received, u);
      NextRequest(prog, r, received, u);
      WaitedNat(prog, r, received, u);
      if r.waited[u] == 0 {
        MostAdds(prog, r.gets, r.adds, r.handled, u);
        LevelIfLeast(r.adds, u);
      }
    }
  }

  /** Unless all Gets are level now, Adds that were cached stay ahead. */
  lemma {:induction false} GetKeepsAddsAhead(prog: seq<Op>, r: State, received: seq<nat>)
    requires Consistent(prog, r, received) && !AllReached(r.gets)
    ensures AddsAhead(r)
  {
    hide Of, Queued, Core, InStep, AllReached;
    CoreInStep(prog, r.gets, r.adds, r.handled);
    forall u: nat | u < |r.waited| && r.waited[u] > 0 ensures AddMustWait(r, u) {
      assert Queued(prog, r, received, u);
      NextRequest(prog, r, received, u);
      MostGets(prog, r.gets, r.adds, r.handled, u);
      LevelIfLeast(r.gets, u);
    }
  }

  lemma {:induction false} AddGood(prog: seq<Op>, s: State, received: seq<nat>, w: nat)
    requires Arrives(prog, s, received, w) && prog[received[w]] == Add
    ensures var r := AfterAdd(s, Msg(w, received[w]));
            Good(prog, r, received[w := received[w] + 1]) && NoLess(s, r)
  {
    hide Core, Proc, Of, Queued, Tick, AllQueued;
    var m := Msg(w, received[w]);
    if AddMustWait(s, w) {
      EnqueueGood(prog, s, received, w);
    } else {
      assert s.waited[w] == 0 by {
        NotWaiting(prog, s, received, w);
      }
      CoreInStep(prog, s.gets, s.adds, s.handled);
      TickInStep(s.adds, w);
      HandleConsistent(prog, s, received, w);
      AddTaken(prog, s, received, w, Handled(s, Add, m));
    }
  }

  lemma {:induction false} NotWaiting(prog: seq<Op>, s: State, received: seq<nat>, w: nat)
    requires Good(prog, s, received) && w < |received| && !AddMustWait(s, w)
    ensures s.waited[w] == 0
  {
    assert Queued(prog, s, received, w);
  }

  lemma {:induction false} AddTaken(prog: seq<Op>, s: State, received: seq<nat>, w: nat, t: State)
    requires Arrives(prog, s, received, w) && s.waited[w] == 0 && prog[received[w]] == Add && !AddMustWait(s, w)
    requires t == Handled(s, Add, Msg(w, received[w])) && NoLess(s, t)
    requires Consistent(prog, t, received[w := received[w] + 1])
    requires Tick(s.adds, w).1 <==> AllReached(t.adds)
    ensures var r := AfterAdd(s, Msg(w, received[w]));
            Good(prog, r, received[w := received[w] + 1]) && NoLess(s, r)
  {
    hide Core, Proc, Of, Queued, Tick, AllReached, AllQueued;
    var received' := received[w := received[w] + 1];
    NoCachedAdd(prog, s, received, w);
    NothingWaits(prog, t, received');
    if AllReached(t.adds) {
      CoreInStep(prog, s.gets, s.adds, s.handled);
      ServeAll(prog, t, received', w);
      NoLessTrans(s, t, DrainGets(t));
      NothingWaits(prog, DrainGets(t), received');
      CacheEmpty(DrainGets(t));
    } else {
      AddKeepsGetsAhead(prog, t, received');
    }
  }

  lemma {:induction false} GetGood(prog: seq<Op>, s: State, received: seq<nat>, w: nat)
    requires Arrives(prog, s, received, w) && prog[received[w]] == Get
    ensures var r := AfterGet(s, Msg(w, received[w]));
            Good(prog, r, received[w := received[w] + 1]) && NoLess(s, r)
  {
    hide Core, Proc, Of, Queued, Tick, AllQueued;
    var m := Msg(w, received[w]);
    if GetMustWait(s, w) {
      EnqueueGood(prog, s, received, w);
    } else {
      assert s.waited[w] == 0 by {
        WaitedNat(prog, s, received, w);
      }
      CoreInStep(prog, s.gets, s.adds, s.handled);
      TickInStep(s.gets, w);
      HandleConsistent(prog, s, received, w);
      GetTaken(prog, s, received, w, Handled(s, Get, m));
    }
  }

  lemma {:induction false} WaitedNat(prog: seq<Op>, s: State, received: seq<nat>, w: nat)
    requires Consistent(prog, s, received) && w < |received|
    ensures s.waited[w] >= 0 && |Of(s.addCache, w)| == s.waited[w]
  {
    assert Queued(prog, s, received, w);
  }

  /** Serving one Get changes nothing a cached Get waits for. */
  lemma {:induction false} GetKeepsGetsAhead(s: State, m: Msg)
    requires Sized(s, |s.waited|) && m.worker < |s.waited| && GetsAhead(s)
    ensures GetsAhead(Handled(s, Get, m))
  {
    hide Tick, Of;
    var t := Handled(s, Get, m);
    forall u: nat | u < |t.waited| && Of(t.getCache, u) != [] ensures GetMustWait(t, u) {
      assert GetMustWait(s, u);
    }
  }

  lemma {:induction false} GetTaken(prog: seq<Op>, s: State, received: seq<nat>, w: nat, t: State)
    requires Arrives(prog, s, received, w) && s.waited[w] == 0 && prog[received[w]] == Get && !GetMustWait(s, w)
    requires t == Handled(s, Get, Msg(w, received[w])) && NoLess(s, t)
    requires Consistent(prog, t, received[w := received[w] + 1])
    requires Tick(s.gets, w).1 <==> AllReached(t.gets)
    ensures var r := AfterGet(s, Msg(w, received[w]));
            Good(prog, r, received[w := received[w] + 1]) && NoLess(s, r)
  {
    hide Core, Proc, Of, Queued, Tick, AllReached, AllQueued, GetsAhead;
    var received' := received[w := received[w] + 1];
    GetKeepsGetsAhead(s, Msg(w, received[w]));
    if AllReached(t.gets) {
      CoreInStep(prog, s.gets, s.adds, s.handled);
      WaitedNat(prog, s, received, w);
      ApplyAll(prog, t, received', w);
      NoLessTrans(s, t, DrainAdds(t));
      NothingWaits(prog, DrainAdds(t), received');
    } else {
      GetKeepsAddsAhead(prog, t, received');
    }
  }
}
