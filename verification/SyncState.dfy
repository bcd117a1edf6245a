/** What every handler of the synchronous scheduler keeps, when all workers run one common program and
    no worker sends past an unanswered Get. */
module SyncState {
  import opened VectorClock
  import opened SyncScheduler
  import opened Lockstep

  /** How many requests of each worker have been handled. */
  ghost function Proc(gets: Clock, adds: Clock): (r: seq<nat>)
    requires |gets.local| == |adds.local|
    ensures |r| == |adds.local| && forall w {:trigger r[w]} :: 0 <= w < |r| ==> r[w] == gets.local[w] + adds.local[w]
  {
    seq(|adds.local|, w requires 0 <= w < |adds.local| => gets.local[w] + adds.local[w])
  }

  ghost predicate Counted(prog: seq<Op>, op: Op, c: Clock, proc: seq<nat>)
    requires InLockstep(prog, proc) && |proc| == |c.local|
  {
    forall w {:trigger proc[w]} {:trigger c.local[w]} :: 0 <= w < |proc| ==> c.local[w] == Count(prog, op, proc[w])
  }

  /** Clocks and log agree with the program. */
  ghost predicate Core(prog: seq<Op>, gets: Clock, adds: Clock, log: seq<Event>) {
    && |gets.local| == |adds.local| && InStep(gets) && InStep(adds)
    && InLockstep(prog, Proc(gets, adds))
    && Counted(prog, Get, gets, Proc(gets, adds))
    && Counted(prog, Add, adds, Proc(gets, adds))
    && Faithful(prog, Proc(gets, adds), log)
    && AllLevel(prog, |adds.local|, log)
  }

  lemma {:induction false} CoreInStep(prog: seq<Op>, gets: Clock, adds: Clock, log: seq<Event>)
    requires Core(prog, gets, adds, log)
    ensures InStep(gets) && InStep(adds)
  {
  }

  lemma {:induction false} CountedStep(prog: seq<Op>, op: Op, c: Clock, proc: seq<nat>, w: nat)
    requires InLockstep(prog, proc) && |proc| == |c.local| && Counted(prog, op, c, proc)
    requires w < |proc| && proc[w] < |prog| && InLockstep(prog, proc[w := proc[w] + 1])
    ensures prog[proc[w]] == op ==> Counted(prog, op, Tick(c, w).0, proc[w := proc[w] + 1])
    ensures prog[proc[w]] != op ==> Counted(prog, op, c, proc[w := proc[w] + 1])
  {
    hide InLockstep;
    assert c.local[w] == Count(prog, op, proc[w]);
  }

  lemma {:induction false} CanTake(prog: seq<Op>, c: Clock, proc: seq<nat>, w: nat)
    requires InLockstep(prog, proc) && w < |proc| && proc[w] < |prog| && |c.local| == |proc|
    requires Counted(prog, Other(prog[proc[w]]), c, proc) && InStep(c) && c.local[w] <= c.global
    ensures MayTake(prog, proc, w)
  {
    forall u | 0 <= u < |proc|
      ensures Count(prog, Other(prog[proc[w]]), proc[w]) <= Count(prog, Other(prog[proc[w]]), proc[u])
    {
      assert c.local[w] <= c.local[u];
    }
  }

  /** Applying worker w's next request, an Add, while its Gets are not ahead. */
  lemma {:induction false} CoreAdd(prog: seq<Op>, gets: Clock, adds: Clock, log: seq<Event>, w: nat)
    requires Core(prog, gets, adds, log) && w < |adds.local|
    requires var p := Proc(gets, adds)[w]; p < |prog| && prog[p] == Add
    requires gets.local[w] <= gets.global
    ensures var adds' := Tick(adds, w).0; var proc := Proc(gets, adds);
            && Core(prog, gets, adds', log + [Event(Add, Msg(w, proc[w]))])
            && Proc(gets, adds') == proc[w := proc[w] + 1]
  {
    hide InLockstep, Counted, Faithful, AllLevel, Count, InStep, Tick, MayTake;
    var adds', proc := Tick(adds, w).0, Proc(gets, adds);
    TickInStep(adds, w);
    CanTake(prog, gets, proc, w);
    LogStep(prog, proc, log, w);
    assert Proc(gets, adds') == proc[w := proc[w] + 1];
    CountedStep(prog, Get, gets, proc, w);
    CountedStep(prog, Add, adds, proc, w);
  }

  /** Answering worker w's next request, a Get, while its Adds are not ahead. */
  lemma {:induction false} CoreGet(prog: seq<Op>, gets: Clock, adds: Clock, log: seq<Event>, w: nat)
    requires Core(prog, gets, adds, log) && w < |gets.local|
    requires var p := Proc(gets, adds)[w]; p < |prog| && prog[p] == Get
    requires adds.local[w] <= adds.global
    ensures var gets' := Tick(gets, w).0; var proc := Proc(gets, adds);
            && Core(prog, gets', adds, log + [Event(Get, Msg(w, proc[w]))])
            && Proc(gets', adds) == proc[w := proc[w] + 1]
  {
    hide InLockstep, Counted, Faithful, AllLevel, Count, InStep, Tick, MayTake;
    var gets', proc := Tick(gets, w).0, Proc(gets, adds);
    TickInStep(gets, w);
    CanTake(prog, adds, proc, w);
    LogStep(prog, proc, log, w);
    assert Proc(gets', adds) == proc[w := proc[w] + 1];
    CountedStep(prog, Get, gets, proc, w);
    CountedStep(prog, Add, adds, proc, w);
  }

  /** A worker whose next request is an Add is behind nobody in Gets. */
  lemma {:induction false} MostGets(prog: seq<Op>, gets: Clock, adds: Clock, log: seq<Event>, w: nat)
    requires Core(prog, gets, adds, log) && w < |adds.local|
    requires var p := Proc(gets, adds)[w]; p < |prog| && prog[p] == Add
    ensures forall u {:trigger gets.local[u]} :: 0 <= u < |gets.local| ==> gets.local[u] <= gets.local[w]
  {
    var proc := Proc(gets, adds);
    forall u | 0 <= u < |gets.local| ensures gets.local[u] <= gets.local[w] {
      assert gets.local[w] == Count(prog, Get, proc[w]) && gets.local[u] == Count(prog, Get, proc[u]);
      NobodyAhead(prog, proc, w, u);
    }
  }

  /** A worker whose next request is a Get is behind nobody in Adds. */
  lemma {:induction false} MostAdds(prog: seq<Op>, gets: Clock, adds: Clock, log: seq<Event>, w: nat)
    requires Core(prog, gets, adds, log) && w < |adds.local|
    requires var p := Proc(gets, adds)[w]; p < |prog| && prog[p] == Get
    ensures forall u {:trigger adds.local[u]} :: 0 <= u < |adds.local| ==> adds.local[u] <= adds.local[w]
  {
    var proc := Proc(gets, adds);
    forall u | 0 <= u < |adds.local| ensures adds.local[u] <= adds.local[w] {
      assert adds.local[w] == Count(prog, Add, proc[w]) && adds.local[u] == Count(prog, Add, proc[u]);
      NobodyAhead(prog, proc, w, u);
    }
  }

  /** The requests of worker w in a cache, in order. */
  ghost function Of(cache: seq<Msg>, w: nat): seq<Msg> {
    if cache == [] then []
    else
      var m := cache[|cache| - 1];
      Of(cache[..|cache| - 1], w) + if m.worker == w then [m] else []
  }

  ghost function Range(w: nat, lo: nat, hi: nat): (r: seq<Msg>)
    requires lo <= hi
    ensures |r| == hi - lo && forall j {:trigger r[j]} :: 0 <= j < |r| ==> r[j] == Msg(w, lo + j)
  {
    seq(hi - lo, j requires 0 <= j => Msg(w, lo + j))
  }

  lemma {:induction false} OfAppend(cache: seq<Msg>, m: Msg, w: nat)
    ensures Of(cache + [m], w) == Of(cache, w) + if m.worker == w then [m] else []
  {
    assert (cache + [m])[..|cache|] == cache;
  }

  lemma {:induction false} OfHead(cache: seq<Msg>, w: nat)
    requires cache != []
    ensures Of(cache, w) == (if cache[0].worker == w then [cache[0]] else []) + Of(cache[1..], w)
    decreases |cache|
  {
    var k := |cache| - 1;
    if k == 0 {
    } else {
      OfHead(cache[..k], w);
      assert cache[1..][..k - 1] == cache[..k][1..];
      assert cache[1..][k - 1] == cache[k];
    }
  }

  /** A cache that holds something of nobody is empty. */
  lemma {:induction false} OfNobody(cache: seq<Msg>, n: nat)
    requires forall i {:trigger cache[i]} :: 0 <= i < |cache| ==> cache[i].worker < n
    requires forall w: nat {:trigger Of(cache, w)} :: w < n ==> Of(cache, w) == []
    ensures cache == []
  {
    if cache != [] {
      OfHead(cache, cache[0].worker);
    }
  }

  /** Of the requests received from worker w, the first were handled, the next are Adds in the Add cache, and
      there may be one last Get in the Get cache. */
  ghost predicate Queued(prog: seq<Op>, s: State, received: seq<nat>, w: nat)
    requires Sized(s, |received|) && w < |received|
  {
    var p := Proc(s.gets, s.adds)[w];
    var k := p + s.waited[w];
    && p <= k <= received[w] <= |prog|
    && Of(s.addCache, w) == Range(w, p, k)
    && (forall j {:trigger prog[j]} :: p <= j < k ==> prog[j] == Add)
    && Of(s.getCache, w) == Range(w, k, received[w])
    && (received[w] == k || (received[w] == k + 1 && prog[k] == Get))
  }

  ghost predicate AllQueued(prog: seq<Op>, s: State, received: seq<nat>)
    requires Sized(s, |received|)
  {
    forall w: nat {:trigger Queued(prog, s, received, w)} :: w < |received| ==> Queued(prog, s, received, w)
  }

  ghost predicate AddsAhead(s: State)
    requires Sized(s, |s.waited|)
  {
    forall w: nat {:trigger s.waited[w]} :: w < |s.waited| && s.waited[w] > 0 ==> AddMustWait(s, w)
  }

  ghost predicate GetsAhead(s: State)
    requires Sized(s, |s.waited|)
  {
    forall w: nat {:trigger Of(s.getCache, w)} :: w < |s.waited| && Of(s.getCache, w) != [] ==> GetMustWait(s, w)
  }

  ghost predicate Consistent(prog: seq<Op>, s: State, received: seq<nat>) {
    && Sized(s, |received|) && !s.failed
    && Core(prog, s.gets, s.adds, s.handled)
    && AllQueued(prog, s, received)
  }

  /** The state between two messages. */
  ghost predicate Good(prog: seq<Op>, s: State, received: seq<nat>) {
    Consistent(prog, s, received) && AddsAhead(s) && GetsAhead(s)
  }

  ghost predicate NoLess(s: State, r: State)
    requires Sized(s, |s.waited|) && Sized(r, |s.waited|)
  {
    forall w: nat {:trigger Proc(r.gets, r.adds)[w]} :: w < |s.waited| ==>
      Proc(s.gets, s.adds)[w] <= Proc(r.gets, r.adds)[w]
  }

  /** While cached Gets are served: all workers' Adds are level, and v holds the Get clock back. */
  ghost predicate ServingGets(prog: seq<Op>, s: State, received: seq<nat>, v: nat) {
    && Consistent(prog, s, received)
    && s.addCache == [] && AllReached(s.adds)
    && v < |received| && s.gets.local[v] == s.gets.global && Of(s.getCache, v) == []
  }

  /** Serving the first cached Get leaves worker u's queues in order. */
  lemma {:induction false} ServeQueued(prog: seq<Op>, s: State, received: seq<nat>, u: nat)
    requires Sized(s, |received|) && s.getCache != [] && s.addCache == [] && u < |received|
    requires Queued(prog, s, received, u)
    requires var r := ServeCachedGet(s); var w := s.getCache[0].worker;
             Proc(r.gets, r.adds) == Proc(s.gets, s.adds)[w := Proc(s.gets, s.adds)[w] + 1]
    ensures Queued(prog, ServeCachedGet(s), received, u)
  {
    hide Tick;
    var r := ServeCachedGet(s);
    OfHead(s.getCache, u);
    assert |Of(s.addCache, u)| == 0;
    assert Of(r.getCache, u) == Of(s.getCache, u)[if s.getCache[0].worker == u then 1 else 0..];
  }

  /** The first cached Get is its worker's next request. */
  lemma {:induction false} FirstGet(prog: seq<Op>, s: State, received: seq<nat>)
    requires Sized(s, |received|) && s.getCache != [] && s.addCache == []
    requires Queued(prog, s, received, s.getCache[0].worker)
    ensures var w := s.getCache[0].worker; var p := Proc(s.gets, s.adds)[w];
            p < |prog| && prog[p] == Get && s.getCache[0] == Msg(w, p)
  {
    var w := s.getCache[0].worker;
    OfHead(s.getCache, w);
    assert |Of(s.addCache, w)| == 0;
    assert Of(s.getCache, w)[0] == s.getCache[0];
  }

  lemma {:induction false} ServeStep(prog: seq<Op>, s: State, received: seq<nat>, v: nat)
    requires ServingGets(prog, s, received, v) && s.getCache != []
    ensures ServingGets(prog, ServeCachedGet(s), received, v) && NoLess(s, ServeCachedGet(s))
  {
    hide Core, InStep, Tick, Queued, Of, Proc;
    var r, w := ServeCachedGet(s), s.getCache[0].worker;
    FirstGet(prog, s, received);
    OfHead(s.getCache, w);
    OfHead(s.getCache, v);
    assert s.adds.local[w] <= s.adds.global;
    CoreInStep(prog, s.gets, s.adds, s.handled);
    CoreGet(prog, s.gets, s.adds, s.handled, w);
    TickHeldBack(s.gets, w, v);
    forall u: nat | u < |received| ensures Queued(prog, r, received, u) {
      ServeQueued(prog, s, received, u);
    }
  }

  lemma {:induction false} NoLessTrans(s: State, t: State, r: State)
    requires Sized(s, |s.waited|) && Sized(t, |s.waited|) && Sized(r, |s.waited|) && NoLess(s, t) && NoLess(t, r)
    ensures NoLess(s, r)
  {
    forall w: nat | w < |s.waited| ensures Proc(s.gets, s.adds)[w] <= Proc(r.gets, r.adds)[w] {
      assert Proc(t.gets, t.adds)[w] <= Proc(r.gets, r.adds)[w];
    }
  }

  lemma {:induction false} ServeAll(prog: seq<Op>, s: State, received: seq<nat>, v: nat)
    requires ServingGets(prog, s, received, v)
    ensures ServingGets(prog, DrainGets(s), received, v) && NoLess(s, DrainGets(s)) && DrainGets(s).getCache == []
    decreases |s.getCache|
  {
    hide Core, Queued, Of, Proc, Tick;
    if s.getCache == [] {
    } else {
      ServeStep(prog, s, received, v);
      ServeAll(prog, ServeCachedGet(s), received, v);
      NoLessTrans(s, ServeCachedGet(s), DrainGets(s));
    }
  }

  /** While cached Adds are applied: all workers' Gets are level, and v holds the Add clock back. */
  ghost predicate ApplyingAdds(prog: seq<Op>, s: State, received: seq<nat>, v: nat) {
    && Consistent(prog, s, received) && GetsAhead(s)
    && AllReached(s.gets)
    && v < |received| && s.adds.local[v] == s.adds.global && Of(s.addCache, v) == []
  }

  /** Applying the first cached Add leaves worker u's queues in order. */
  lemma {:induction false} ApplyQueued(prog: seq<Op>, s: State, received: seq<nat>, u: nat)
    requires Sized(s, |received|) && s.addCache != [] && u < |received|
    requires Queued(prog, s, received, u) && !ApplyCachedAdd(s).failed
    requires var r := ApplyCachedAdd(s); var w := s.addCache[0].worker;
             Proc(r.gets, r.adds) == Proc(s.gets, s.adds)[w := Proc(s.gets, s.adds)[w] + 1]
    ensures Queued(prog, ApplyCachedAdd(s), received, u)
  {
    hide Tick;
    var r := ApplyCachedAdd(s);
    OfHead(s.addCache, u);
    assert Of(r.addCache, u) == Of(s.addCache, u)[if s.addCache[0].worker == u then 1 else 0..];
  }

  /** The first cached Add is its worker's next request. */
  lemma {:induction false} FirstAdd(prog: seq<Op>, s: State, received: seq<nat>)
    requires Sized(s, |received|) && s.addCache != []
    requires Queued(prog, s, received, s.addCache[0].worker)
    ensures var w := s.addCache[0].worker; var p := Proc(s.gets, s.adds)[w];
            p < |prog| && prog[p] == Add && s.addCache[0] == Msg(w, p) && s.waited[w] > 0
  {
    var w := s.addCache[0].worker;
    OfHead(s.addCache, w);
    assert Of(s.addCache, w)[0] == s.addCache[0];
  }

  /** A worker whose Get waits has, once one of its Adds is applied, its Adds ahead. */
  lemma {:induction false} ApplyGetsAhead(s: State, v: nat)
    requires Sized(s, |s.waited|) && s.addCache != [] && GetsAhead(s) && v < |s.waited|
    requires var w := s.addCache[0].worker;
             ApplyCachedAdd(s).adds == Clock(s.adds.local[w := s.adds.local[w] + 1], s.adds.global)
    requires var w := s.addCache[0].worker; s.adds.global <= s.adds.local[w]
    ensures GetsAhead(ApplyCachedAdd(s))
  {
    hide Tick;
    var r := ApplyCachedAdd(s);
    forall u: nat | u < |r.waited| && Of(r.getCache, u) != [] ensures GetMustWait(r, u) {
      assert r.getCache == s.getCache;
      assert GetMustWait(s, u);
    }
  }

  lemma {:induction false} ApplyStep(prog: seq<Op>, s: State, received: seq<nat>, v: nat)
    requires ApplyingAdds(prog, s, received, v) && s.addCache != []
    ensures ApplyingAdds(prog, ApplyCachedAdd(s), received, v) && NoLess(s, ApplyCachedAdd(s))
  {
    hide Core, Tick, Queued, Of, Proc, GetsAhead;
    var r, w := ApplyCachedAdd(s), s.addCache[0].worker;
    FirstAdd(prog, s, received);
    OfHead(s.addCache, w);
    OfHead(s.addCache, v);
    assert s.gets.local[w] <= s.gets.global;
    CoreInStep(prog, s.gets, s.adds, s.handled);
    CoreAdd(prog, s.gets, s.adds, s.handled, w);
    TickHeldBack(s.adds, w, v);
    ApplyGetsAhead(s, v);
    forall u: nat | u < |received| ensures Queued(prog, r, received, u) {
      ApplyQueued(prog, s, received, u);
    }
  }

  lemma {:induction false} ApplyAll(prog: seq<Op>, s: State, received: seq<nat>, v: nat)
    requires ApplyingAdds(prog, s, received, v)
    ensures ApplyingAdds(prog, DrainAdds(s), received, v) && NoLess(s, DrainAdds(s)) && DrainAdds(s).addCache == []
    decreases |s.addCache|
  {
    hide Core, Queued, Of, Proc, Tick, GetsAhead;
    if s.addCache == [] {
    } else {
      ApplyStep(prog, s, received, v);
      ApplyAll(prog, ApplyCachedAdd(s), received, v);
      NoLessTrans(s, ApplyCachedAdd(s), DrainAdds(s));
    }
  }
}
