/** A server whose synchronous scheduler does not get the same requests from all workers, say because their keys live
    on different servers. */
module UnevenWorkers {
  import opened VectorClock
  import opened SyncScheduler
  import opened Lockstep
  import opened SyncState

  /** The requests that arrive are handled one after the other, until a check fails. */
  ghost function Fed(s: State, requests: seq<Event>): (r: State)
    requires Sized(s, |s.waited|)
    requires forall i {:trigger requests[i]} :: 0 <= i < |requests| ==> requests[i].msg.worker < |s.waited|
    ensures Sized(r, |s.waited|) && |r.waited| == |s.waited|
    decreases |requests|
  {
    if requests == [] then s
    else
      var last := |requests| - 1;
      var before := Fed(s, requests[..last]);
      if before.failed then before
      else if requests[last].op == Add then AfterAdd(before, requests[last].msg)
      else AfterGet(before, requests[last].msg)
  }

  /** Worker u has sent an Add. */
  ghost predicate Adds(requests: seq<Event>, u: nat) {
    exists i :: 0 <= i < |requests| && requests[i].op == Add && requests[i].msg.worker == u
  }

  /** Worker u sent a Get before any Add. */
  ghost predicate GetFirst(requests: seq<Event>, u: nat) {
    exists i :: 0 <= i < |requests| && requests[i].op == Get && requests[i].msg.worker == u && !Adds(requests[..i], u)
  }

  /** A Get is answered when its worker sent no Add before; an Add is applied unless its worker began with a Get. */
  ghost predicate Passes(before: seq<Event>, e: Event) {
    if e.op == Get then !Adds(before, e.msg.worker) else !GetFirst(before, e.msg.worker)
  }

  ghost function Passed(requests: seq<Event>): seq<Event> {
    if requests == [] then []
    else
      var last := |requests| - 1;
      Passed(requests[..last]) + if Passes(requests[..last], requests[last]) then [requests[last]] else []
  }

  ghost function Stopped(requests: seq<Event>, op: Op): seq<Msg> {
    if requests == [] then []
    else
      var e, before := requests[|requests| - 1], requests[..|requests| - 1];
      Stopped(before, op) + if e.op == op && !Passes(before, e) then [e.msg] else []
  }

  lemma {:induction false} AddsMore(before: seq<Event>, e: Event, u: nat)
    ensures Adds(before + [e], u) <==> Adds(before, u) || (e.op == Add && e.msg.worker == u)
  {
    var more := before + [e];
    if Adds(before, u) {
      var i :| 0 <= i < |before| && before[i].op == Add && before[i].msg.worker == u;
      assert more[i] == before[i];
    }
    assert more[|before|] == e;
  }

  lemma {:induction false} GetFirstMore(before: seq<Event>, e: Event, u: nat)
    ensures GetFirst(before + [e], u) <==>
            GetFirst(before, u) || (e.op == Get && e.msg.worker == u && !Adds(before, u))
  {
    hide Adds;
    var more := before + [e];
    forall i | 0 <= i <= |before|
      ensures more[..i] == before[..i]
    {
    }
    assert before[..|before|] == before;
    if GetFirst(before, u) {
      var i :| 0 <= i < |before| && before[i].op == Get && before[i].msg.worker == u && !Adds(before[..i], u);
      assert more[i] == before[i];
    }
    assert more[|before|] == e;
  }

  /** All clocks wait for worker v, which has done nothing. */
  ghost predicate Waits(n: nat, v: nat, requests: seq<Event>, s: State) {
    && v < n && Sized(s, n) && !s.failed
    && s.adds.global == s.gets.global == s.adds.local[v] == s.gets.local[v] == 0
    && (forall u: nat {:trigger s.gets.local[u]} :: u < n ==> (s.gets.local[u] > 0 <==> GetFirst(requests, u)))
    && (forall u: nat {:trigger s.adds.local[u]} {:trigger s.waited[u]} :: u < n ==>
         s.waited[u] >= 0 && (s.adds.local[u] > 0 || s.waited[u] > 0 <==> Adds(requests, u)))
  }

  lemma {:induction false} HeldBack(c: Clock, u: nat, v: nat)
    requires u < |c.local| && v < |c.local| && v != u && c.global == c.local[v] == 0
    ensures Tick(c, u) == (Clock(c.local[u := c.local[u] + 1], 0), false)
  {
    assert IsMin(c.local, 0);
    TickHeldBack(c, u, v);
  }

  lemma {:induction false} WaitsStep(n: nat, v: nat, before: seq<Event>, s: State, e: Event)
    requires Waits(n, v, before, s) && e.msg.worker < n && e.msg.worker != v
    ensures var r := if e.op == Add then AfterAdd(s, e.msg) else AfterGet(s, e.msg);
      && Waits(n, v, before + [e], r)
      && r.handled == s.handled + (if Passes(before, e) then [e] else [])
      && r.addCache == s.addCache + (if e.op == Add && !Passes(before, e) then [e.msg] else [])
      && r.getCache == s.getCache + (if e.op == Get && !Passes(before, e) then [e.msg] else [])
  {
    hide Tick, Adds, GetFirst, DrainAdds, DrainGets;
    HeldBack(s.adds, e.msg.worker, v);
    HeldBack(s.gets, e.msg.worker, v);
    forall u: nat | u < n
      ensures Adds(before + [e], u) <==> Adds(before, u) || (e.op == Add && e.msg.worker == u)
      ensures GetFirst(before + [e], u) <==>
              GetFirst(before, u) || (e.op == Get && e.msg.worker == u && !Adds(before, u))
    {
      AddsMore(before, e, u);
      GetFirstMore(before, e, u);
    }
  }

  /** When worker v sends nothing, the others' Gets are answered exactly when their worker sent no Add before, and their
      Adds are applied exactly when it did not begin with a Get; all else stays in the caches for ever. */
  lemma {:induction false} OthersWait(n: nat, v: nat, requests: seq<Event>)
    requires v < n
    requires forall i {:trigger requests[i]} :: 0 <= i < |requests| ==>
               requests[i].msg.worker < n && requests[i].msg.worker != v
    ensures |Fresh(n).waited| == n
    ensures var s := Fed(Fresh(n), requests);
      && Waits(n, v, requests, s) && s.handled == Passed(requests)
      && s.addCache == Stopped(requests, Add) && s.getCache == Stopped(requests, Get)
    decreases |requests|
  {
    hide Waits, AfterAdd, AfterGet, Passes;
    if requests == [] {
      NobodyYet(n, v);
    } else {
      var last := |requests| - 1;
      var before, e := requests[..last], requests[last];
      assert requests == before + [e];
      OthersWait(n, v, before);
      NotFailed(n, v, before, Fed(Fresh(n), before));
      WaitsStep(n, v, before, Fed(Fresh(n), before), e);
    }
  }

  lemma {:induction false} NotFailed(n: nat, v: nat, requests: seq<Event>, s: State)
    requires Waits(n, v, requests, s)
    ensures !s.failed
  {
  }

  lemma {:induction false} NobodyYet(n: nat, v: nat)
    requires v < n
    ensures Waits(n, v, [], Fresh(n))
  {
  }

  // ---- more Adds than another worker sends ----

  /** Every Add that arrived is applied or in the cache. */
  ghost predicate Counted(n: nat, requests: seq<Event>, s: State) {
    && n > 0 && Sized(s, n) && InStep(s.adds)
    && forall u: nat {:trigger s.adds.local[u]} {:trigger s.waited[u]} :: u < n ==>
         s.waited[u] == |Of(s.addCache, u)| && s.adds.local[u] + s.waited[u] == |Pick(requests, Add, u)|
  }

  /** No more Adds were applied of anybody than all workers have sent. */
  lemma {:induction false} GlobalIsLeast(n: nat, requests: seq<Event>, s: State, v: nat)
    requires Counted(n, requests, s) && v < n
    ensures s.adds.global <= |Pick(requests, Add, v)|
  {
    assert s.adds.global <= s.adds.local[v];
    assert s.waited[v] >= 0;
  }

  lemma {:induction false} PickMore(before: seq<Event>, e: Event, u: nat)
    ensures Pick(before + [e], Add, u) ==
            Pick(before, Add, u) + if e.op == Add && e.msg.worker == u then [e.msg] else []
  {
    assert (before + [e])[..|before|] == before;
  }

  lemma {:induction false} ApplyCounted(n: nat, requests: seq<Event>, s: State)
    requires Counted(n, requests, s) && s.addCache != []
    ensures !ApplyCachedAdd(s).failed ==> Counted(n, requests, ApplyCachedAdd(s))
  {
    hide Tick, InStep, Pick, Of;
    var w := s.addCache[0].worker;
    TickInStep(s.adds, w);
    forall u: nat | u < n
      ensures |Of(s.addCache, u)| == |Of(s.addCache[1..], u)| + if w == u then 1 else 0
    {
      OfHead(s.addCache, u);
    }
  }

  /** Applying cached Adds answers no Get. */
  lemma {:induction false} DrainAddsCounted(n: nat, requests: seq<Event>, s: State, m: Msg)
    requires Counted(n, requests, s) && Event(Get, m) !in s.handled
    ensures var r := DrainAdds(s);
      && (r.failed || Counted(n, requests, r)) && Event(Get, m) !in r.handled && r.getCache == s.getCache
    decreases |s.addCache|
  {
    hide Tick, Counted;
    assert Sized(s, n) by { CountedSized(n, requests, s); }
    if s.addCache == [] || s.failed {
    } else {
      ApplySized(s);
      ApplyCounted(n, requests, s);
      var r := ApplyCachedAdd(s);
      if r.failed {
        assert DrainAdds(r) == r;
      } else {
        DrainAddsCounted(n, requests, r, m);
      }
    }
  }

  lemma {:induction false} CountedSized(n: nat, requests: seq<Event>, s: State)
    requires Counted(n, requests, s)
    ensures Sized(s, n) && |s.waited| == n
  {
  }

  /** Serving cached Gets answers only those in the cache. */
  lemma {:induction false} DrainGetsOf(s: State, m: Msg)
    requires Sized(s, |s.waited|) && Event(Get, m) !in s.handled && m !in s.getCache
    ensures var r := DrainGets(s);
      && r.adds == s.adds && r.waited == s.waited && r.addCache == s.addCache
      && Event(Get, m) !in r.handled && m !in r.getCache
    decreases |s.getCache|
  {
    hide Tick;
    if s.getCache == [] || s.failed {
    } else {
      ServeSized(s);
      DrainGetsOf(ServeCachedGet(s), m);
    }
  }

  /** What is known of a Get that comes too late for its worker's Adds. */
  ghost predicate Unanswered(n: nat, requests: seq<Event>, s: State, m: Msg) {
    && Event(Get, m) !in s.handled
    && (s.failed || (Counted(n, requests, s) && (Event(Get, m) !in requests ==> m !in s.getCache)))
  }

  lemma {:induction false} AddArrives(n: nat, v: nat, before: seq<Event>, s: State, a: Msg, m: Msg)
    requires Counted(n, before, s) && !s.failed && v < n && a.worker < n && m.worker < n
    requires Unanswered(n, before, s, m)
    requires Event(Get, m) in before ==> |Pick(before, Add, m.worker)| > |Pick(before + [Event(Add, a)], Add, v)|
    ensures Unanswered(n, before + [Event(Add, a)], AfterAdd(s, a), m)
  {
    hide Tick, InStep, Pick, Of, DrainGets;
    var w := a.worker;
    TickInStep(s.adds, w);
    forall u: nat | u < n
      ensures Pick(before + [Event(Add, a)], Add, u) == Pick(before, Add, u) + if w == u then [a] else []
      ensures Of(s.addCache + [a], u) == Of(s.addCache, u) + if w == u then [a] else []
    {
      PickMore(before, Event(Add, a), u);
      OfAppend(s.addCache, a, u);
    }
    var (adds, all) := Tick(s.adds, w);
    var t := s.(adds := adds, handled := s.handled + [Event(Add, a)]);
    if !AddMustWait(s, w) && all && s.addCache == [] {
      if Event(Get, m) in before {
        LevelAdds(n, before + [Event(Add, a)], t, v, m.worker);
      } else {
        DrainGetsOf(t, m);
      }
    }
  }

  /** When all Add counts are equal and none is in the cache, the workers have sent the same number of Adds. */
  lemma {:induction false} LevelAdds(n: nat, requests: seq<Event>, s: State, v: nat, u: nat)
    requires Counted(n, requests, s) && AllReached(s.adds) && s.addCache == [] && v < n && u < n
    ensures |Pick(requests, Add, u)| == |Pick(requests, Add, v)|
  {
    assert s.adds.local[u] == s.adds.local[v];
    assert s.waited[u] == s.waited[v] == 0;
  }

  lemma {:induction false} GetArrives(n: nat, v: nat, before: seq<Event>, s: State, g: Msg, m: Msg)
    requires Counted(n, before, s) && !s.failed && v < n && g.worker < n
    requires Unanswered(n, before, s, m)
    requires g == m ==> |Pick(before, Add, m.worker)| > |Pick(before, Add, v)|
    ensures Unanswered(n, before + [Event(Get, g)], AfterGet(s, g), m)
  {
    hide Tick, InStep, Pick, Of, DrainAdds;
    var w := g.worker;
    forall u: nat | u < n
      ensures Pick(before + [Event(Get, g)], Add, u) == Pick(before, Add, u)
    {
      PickMore(before, Event(Get, g), u);
    }
    GlobalIsLeast(n, before, s, v);
    assert g == m ==> GetMustWait(s, w);
    var (gets, all) := Tick(s.gets, w);
    var t := s.(gets := gets, handled := s.handled + [Event(Get, g)]);
    if !GetMustWait(s, w) {
      assert Counted(n, before + [Event(Get, g)], t);
      if all {
        DrainAddsCounted(n, before + [Event(Get, g)], t, m);
      }
    }
  }

  lemma {:induction false} StartCounted(n: nat)
    requires n > 0
    ensures Counted(n, [], Fresh(n))
  {
    assert Fresh(n).adds.local[0] == 0;
  }

  lemma {:induction false} PickPrefix(requests: seq<Event>, u: nat, i: nat, j: nat)
    requires i <= j <= |requests|
    ensures |Pick(requests[..i], Add, u)| <= |Pick(requests[..j], Add, u)|
    decreases j
  {
    if i < j {
      assert requests[..j][..j - 1] == requests[..j - 1];
      PickPrefix(requests, u, i, j - 1);
    }
  }

  /** If some worker sends the server fewer Adds in all than another has sent before one of its Gets, that Get is never
      answered. */
  lemma {:induction false} NeverAnswered(n: nat, v: nat, requests: seq<Event>, i: nat)
    requires v < n && forall k {:trigger requests[k]} :: 0 <= k < |requests| ==> requests[k].msg.worker < n
    requires i < |requests| && requests[i].op == Get
    requires forall k {:trigger requests[k]} :: 0 <= k < |requests| && requests[k] == requests[i] ==> k == i
    requires |Pick(requests, Add, v)| < |Pick(requests[..i], Add, requests[i].msg.worker)|
    ensures |Fresh(n).waited| == n
    ensures requests[i] !in Fed(Fresh(n), requests).handled
  {
    assert requests[..|requests|] == requests;
    NeverUpTo(n, v, requests, i, |requests|);
  }

  lemma {:induction false} NeverUpTo(n: nat, v: nat, requests: seq<Event>, i: nat, j: nat)
    requires v < n && forall k {:trigger requests[k]} :: 0 <= k < |requests| ==> requests[k].msg.worker < n
    requires i < |requests| && requests[i].op == Get && j <= |requests|
    requires forall k {:trigger requests[k]} :: 0 <= k < |requests| && requests[k] == requests[i] ==> k == i
    requires |Pick(requests, Add, v)| < |Pick(requests[..i], Add, requests[i].msg.worker)|
    ensures |Fresh(n).waited| == n && Unanswered(n, requests[..j], Fed(Fresh(n), requests[..j]), requests[i].msg)
    decreases j
  {
    hide Unanswered, AfterAdd, AfterGet, Pick, Counted;
    if j == 0 {
      StartCounted(n);
      NothingAnswered(n, requests[i].msg);
    } else {
      var before, e, m := requests[..j - 1], requests[j - 1], requests[i].msg;
      NeverUpTo(n, v, requests, i, j - 1);
      assert requests[..j] == before + [e] && requests[..j][..j - 1] == before;
      var s := Fed(Fresh(n), before);
      if s.failed {
        StillUnanswered(n, before, requests[..j], s, m);
      } else {
        StillCounted(n, before, s, m);
        PickPrefix(requests, v, j - 1, |requests|);
        PickPrefix(requests, v, j, |requests|);
        assert requests[..|requests|] == requests;
        if i <= j - 1 {
          PickPrefix(requests, m.worker, i, j - 1);
        }
        if e.op == Add {
          AddArrives(n, v, before, s, e.msg, m);
        } else {
          GetArrives(n, v, before, s, e.msg, m);
        }
      }
    }
  }

  lemma {:induction false} NothingAnswered(n: nat, m: Msg)
    requires Counted(n, [], Fresh(n))
    ensures Unanswered(n, [], Fresh(n), m)
  {
  }

  lemma {:induction false} StillUnanswered(n: nat, before: seq<Event>, requests: seq<Event>, s: State, m: Msg)
    requires Unanswered(n, before, s, m) && s.failed
    ensures Unanswered(n, requests, s, m)
  {
  }

  lemma {:induction false} StillCounted(n: nat, requests: seq<Event>, s: State, m: Msg)
    requires Unanswered(n, requests, s, m) && !s.failed
    ensures Counted(n, requests, s)
  {
  }
}
