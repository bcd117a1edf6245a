/** Why workers have to wait when messages may overtake each other: a Get sent directly behind an Add, without waiting
    for it, can be answered before the Add is applied, and then the other workers' Gets are never answered. */
module OvertakenAdds {
  import opened VectorClock
  import opened SyncScheduler
  import opened Lockstep
  import opened SyncState
  import opened Overtaking
  import P = SyncProtocol

  // ---- a blocked scheduler stays blocked ----

  /** Worker w got ahead in Gets and its Adds are held back; all others are ahead in Adds, and wait for w's. */
  ghost predicate Blocked(s: State, w: nat, a: nat, g: nat) {
    && Sized(s, |s.waited|) && w < |s.waited| && |s.waited| >= 2
    && s.adds.global == a == s.adds.local[w] && s.gets.global == g < s.gets.local[w] && s.waited[w] >= 0
    && forall u {:trigger s.adds.local[u]} {:trigger s.gets.local[u]} :: 0 <= u < |s.waited| && u != w ==>
         s.adds.local[u] > a && s.gets.local[u] == g
  }

  lemma {:induction false} BlockedInStep(s: State, w: nat, a: nat, g: nat) returns (v: nat)
    requires Blocked(s, w, a, g)
    ensures InStep(s.adds) && InStep(s.gets)
    ensures v < |s.waited| && v != w && s.gets.local[v] == g
  {
    v := if w == 0 then 1 else 0;
    assert s.gets.local[v] == g;
  }

  /** Whatever arrives, the scheduler stays blocked and applies no Add of w. */
  lemma {:induction false} StaysBlocked(prog: seq<Op>, s: State, w: nat, a: nat, g: nat, m: Msg)
    requires Blocked(s, w, a, g) && m.worker < |s.waited| && m.idx < |prog|
    ensures Blocked(Handle(prog, s, m), w, a, g)
    ensures var r := Handle(prog, s, m);
      r.handled == s.handled ||
      (r.handled == s.handled + [Event(prog[m.idx], m)] && (m.worker == w ==> prog[m.idx] == Get))
  {
    hide Tick, InStep, DrainGets, DrainAdds;
    var u := m.worker;
    var v := BlockedInStep(s, w, a, g);
    if prog[m.idx] == Add {
      if u != w {
        assert s.gets.local[u] == g;
        TickHeldBack(s.adds, u, w);
      }
    } else if u == w {
      TickHeldBack(s.gets, w, v);
    } else {
      assert s.adds.local[u] > a;
    }
  }

  /** The Add at place t of worker w is not applied. */
  ghost predicate NotApplied(s: State, w: nat, t: nat) {
    forall i {:trigger s.handled[i]} :: 0 <= i < |s.handled| ==> s.handled[i] != Event(Add, Msg(w, t))
  }

  lemma {:induction false} StepBlocked(prog: seq<Op>, rules: Rules, y: Sys, y': Sys, w: nat, a: nat, g: nat, t: nat)
    requires Next(prog, rules, y, y') && Blocked(y.sched, w, a, g) && NotApplied(y.sched, w, t)
    ensures Blocked(y'.sched, w, a, g) && NotApplied(y'.sched, w, t)
  {
    hide Blocked, Handle, MaySend;
    if v: nat :| Sends(prog, rules, y, y', v) {
    } else {
      var v: nat, j: nat :| Delivers(prog, rules, y, y', v, j);
      StaysBlocked(prog, y.sched, w, a, g, Msg(v, y.underway[v][j]));
    }
  }

  /** Nothing that follows completes the program. */
  lemma {:induction false} BlockedForEver(prog: seq<Op>, n: nat, rules: Rules, run: seq<Sys>, k: nat, w: nat, a: nat,
                                          g: nat, t: nat)
    requires IsRun(prog, n, rules, run) && 0 < k <= |run| && w < n && t < |prog| && prog[t] == Add
    requires Blocked(run[k - 1].sched, w, a, g) && NotApplied(run[k - 1].sched, w, t)
    ensures Blocked(run[|run| - 1].sched, w, a, g) && NotApplied(run[|run| - 1].sched, w, t)
    ensures !Complete(prog, n, run[|run| - 1])
    decreases |run|
  {
    hide Next, Blocked;
    if k == |run| {
    } else {
      RunPrefix(prog, n, rules, run);
      BlockedForEver(prog, n, rules, run[..|run| - 1], k, w, a, g, t);
      StepBlocked(prog, rules, run[|run| - 2], run[|run| - 1], w, a, g, t);
    }
    NeverDone(prog, n, run[|run| - 1], w, t);
  }

  lemma {:induction false} NeverDone(prog: seq<Op>, n: nat, y: Sys, w: nat, t: nat)
    requires w < n && t < |prog| && prog[t] == Add && NotApplied(y.sched, w, t)
    ensures !Complete(prog, n, y)
  {
    if Complete(prog, n, y) {
      AppliedOnce(prog, n, y, w, t);
    }
  }

  lemma {:induction false} AppliedOnce(prog: seq<Op>, n: nat, y: Sys, w: nat, t: nat)
    requires Complete(prog, n, y) && w < n && t < |prog|
    ensures exists i :: 0 <= i < |y.sched.handled| && y.sched.handled[i] == Event(prog[t], Msg(w, t))
  {
    assert Times(y.sched.handled, Msg(w, t)) == 1;
    var i := SomeTime(y.sched.handled, Msg(w, t));
    assert y.sched.handled[i] == Event(prog[t], Msg(w, t));
  }

  lemma {:induction false} SomeTime(log: seq<Event>, m: Msg) returns (i: nat)
    requires Times(log, m) > 0
    ensures i < |log| && log[i].msg == m
    decreases |log|
  {
    if log[|log| - 1].msg == m {
      i := |log| - 1;
    } else {
      i := SomeTime(log[..|log| - 1], m);
    }
  }

  // ---- all workers at one place ----

  /** Every worker has had its first t requests handled, and nothing more was sent. */
  ghost predicate AtPlace(prog: seq<Op>, n: nat, y: Sys, t: nat, a: nat, g: nat) {
    && |y.sent| == |y.underway| == n && Sized(y.sched, n) && !y.sched.failed && t <= |prog|
    && y.sched.addCache == [] && y.sched.getCache == [] && y.sched.adds.global == a && y.sched.gets.global == g
    && (forall w: nat {:trigger WorkerAt(prog, y, w, t, a, g)} :: w < n ==> WorkerAt(prog, y, w, t, a, g))
    && forall i {:trigger y.sched.handled[i]} :: 0 <= i < |y.sched.handled| ==> y.sched.handled[i].msg.idx < t
  }

  ghost predicate WorkerAt(prog: seq<Op>, y: Sys, w: nat, t: nat, a: nat, g: nat)
    requires w < |y.sent| == |y.underway| && Sized(y.sched, |y.sent|) && t <= |prog|
  {
    && y.sent[w] == t && y.underway[w] == [] && y.sched.waited[w] == 0
    && y.sched.adds.local[w] == a && y.sched.gets.local[w] == g
    && |Pick(y.sched.handled, Get, w)| == Count(prog, Get, t)
  }

  lemma {:induction false} CountPrefix(prog: seq<Op>, op: Op, t: nat, s: nat)
    requires s <= t <= |prog|
    ensures Count(prog[..t], op, s) == Count(prog, op, s)
  {
    if s == 0 {
    } else {
      CountPrefix(prog, op, t, s - 1);
    }
  }

  /** What happens with the first requests only happens with all of them. */
  lemma {:induction false} LongerStep(prog: seq<Op>, rules: Rules, t: nat, y: Sys, y': Sys)
    requires t <= |prog| && Next(prog[..t], rules, y, y')
    ensures Next(prog, rules, y, y')
  {
    hide AfterAdd, AfterGet, Pick;
    var front := prog[..t];
    if w: nat :| Sends(front, rules, y, y', w) {
      CountPrefix(prog, Get, t, y.sent[w]);
      CountPrefix(prog, Add, t, y.sent[w]);
      assert Sends(prog, rules, y, y', w);
    } else {
      var w: nat, j: nat :| Delivers(front, rules, y, y', w, j);
      assert y.underway[w][j] < t;
      assert Delivers(prog, rules, y, y', w, j);
    }
  }

  lemma {:induction false} LongerProgram(prog: seq<Op>, n: nat, rules: Rules, t: nat, run: seq<Sys>)
    requires t <= |prog| && IsRun(prog[..t], n, rules, run)
    ensures IsRun(prog, n, rules, run)
  {
    hide Next;
    forall k | 0 < k < |run|
      ensures Next(prog, rules, run[k - 1], run[k])
    {
      assert Next(prog[..t], rules, run[k - 1], run[k]);
      LongerStep(prog, rules, t, run[k - 1], run[k]);
    }
  }

  /** Some run brings all workers to the first place where they do not wait. */
  lemma {:induction false} ReachPlace(prog: seq<Op>, n: nat, rules: Rules, t: nat) returns (run: seq<Sys>)
    requires n > 0 && t <= |prog| && Careful(prog[..t], rules)
    ensures IsRun(prog, n, rules, run)
    ensures AtPlace(prog, n, run[|run| - 1], t, Count(prog, Add, t), Count(prog, Get, t))
  {
    var start := Sys(Fresh(n), seq(n, _ => 0), seq(n, _ => []));
    run := ToTheEnd(prog[..t], n, rules, [start]);
    NoDeadlock(prog[..t], n, rules, run);
    PlaceReached(prog, n, rules, t, run);
    LongerProgram(prog, n, rules, t, run);
  }

  lemma {:induction false} PlaceReached(prog: seq<Op>, n: nat, rules: Rules, t: nat, run: seq<Sys>)
    requires n > 0 && t <= |prog| && Careful(prog[..t], rules) && IsRun(prog[..t], n, rules, run)
    requires Complete(prog[..t], n, run[|run| - 1])
    ensures AtPlace(prog, n, run[|run| - 1], t, Count(prog, Add, t), Count(prog, Get, t))
  {
    var y, front := run[|run| - 1], prog[..t];
    hide IsRun, Related, P.Reachable, P.Inv, Careful, Pick, Count, Complete, Proc, Shaped;
    CompleteParts(front, n, y);
    var z := Simulated(front, n, rules, run);
    P.ReachableInv(front, n, z);
    CountPrefix(prog, Add, t, t);
    CountPrefix(prog, Get, t, t);
    SchedulerLevel(front, n, rules, y, z);
    forall w: nat | w < n
      ensures WorkerAt(prog, y, w, t, Count(prog, Add, t), Count(prog, Get, t))
    {
      WorkerLevel(front, n, rules, y, z, w);
    }
  }

  lemma {:induction false} CompleteParts(prog: seq<Op>, n: nat, y: Sys)
    requires Complete(prog, n, y)
    ensures y.sched.addCache == [] && y.sched.getCache == [] && |y.sent| == |y.underway| == n
    ensures forall w: nat {:trigger y.sent[w]} {:trigger y.underway[w]} :: w < n ==>
              y.sent[w] == |prog| && y.underway[w] == []
    ensures forall i {:trigger y.sched.handled[i]} :: 0 <= i < |y.sched.handled| ==>
              y.sched.handled[i].msg.idx < |prog|
  {
    hide Times;
    assert forall w: nat {:trigger y.underway[w]} :: w < n ==> y.sent[w] == |prog|;
  }

  lemma {:induction false} WorkerLevel(prog: seq<Op>, n: nat, rules: Rules, y: Sys, z: P.Sys, w: nat)
    requires P.Inv(prog, n, z) && Related(prog, rules, y, z) && Complete(prog, n, y) && w < n
    ensures Sized(y.sched, n) && y.sched.waited[w] == 0
    ensures |z.sched.gets.local| == |z.sched.adds.local| == n && Proc(z.sched.gets, z.sched.adds)[w] == |prog|
    ensures y.sched.adds.local[w] == Count(prog, Add, |prog|) && y.sched.gets.local[w] == Count(prog, Get, |prog|)
    ensures |Pick(y.sched.handled, Get, w)| == Count(prog, Get, |prog|)
  {
    hide Tidy, Times, Kinds;
    assert z.received[w] == y.sent[w] - |y.underway[w]| == |prog|;
    assert Queued(prog, z.sched, z.received, w);
    assert z.sched.addCache == [] && z.sched.getCache == [];
    HandledCount(prog, n, rules, y, z, Get, w);
  }

  lemma {:induction false} SchedulerLevel(prog: seq<Op>, n: nat, rules: Rules, y: Sys, z: P.Sys)
    requires P.Inv(prog, n, z) && Related(prog, rules, y, z) && Complete(prog, n, y) && n > 0
    ensures Sized(y.sched, n) && !y.sched.failed
    ensures y.sched.adds.global == Count(prog, Add, |prog|) && y.sched.gets.global == Count(prog, Get, |prog|)
  {
    hide Tidy, Times, Kinds, Count;
    WorkerLevel(prog, n, rules, y, z, 0);
    GoodNotFailed(prog, n, rules, y, z);
    P.GoodCore(prog, z.sched, z.received);
    CoreInStep(prog, z.sched.gets, z.sched.adds, z.sched.handled);
    var v :| 0 <= v < n && z.sched.adds.local[v] == z.sched.adds.global;
    var u :| 0 <= u < n && z.sched.gets.local[u] == z.sched.gets.global;
    WorkerLevel(prog, n, rules, y, z, v);
    WorkerLevel(prog, n, rules, y, z, u);
  }

  // ---- the Get overtakes the Add ----

  /** At place t stands an Add, behind it a Get the workers do not wait before. */
  ghost predicate Unguarded(prog: seq<Op>, rules: Rules, t: nat) {
    !rules.ordered && t + 1 < |prog| && prog[t] == Add && prog[t + 1] == Get && t + 1 !in rules.waits
  }

  /** Worker 0's Get overtook its Add; workers 1 up to m have had theirs applied, and those from m on are at place t. */
  ghost predicate Ahead(prog: seq<Op>, n: nat, y: Sys, t: nat, a: nat, g: nat, m: nat) {
    && |y.sent| == |y.underway| == n && Shaped(prog, y) && !y.sched.failed && 0 < m <= n && n >= 2 && t < |prog|
    && y.sched.addCache == [] && y.sched.getCache == [] && NotApplied(y.sched, 0, t)
    && y.sched.adds.global == a == y.sched.adds.local[0] && y.sched.gets.global == g < y.sched.gets.local[0]
    && y.sched.waited[0] == 0
    && (forall u: nat {:trigger y.sched.adds.local[u]} {:trigger y.sched.gets.local[u]} :: 0 < u < m ==>
          y.sched.adds.local[u] == a + 1 && y.sched.gets.local[u] == g)
    && forall u: nat {:trigger WorkerAt(prog, y, u, t, a, g)} :: m <= u < n ==> WorkerAt(prog, y, u, t, a, g)
  }

  lemma {:induction false} PickOther(log: seq<Event>, e: Event, op: Op, u: nat)
    requires e.op != op || e.msg.worker != u
    ensures Pick(log + [e], op, u) == Pick(log, op, u)
  {
    assert (log + [e])[..|log|] == log;
  }

  lemma {:induction false} AtPlaceShaped(prog: seq<Op>, n: nat, y: Sys, t: nat, a: nat, g: nat)
    requires AtPlace(prog, n, y, t, a, g)
    ensures Shaped(prog, y)
  {
    hide Pick, Count;
    forall w | 0 <= w < |y.sent|
      ensures y.sent[w] <= |prog| && Under(y.underway[w], y.sent[w])
    {
      assert WorkerAt(prog, y, w, t, a, g);
    }
  }

  /** Worker 0 sends the Add and the Get. */
  lemma {:induction false} SendBoth(prog: seq<Op>, n: nat, rules: Rules, y: Sys, t: nat, g: nat)
    requires n > 0 && Unguarded(prog, rules, t) && AtPlace(prog, n, y, t, Count(prog, Add, t), g)
    ensures Shaped(prog, Sent(Sent(y, 0), 0)) && Sent(Sent(y, 0), 0).underway[0] == [t, t + 1]
    ensures Next(prog, rules, y, Sent(y, 0)) && Next(prog, rules, Sent(y, 0), Sent(Sent(y, 0), 0))
  {
    hide Pick;
    AtPlaceShaped(prog, n, y, t, Count(prog, Add, t), g);
    assert WorkerAt(prog, y, 0, t, Count(prog, Add, t), g);
    var y1 := Sent(y, 0);
    assert Sends(prog, rules, y, y1, 0);
    var y2 := Sent(y1, 0);
    assert Shaped(prog, y1);
    assert Sends(prog, rules, y1, y2, 0);
  }

  /** The Get arrives first and is answered at once. */
  ghost function Overtook(prog: seq<Op>, y: Sys): Sys
    requires |y.sent| > 0 && |y.sent| == |y.underway| && Shaped(prog, Sent(Sent(y, 0), 0)) && y.underway[0] == []
  {
    Delivered(prog, Sent(Sent(y, 0), 0), 0, 1)
  }

  lemma {:induction false} GetAnswered(prog: seq<Op>, n: nat, rules: Rules, y: Sys, t: nat, g: nat)
    requires n > 0 && Unguarded(prog, rules, t) && AtPlace(prog, n, y, t, Count(prog, Add, t), g)
    ensures Shaped(prog, Sent(Sent(y, 0), 0)) && y.underway[0] == []
    ensures var r := Overtook(prog, y);
      && Next(prog, rules, Sent(Sent(y, 0), 0), r)
      && r.sched.handled == y.sched.handled + [Event(Get, Msg(0, t + 1))]
      && (n >= 2 ==> Ahead(prog, n, r, t, Count(prog, Add, t), g, 1))
  {
    var a := Count(prog, Add, t);
    hide Tick, Pick, Count;
    SendBoth(prog, n, rules, y, t, g);
    assert WorkerAt(prog, y, 0, t, a, g);
    var y2, r := Sent(Sent(y, 0), 0), Overtook(prog, y);
    assert Delivers(prog, rules, y2, r, 0, 1);
    GetHandled(prog, y2.sched, t);
    if n >= 2 {
      StepShaped(prog, rules, y2, r);
      AllAtGlobal(prog, n, y, t, a, g);
      FirstAhead(prog, n, y, r, t, a, g);
    }
  }

  lemma {:induction false} GetHandled(prog: seq<Op>, s: State, t: nat)
    requires Sized(s, |s.waited|) && |s.waited| > 0 && s.addCache == [] && t + 1 < |prog| && prog[t + 1] == Get
    requires s.adds.local[0] == s.adds.global && s.waited[0] == 0
    ensures Handle(prog, s, Msg(0, t + 1)) ==
            s.(gets := Tick(s.gets, 0).0, handled := s.handled + [Event(Get, Msg(0, t + 1))])
  {
    hide Tick;
    DrainNothing(s.(gets := Tick(s.gets, 0).0, handled := s.handled + [Event(Get, Msg(0, t + 1))]));
  }

  lemma {:induction false} FirstAhead(prog: seq<Op>, n: nat, y: Sys, r: Sys, t: nat, a: nat, g: nat)
    requires n >= 2 && AtPlace(prog, n, y, t, a, g) && InStep(y.sched.gets) && t < |prog| && Shaped(prog, r)
    requires r.sched == y.sched.(gets := Tick(y.sched.gets, 0).0,
                                 handled := y.sched.handled + [Event(Get, Msg(0, t + 1))])
    requires |r.sent| == |r.underway| == n
    requires forall u :: 1 <= u < n ==> r.sent[u] == y.sent[u] && r.underway[u] == y.underway[u]
    ensures Ahead(prog, n, r, t, a, g, 1)
  {
    hide Tick, Pick, Count, InStep;
    assert WorkerAt(prog, y, 0, t, a, g) && WorkerAt(prog, y, 1, t, a, g);
    TickHeldBack(y.sched.gets, 0, 1);
    forall u: nat | 1 <= u < n
      ensures WorkerAt(prog, r, u, t, a, g)
    {
      assert WorkerAt(prog, y, u, t, a, g);
      PickOther(y.sched.handled, Event(Get, Msg(0, t + 1)), Get, u);
    }
  }

  lemma {:induction false} DrainNothing(s: State)
    requires Sized(s, |s.waited|) && s.addCache == []
    ensures DrainAdds(s) == s
  {
  }

  lemma {:induction false} AllAtGlobal(prog: seq<Op>, n: nat, y: Sys, t: nat, a: nat, g: nat)
    requires n > 0 && AtPlace(prog, n, y, t, a, g)
    ensures InStep(y.sched.gets) && InStep(y.sched.adds)
  {
    hide Pick, Count;
    forall w | 0 <= w < n
      ensures y.sched.gets.local[w] == g && y.sched.adds.local[w] == a
    {
      assert WorkerAt(prog, y, w, t, a, g);
    }
    assert y.sched.gets.local[0] == g && y.sched.adds.local[0] == a;
  }

  /** Worker m sends its Add, which is applied at once. */
  lemma {:induction false} NextAdd(prog: seq<Op>, n: nat, rules: Rules, y: Sys, t: nat, a: nat, g: nat, m: nat)
    requires Ahead(prog, n, y, t, a, g, m) && m < n && prog[t] == Add
    ensures Next(prog, rules, y, Sent(y, m)) && Shaped(prog, Sent(y, m)) && Sent(y, m).underway[m] == [t]
    ensures var r := Delivered(prog, Sent(y, m), m, 0);
      Next(prog, rules, Sent(y, m), r) && Ahead(prog, n, r, t, a, g, m + 1)
  {
    hide Tick, Pick, Count, InStep;
    assert WorkerAt(prog, y, m, t, a, g);
    var y1 := Sent(y, m);
    assert Sends(prog, rules, y, y1, m);
    StepShaped(prog, rules, y, y1);
    var r := Delivered(prog, y1, m, 0);
    assert Delivers(prog, rules, y1, r, m, 0);
    StepShaped(prog, rules, y1, r);
    AheadInStep(prog, n, y, t, a, g, m);
    TickHeldBack(y.sched.adds, m, 0);
    MoreAhead(prog, n, y, r, t, a, g, m);
  }

  lemma {:induction false} MoreAhead(prog: seq<Op>, n: nat, y: Sys, r: Sys, t: nat, a: nat, g: nat, m: nat)
    requires Ahead(prog, n, y, t, a, g, m) && m < n && Shaped(prog, r) && y.sched.adds.local[m] == a
    requires r.sched == y.sched.(adds := Clock(y.sched.adds.local[m := a + 1], a),
                                 handled := y.sched.handled + [Event(Add, Msg(m, t))])
    requires y.sched.gets.local[m] == g && |r.sent| == |r.underway| == n
    requires forall u :: m < u < n ==> r.sent[u] == y.sent[u] && r.underway[u] == y.underway[u]
    ensures Ahead(prog, n, r, t, a, g, m + 1)
  {
    hide Pick, Count;
    forall u: nat | m + 1 <= u < n
      ensures WorkerAt(prog, r, u, t, a, g)
    {
      assert WorkerAt(prog, y, u, t, a, g);
      PickOther(y.sched.handled, Event(Add, Msg(m, t)), Get, u);
    }
  }

  lemma {:induction false} AheadInStep(prog: seq<Op>, n: nat, y: Sys, t: nat, a: nat, g: nat, m: nat)
    requires Ahead(prog, n, y, t, a, g, m)
    ensures InStep(y.sched.adds)
  {
    hide Pick, Count;
    forall u | 0 <= u < n
      ensures y.sched.adds.local[u] >= a
    {
      if u >= m {
        assert WorkerAt(prog, y, u, t, a, g);
      }
    }
  }

  lemma {:induction false} AllAhead(prog: seq<Op>, n: nat, rules: Rules, run: seq<Sys>, t: nat, a: nat, g: nat, m: nat)
    returns (longer: seq<Sys>)
    requires IsRun(prog, n, rules, run) && Ahead(prog, n, run[|run| - 1], t, a, g, m) && prog[t] == Add
    ensures IsRun(prog, n, rules, longer) && Ahead(prog, n, longer[|longer| - 1], t, a, g, n)
    decreases n - m
  {
    var y := run[|run| - 1];
    hide Next, Ahead;
    assert m <= n by { AheadRange(prog, n, y, t, a, g, m); }
    if m == n {
      longer := run;
    } else {
      NextAdd(prog, n, rules, y, t, a, g, m);
      var y1 := Sent(y, m);
      var y2 := Delivered(prog, y1, m, 0);
      OneMore(prog, n, rules, run, y1);
      OneMore(prog, n, rules, run + [y1], y2);
      longer := AllAhead(prog, n, rules, run + [y1] + [y2], t, a, g, m + 1);
    }
  }

  lemma {:induction false} AheadRange(prog: seq<Op>, n: nat, y: Sys, t: nat, a: nat, g: nat, m: nat)
    requires Ahead(prog, n, y, t, a, g, m)
    ensures 0 < m <= n == |y.sent| && |y.sent| == |y.underway| && t < |prog|
  {
  }

  lemma {:induction false} AheadIsBlocked(prog: seq<Op>, n: nat, y: Sys, t: nat, a: nat, g: nat)
    requires Ahead(prog, n, y, t, a, g, n)
    ensures Blocked(y.sched, 0, a, g) && NotApplied(y.sched, 0, t)
  {
  }

  // ---- the first place without a wait ----

  lemma {:induction false} GuardedAt(prog: seq<Op>, waits: set<nat>, m: nat, i: nat)
    requires m <= |prog| && Guarded(prog[..m], waits)
    ensures i + 1 < m && prog[i] == Add && prog[i + 1] == Get ==> i + 1 in waits
  {
    if i + 1 < m {
      assert prog[..m][i] == prog[i] && prog[..m][i + 1] == prog[i + 1];
    }
  }

  /** The first Add with an unguarded Get behind it; the program up to it is guarded. */
  lemma {:induction false} FirstUnguarded(prog: seq<Op>, rules: Rules, m: nat) returns (t: nat)
    requires !rules.ordered && m <= |prog| && !Guarded(prog[..m], rules.waits)
    ensures Unguarded(prog, rules, t) && Guarded(prog[..t], rules.waits)
  {
    if m > 0 && !Guarded(prog[..m - 1], rules.waits) {
      t := FirstUnguarded(prog, rules, m - 1);
    } else {
      var i: nat :| i + 1 < m && prog[..m][i] == Add && prog[..m][i + 1] == Get && i + 1 !in rules.waits;
      t := i;
      assert Guarded(prog[..m - 1], rules.waits);
      GuardedAt(prog, rules.waits, m - 1, i);
      forall j: nat | j + 1 < t && prog[..t][j] == Add && prog[..t][j + 1] == Get
        ensures j + 1 in rules.waits
      {
        GuardedAt(prog, rules.waits, m - 1, j);
      }
    }
  }

  /** Without the wait there is a run, for any number of workers, in which a Get is answered before the Add in front of
      it is applied. */
  lemma {:induction false} GetTooEarly(prog: seq<Op>, n: nat, rules: Rules) returns (run: seq<Sys>, t: nat)
    requires n > 0 && !Careful(prog, rules)
    ensures IsRun(prog, n, rules, run) && Unguarded(prog, rules, t)
    ensures var log := run[|run| - 1].sched.handled; var p := |log| - 1;
      && p >= 0 && log[p] == Event(Get, Msg(0, t + 1))
      && multiset(Pick(log[..p], Add, 0)) != multiset(Requests(prog, Add, 0, t + 1))
    ensures n >= 2 ==> Ahead(prog, n, run[|run| - 1], t, Count(prog, Add, t), Count(prog, Get, t), 1)
  {
    assert prog[..|prog|] == prog;
    t := FirstUnguarded(prog, rules, |prog|);
    var before := ReachPlace(prog, n, rules, t);
    var y := before[|before| - 1];
    var a, g := Count(prog, Add, t), Count(prog, Get, t);
    NoneYet(prog, y.sched.handled, t, Add, 0);
    hide Next, Ahead, AtPlace, Pick;
    SendBoth(prog, n, rules, y, t, g);
    GetAnswered(prog, n, rules, y, t, g);
    OneMore(prog, n, rules, before, Sent(y, 0));
    OneMore(prog, n, rules, before + [Sent(y, 0)], Sent(Sent(y, 0), 0));
    OneMore(prog, n, rules, before + [Sent(y, 0)] + [Sent(Sent(y, 0), 0)], Overtook(prog, y));
    run := before + [Sent(y, 0)] + [Sent(Sent(y, 0), 0)] + [Overtook(prog, y)];
    var log := run[|run| - 1].sched.handled;
    assert log[..|log| - 1] == y.sched.handled;
    RequestThere(prog, Add, 0, t + 1, t);
  }

  /** A log of earlier requests has no request of place t. */
  lemma {:induction false} NoneYet(prog: seq<Op>, log: seq<Event>, t: nat, op: Op, u: nat)
    requires forall i {:trigger log[i]} :: 0 <= i < |log| ==> log[i].msg.idx < t
    ensures multiset(Pick(log, op, u))[Msg(u, t)] == 0
  {
    PickedFrom(log, op, u, Msg(u, t));
    assert Msg(u, t) !in Pick(log, op, u);
  }

  /** With at least two workers there is a run that ends with requests waiting for ever. */
  lemma {:induction false} WaitingIsNeeded(prog: seq<Op>, n: nat, rules: Rules) returns (run: seq<Sys>)
    requires n >= 2 && !Careful(prog, rules)
    ensures IsRun(prog, n, rules, run) && Final(prog, rules, run[|run| - 1])
    ensures !Complete(prog, n, run[|run| - 1])
  {
    hide Next, Ahead, Pick, Final, Complete, Careful, Blocked;
    var early, t := GetTooEarly(prog, n, rules);
    var a, g := Count(prog, Add, t), Count(prog, Get, t);
    var ahead := AllAhead(prog, n, rules, early, t, a, g, 1);
    AheadIsBlocked(prog, n, ahead[|ahead| - 1], t, a, g);
    run := ToTheEnd(prog, n, rules, ahead);
    assert run[|ahead| - 1] == ahead[|ahead| - 1];
    BlockedForEver(prog, n, rules, run, |ahead|, 0, a, g, t);
  }

  /** So for two workers or more the scheduler never deadlocks if and only if the messages arrive in the order sent or
      workers wait for their Adds before every Get that stands directly behind one. */
  lemma {:induction false} CarefulIsExact(prog: seq<Op>, n: nat, rules: Rules)
    requires n >= 2
    ensures Careful(prog, rules) <==>
              forall run: seq<Sys> {:trigger IsRun(prog, n, rules, run)} ::
                IsRun(prog, n, rules, run) && Final(prog, rules, run[|run| - 1]) ==>
                  Complete(prog, n, run[|run| - 1])
  {
    hide Next, Final, Complete, Careful;
    if Careful(prog, rules) {
      forall run: seq<Sys> | IsRun(prog, n, rules, run) && Final(prog, rules, run[|run| - 1])
        ensures Complete(prog, n, run[|run| - 1])
      {
        NoDeadlock(prog, n, rules, run);
      }
    } else {
      var run := WaitingIsNeeded(prog, n, rules);
    }
  }
}
