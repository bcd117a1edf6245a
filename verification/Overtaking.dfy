/** The synchronous scheduler when a worker's messages may overtake each other. The worker actor has two threads, so of
    two requests of one worker the later may reach the server first, unless the worker waits in between. */
module Overtaking {
  import opened VectorClock
  import opened SyncScheduler
  import opened Lockstep
  import opened SyncState
  import P = SyncProtocol

  /** Whether messages arrive in the order sent, and before which Gets a worker waits for all its Adds. */
  datatype Rules = Rules(ordered: bool, waits: set<nat>)

  /** The server's scheduler, how many requests each worker has sent, and which of them are under way. */
  datatype Sys = Sys(sched: State, sent: seq<nat>, underway: seq<seq<nat>>)

  ghost predicate Shaped(prog: seq<Op>, y: Sys) {
    && Sized(y.sched, |y.sent|) && |y.underway| == |y.sent|
    && forall w {:trigger y.sent[w]} {:trigger y.underway[w]} :: 0 <= w < |y.sent| ==>
         y.sent[w] <= |prog| && Under(y.underway[w], y.sent[w])
  }

  ghost predicate Under(ts: seq<nat>, bound: nat) {
    |ts| <= bound && forall j {:trigger ts[j]} :: 0 <= j < |ts| ==> ts[j] < bound
  }

  ghost predicate Initial(n: nat, y: Sys) {
    y == Sys(Fresh(n), seq(n, _ => 0), seq(n, _ => []))
  }

  /** Worker w has a reply to every request of this kind it sent. */
  ghost predicate Answered(prog: seq<Op>, y: Sys, op: Op, w: nat)
    requires Shaped(prog, y) && w < |y.sent|
  {
    |Pick(y.sched.handled, op, w)| == Count(prog, op, y.sent[w])
  }

  /** A worker sends nothing past a Get that is not answered, and waits for its Adds where the rules say so. */
  ghost predicate MaySend(prog: seq<Op>, rules: Rules, y: Sys, w: nat)
    requires Shaped(prog, y) && w < |y.sent|
  {
    && y.sent[w] < |prog| && Answered(prog, y, Get, w)
    && (prog[y.sent[w]] == Get && y.sent[w] in rules.waits ==> Answered(prog, y, Add, w))
  }

  ghost function Sent(y: Sys, w: nat): Sys
    requires w < |y.sent| == |y.underway|
  {
    y.(sent := y.sent[w := y.sent[w] + 1], underway := y.underway[w := y.underway[w] + [y.sent[w]]])
  }

  ghost predicate Sends(prog: seq<Op>, rules: Rules, y: Sys, y': Sys, w: nat) {
    Shaped(prog, y) && w < |y.sent| && !y.sched.failed && MaySend(prog, rules, y, w) && y' == Sent(y, w)
  }

  ghost function Handle(prog: seq<Op>, s: State, m: Msg): (r: State)
    requires Sized(s, |s.waited|) && m.worker < |s.waited| && m.idx < |prog|
    ensures Sized(r, |s.waited|)
  {
    if prog[m.idx] == Add then AfterAdd(s, m) else AfterGet(s, m)
  }

  /** The server handles one of worker w's messages under way. */
  ghost function Delivered(prog: seq<Op>, y: Sys, w: nat, j: nat): Sys
    requires Shaped(prog, y) && w < |y.sent| && j < |y.underway[w]|
  {
    assert y.underway[w][j] < y.sent[w] <= |prog|;
    Sys(Handle(prog, y.sched, Msg(w, y.underway[w][j])), y.sent,
        y.underway[w := y.underway[w][..j] + y.underway[w][j + 1..]])
  }

  ghost predicate Delivers(prog: seq<Op>, rules: Rules, y: Sys, y': Sys, w: nat, j: nat) {
    && Shaped(prog, y) && w < |y.sent| && j < |y.underway[w]| && (rules.ordered ==> j == 0) && !y.sched.failed
    && y' == Delivered(prog, y, w, j)
  }

  ghost predicate Next(prog: seq<Op>, rules: Rules, y: Sys, y': Sys) {
    (exists w: nat :: Sends(prog, rules, y, y', w)) || exists w: nat, j: nat :: Delivers(prog, rules, y, y', w, j)
  }

  ghost predicate IsRun(prog: seq<Op>, n: nat, rules: Rules, run: seq<Sys>) {
    && |run| > 0 && Initial(n, run[0])
    && forall k {:trigger run[k]} :: 0 < k < |run| ==> Next(prog, rules, run[k - 1], run[k])
  }

  ghost predicate Final(prog: seq<Op>, rules: Rules, y: Sys) {
    forall y': Sys :: !Next(prog, rules, y, y')
  }

  /** Workers wait before every Get that stands directly behind an Add. */
  ghost predicate Guarded(prog: seq<Op>, waits: set<nat>) {
    forall t: nat {:trigger prog[t]} :: t + 1 < |prog| && prog[t] == Add && prog[t + 1] == Get ==> t + 1 in waits
  }

  /** The rules under which the scheduler works. */
  ghost predicate Careful(prog: seq<Op>, rules: Rules) {
    rules.ordered || Guarded(prog, rules.waits)
  }

  // ---- a run in order that looks the same ----

  /** Two logs of the same kinds of requests of the same workers, with the same Gets. */
  ghost predicate SameKinds(a: seq<Event>, b: seq<Event>) {
    |a| == |b| && forall i {:trigger a[i]} {:trigger b[i]} :: 0 <= i < |a| ==>
      a[i].op == b[i].op && a[i].msg.worker == b[i].msg.worker && (a[i].op == Get ==> a[i] == b[i])
  }

  ghost predicate SameWorkers(a: seq<Msg>, b: seq<Msg>) {
    |a| == |b| && forall i {:trigger a[i]} {:trigger b[i]} :: 0 <= i < |a| ==> a[i].worker == b[i].worker
  }

  ghost predicate Similar(s: State, r: State) {
    && s.gets == r.gets && s.adds == r.adds && s.waited == r.waited && s.failed == r.failed
    && SameWorkers(s.addCache, r.addCache) && s.getCache == r.getCache && SameKinds(s.handled, r.handled)
  }

  lemma {:induction false} SimilarServe(s: State, r: State)
    requires Similar(s, r) && Sized(s, |s.waited|) && Sized(r, |s.waited|) && s.getCache != []
    ensures Similar(ServeCachedGet(s), ServeCachedGet(r))
  {
    hide Tick;
  }

  lemma {:induction false} SimilarDrainGets(s: State, r: State)
    requires Similar(s, r) && Sized(s, |s.waited|) && Sized(r, |s.waited|)
    ensures Similar(DrainGets(s), DrainGets(r))
    decreases |s.getCache|
  {
    hide Similar, Tick;
    assert s.getCache == r.getCache && s.failed == r.failed by { SimilarFields(s, r); }
    if s.getCache == [] || s.failed {
    } else {
      ServeSized(s);
      ServeSized(r);
      SimilarServe(s, r);
      SimilarDrainGets(ServeCachedGet(s), ServeCachedGet(r));
    }
  }

  lemma {:induction false} SimilarFields(s: State, r: State)
    requires Similar(s, r)
    ensures s.getCache == r.getCache && s.failed == r.failed && |s.addCache| == |r.addCache| && s.waited == r.waited
  {
  }

  lemma {:induction false} SimilarApply(s: State, r: State)
    requires Similar(s, r) && Sized(s, |s.waited|) && Sized(r, |s.waited|) && s.addCache != []
    ensures Similar(ApplyCachedAdd(s), ApplyCachedAdd(r))
  {
    hide Tick;
    assert s.addCache[0].worker == r.addCache[0].worker;
  }

  lemma {:induction false} SimilarDrainAdds(s: State, r: State)
    requires Similar(s, r) && Sized(s, |s.waited|) && Sized(r, |s.waited|)
    ensures Similar(DrainAdds(s), DrainAdds(r))
    decreases |s.addCache|
  {
    hide Similar, Tick;
    SimilarFields(s, r);
    if s.addCache == [] || s.failed {
    } else {
      ApplySized(s);
      ApplySized(r);
      SimilarApply(s, r);
      SimilarDrainAdds(ApplyCachedAdd(s), ApplyCachedAdd(r));
    }
  }

  /** The scheduler looks at the kind and the worker of an Add only. */
  lemma {:induction false} SimilarAdd(s: State, r: State, w: nat, i: nat, k: nat)
    requires Similar(s, r) && Sized(s, |s.waited|) && Sized(r, |s.waited|) && w < |s.waited|
    ensures Similar(AfterAdd(s, Msg(w, i)), AfterAdd(r, Msg(w, k)))
  {
    hide Tick, DrainGets;
    var (adds, all) := Tick(s.adds, w);
    var s', r' := s.(adds := adds, handled := s.handled + [Event(Add, Msg(w, i))]),
                  r.(adds := adds, handled := r.handled + [Event(Add, Msg(w, k))]);
    if !AddMustWait(s, w) && all && s.addCache == [] {
      SimilarDrainGets(s', r');
    }
  }

  lemma {:induction false} SimilarGet(s: State, r: State, m: Msg)
    requires Similar(s, r) && Sized(s, |s.waited|) && Sized(r, |s.waited|) && m.worker < |s.waited|
    ensures Similar(AfterGet(s, m), AfterGet(r, m))
  {
    hide Tick, DrainAdds;
    var (gets, all) := Tick(s.gets, m.worker);
    var s', r' := s.(gets := gets, handled := s.handled + [Event(Get, m)]),
                  r.(gets := gets, handled := r.handled + [Event(Get, m)]);
    if !GetMustWait(s, m.worker) && all {
      SimilarDrainAdds(s', r');
    }
  }

  /** What is under way of worker w: in order its last requests, otherwise some Adds in place of its last requests,
      which are Adds too, or the last request alone. */
  ghost predicate Tidy(prog: seq<Op>, rules: Rules, sent: nat, ts: seq<nat>)
    requires sent <= |prog| && Under(ts, sent)
  {
    var first := sent - |ts|;
    if rules.ordered then forall j {:trigger ts[j]} :: 0 <= j < |ts| ==> ts[j] == first + j
    else
      || (|ts| == 1 && ts[0] == first)
      || OnlyAdds(prog, ts, first)
  }

  ghost predicate OnlyAdds(prog: seq<Op>, ts: seq<nat>, first: nat)
    requires first + |ts| <= |prog| && Under(ts, |prog|)
  {
    forall j {:trigger ts[j]} :: 0 <= j < |ts| ==> prog[ts[j]] == Add && prog[first + j] == Add
  }

  /** z is the same state with every worker's requests delivered in order. */
  ghost predicate Related(prog: seq<Op>, rules: Rules, y: Sys, z: P.Sys) {
    && Shaped(prog, y) && z.sent == y.sent && |z.received| == |y.sent| && Similar(y.sched, z.sched)
    && forall w: nat {:trigger z.received[w]} :: w < |y.sent| ==>
         z.received[w] == y.sent[w] - |y.underway[w]| && Tidy(prog, rules, y.sent[w], y.underway[w])
  }

  lemma {:induction false} PickSame(a: seq<Event>, b: seq<Event>, op: Op, w: nat)
    requires SameKinds(a, b)
    ensures |Pick(a, op, w)| == |Pick(b, op, w)|
    decreases |a|
  {
    if a == [] {
    } else {
      var k := |a| - 1;
      assert a[k].op == b[k].op;
      assert SameKinds(a[..k], b[..k]) by {
        forall i | 0 <= i < k ensures a[..k][i].op == b[..k][i].op && a[..k][i].msg.worker == b[..k][i].msg.worker {
          assert a[i].op == b[i].op;
        }
      }
      PickSame(a[..k], b[..k], op, w);
    }
  }

  lemma {:induction false} CountTotal(prog: seq<Op>, t: nat)
    requires t <= |prog|
    ensures Count(prog, Get, t) + Count(prog, Add, t) == t
  {
    if t == 0 {
    } else {
      CountTotal(prog, t - 1);
    }
  }

  /** How many requests of a worker have been handled, in terms of its log. */
  lemma {:induction false} HandledCount(prog: seq<Op>, n: nat, rules: Rules, y: Sys, z: P.Sys, op: Op, w: nat)
    requires P.Inv(prog, n, z) && Related(prog, rules, y, z) && w < n
    ensures |y.sent| == |z.sched.gets.local| == |z.sched.adds.local| == n
    ensures Proc(z.sched.gets, z.sched.adds)[w] <= z.received[w] <= z.sent[w] <= |prog|
    ensures |Pick(y.sched.handled, op, w)| == Count(prog, op, Proc(z.sched.gets, z.sched.adds)[w])
  {
    hide Tidy, Of;
    PickSame(y.sched.handled, z.sched.handled, op, w);
    assert Queued(prog, z.sched, z.received, w);
    assert Pick(z.sched.handled, op, w) == Requests(prog, op, w, Proc(z.sched.gets, z.sched.adds)[w]);
  }

  /** When a worker's last request is an answered Get, all its requests are handled. */
  lemma {:induction false} GetLast(prog: seq<Op>, n: nat, rules: Rules, y: Sys, z: P.Sys, w: nat)
    requires P.Inv(prog, n, z) && Related(prog, rules, y, z) && w < n == |y.sent| && Answered(prog, y, Get, w)
    requires 0 < y.sent[w] && prog[y.sent[w] - 1] == Get
    ensures |z.sched.gets.local| == |z.sched.adds.local| == n && Proc(z.sched.gets, z.sched.adds)[w] == y.sent[w]
    ensures y.underway[w] == []
  {
    hide P.Inv, Similar, Tidy, Pick, Proc;
    HandledCount(prog, n, rules, y, z, Get, w);
    var p := Proc(z.sched.gets, z.sched.adds)[w];
    if p < y.sent[w] {
      CountGrows(prog, Get, p, y.sent[w] - 1);
    }
    assert z.received[w] == y.sent[w] - |y.underway[w]|;
  }

  /** When a worker has all its answers, all its requests are handled. */
  lemma {:induction false} AllAnswered(prog: seq<Op>, n: nat, rules: Rules, y: Sys, z: P.Sys, w: nat)
    requires P.Inv(prog, n, z) && Related(prog, rules, y, z) && w < n == |y.sent|
    requires Answered(prog, y, Get, w) && Answered(prog, y, Add, w)
    ensures |z.sched.gets.local| == |z.sched.adds.local| == n && Proc(z.sched.gets, z.sched.adds)[w] == y.sent[w]
    ensures y.underway[w] == []
  {
    hide P.Inv, Similar, Tidy, Pick, Proc;
    HandledCount(prog, n, rules, y, z, Get, w);
    HandledCount(prog, n, rules, y, z, Add, w);
    CountTotal(prog, Proc(z.sched.gets, z.sched.adds)[w]);
    CountTotal(prog, y.sent[w]);
    assert z.received[w] == y.sent[w] - |y.underway[w]|;
  }

  /** A worker about to send a Get out of order has nothing under way. */
  lemma {:induction false} QuietBeforeGet(prog: seq<Op>, n: nat, rules: Rules, y: Sys, z: P.Sys, w: nat)
    requires P.Inv(prog, n, z) && Related(prog, rules, y, z) && w < n == |y.sent| && MaySend(prog, rules, y, w)
    requires !rules.ordered && Guarded(prog, rules.waits) && prog[y.sent[w]] == Get
    ensures y.underway[w] == []
  {
    hide P.Inv, Similar, Tidy, Answered;
    var t := y.sent[w];
    if t in rules.waits {
      AllAnswered(prog, n, rules, y, z, w);
    } else if t > 0 {
      var before: nat := t - 1;
      assert prog[before] == Get;
      GetLast(prog, n, rules, y, z, w);
    }
  }

  lemma {:induction false} TidySend(prog: seq<Op>, rules: Rules, sent: nat, ts: seq<nat>)
    requires sent < |prog| && Under(ts, sent) && Tidy(prog, rules, sent, ts)
    requires rules.ordered || prog[sent] == Add || ts == []
    requires ts != [] && prog[sent - 1] == Get ==> rules.ordered
    ensures Under(ts + [sent], sent + 1) && Tidy(prog, rules, sent + 1, ts + [sent])
  {
    var first := sent - |ts|;
    if !rules.ordered && ts != [] {
      if |ts| == 1 && ts[0] == first {
        assert prog[ts[0]] == Add;
      }
      MoreAdds(prog, sent, ts, first);
      assert first == sent + 1 - |ts + [sent]|;
    }
  }

  lemma {:induction false} MoreAdds(prog: seq<Op>, sent: nat, ts: seq<nat>, first: nat)
    requires sent < |prog| && Under(ts, sent) && first + |ts| == sent && OnlyAdds(prog, ts, first) && prog[sent] == Add
    ensures OnlyAdds(prog, ts + [sent], first)
  {
    forall j | 0 <= j < |ts| + 1
      ensures prog[(ts + [sent])[j]] == Add && prog[first + j] == Add
    {
      if j < |ts| {
        assert prog[ts[j]] == Add;
      }
    }
  }

  lemma {:induction false} FewerAdds(prog: seq<Op>, ts: seq<nat>, j: nat, first: nat)
    requires first + |ts| <= |prog| && Under(ts, |prog|) && OnlyAdds(prog, ts, first) && j < |ts|
    ensures Under(ts[..j] + ts[j + 1..], |prog|) && OnlyAdds(prog, ts[..j] + ts[j + 1..], first + 1)
  {
    var rest := ts[..j] + ts[j + 1..];
    forall i | 0 <= i < |rest|
      ensures rest[i] < |prog| && prog[rest[i]] == Add && prog[first + 1 + i] == Add
    {
      assert rest[i] == ts[if i < j then i else i + 1];
      assert prog[ts[i + 1]] == Add && prog[first + (i + 1)] == Add;
      assert prog[ts[i]] == Add;
    }
  }

  lemma {:induction false} TidyDeliver(prog: seq<Op>, rules: Rules, sent: nat, ts: seq<nat>, j: nat)
    requires sent <= |prog| && Under(ts, sent) && Tidy(prog, rules, sent, ts) && j < |ts| && (rules.ordered ==> j == 0)
    ensures Under(ts[..j] + ts[j + 1..], sent) && Tidy(prog, rules, sent, ts[..j] + ts[j + 1..])
    ensures prog[ts[j]] == prog[sent - |ts|] && (prog[ts[j]] == Get ==> ts[j] == sent - |ts|)
  {
    var rest, first := ts[..j] + ts[j + 1..], sent - |ts|;
    assert forall i {:trigger rest[i]} :: 0 <= i < |rest| ==> rest[i] == ts[if i < j then i else i + 1];
    if rules.ordered {
      forall i | 0 <= i < |rest| ensures rest[i] == sent - |rest| + i {
        assert rest[i] == ts[i + 1];
      }
    } else if |ts| == 1 && ts[0] == first {
      assert rest == [];
    } else {
      assert prog[ts[0]] == Add && prog[first + 0] == Add;
      assert prog[ts[j]] == Add;
      FewerAdds(prog, ts, j, first);
    }
  }

  lemma {:induction false} SendPremises(prog: seq<Op>, n: nat, rules: Rules, y: Sys, z: P.Sys, w: nat)
    requires P.Inv(prog, n, z) && Related(prog, rules, y, z) && |y.sent| == n && Careful(prog, rules)
    requires w < n && MaySend(prog, rules, y, w)
    ensures y.sent[w] < |prog| && P.Shaped(prog, z) && P.MaySend(prog, z, w)
    ensures rules.ordered || prog[y.sent[w]] == Add || y.underway[w] == []
    ensures y.underway[w] != [] && prog[y.sent[w] - 1] == Get ==> rules.ordered
  {
    hide Good, Core, Proc, Tidy, Similar, P.Patient;
    var t := y.sent[w];
    if !rules.ordered && prog[t] == Get {
      QuietBeforeGet(prog, n, rules, y, z, w);
    }
    if t > 0 && prog[t - 1] == Get {
      GetLast(prog, n, rules, y, z, w);
      P.GoodCore(prog, z.sched, z.received);
      P.HandledIff(prog, z.sched, w, t - 1);
    }
  }

  lemma {:induction false} SimulateSend(prog: seq<Op>, n: nat, rules: Rules, y: Sys, y': Sys, z: P.Sys, w: nat)
    requires P.Inv(prog, n, z) && Related(prog, rules, y, z) && |y.sent| == n && Careful(prog, rules)
    requires Sends(prog, rules, y, y', w)
    ensures w < |z.sent|
    ensures var z' := z.(sent := z.sent[w := z.sent[w] + 1]); P.Sends(prog, z, z', w) && Related(prog, rules, y', z')
  {
    hide P.Inv, Good, Core, Proc, Answered, Tidy, Similar, P.Patient, P.MaySend, MaySend;
    var t := y.sent[w];
    SendPremises(prog, n, rules, y, z, w);
    var z' := z.(sent := z.sent[w := t + 1]);
    assert z.received[w] == t - |y.underway[w]|;
    TidySend(prog, rules, t, y.underway[w]);
    SameFailed(y.sched, z.sched);
    forall u: nat | u < |y'.sent|
      ensures y'.sent[u] <= |prog| && Under(y'.underway[u], y'.sent[u])
      ensures z'.received[u] == y'.sent[u] - |y'.underway[u]| && Tidy(prog, rules, y'.sent[u], y'.underway[u])
    {
      assert z.received[u] == y.sent[u] - |y.underway[u]|;
    }
  }

  lemma {:induction false} SameFailed(s: State, r: State)
    requires Similar(s, r)
    ensures s.failed == r.failed
  {
  }

  lemma {:induction false} SimulateDeliver(prog: seq<Op>, n: nat, rules: Rules, y: Sys, y': Sys, z: P.Sys, w: nat,
                                           j: nat)
    requires P.Inv(prog, n, z) && Related(prog, rules, y, z) && |y.sent| == n && Delivers(prog, rules, y, y', w, j)
    ensures P.Shaped(prog, z) && w < |z.received| && z.received[w] < z.sent[w]
    ensures var z' := P.Delivered(prog, z, w); P.Delivers(prog, z, z', w) && Related(prog, rules, y', z')
  {
    hide Good, Tidy, Handle, AfterAdd, AfterGet;
    var ts, t := y.underway[w], y.underway[w][j];
    assert z.received[w] == y.sent[w] - |ts|;
    TidyDeliver(prog, rules, y.sent[w], ts, j);
    var z' := P.Delivered(prog, z, w);
    SimilarHandled(prog, y.sched, z.sched, w, t, z.received[w]);
    SameFailed(y.sched, z.sched);
    hide Similar, P.Patient;
    forall u: nat | u < |y'.sent|
      ensures y'.sent[u] <= |prog| && Under(y'.underway[u], y'.sent[u])
      ensures z'.received[u] == y'.sent[u] - |y'.underway[u]| && Tidy(prog, rules, y'.sent[u], y'.underway[u])
    {
      assert z.received[u] == y.sent[u] - |y.underway[u]|;
    }
  }

  lemma {:induction false} SimilarHandled(prog: seq<Op>, s: State, r: State, w: nat, i: nat, k: nat)
    requires Similar(s, r) && Sized(s, |s.waited|) && Sized(r, |s.waited|) && w < |s.waited|
    requires i < |prog| && k < |prog| && prog[i] == prog[k] && (prog[i] == Get ==> i == k)
    ensures Similar(Handle(prog, s, Msg(w, i)),
                    if prog[k] == Add then AfterAdd(r, Msg(w, k)) else AfterGet(r, Msg(w, k)))
    ensures Sized(Handle(prog, s, Msg(w, i)), |s.waited|)
  {
    hide Similar, AfterAdd, AfterGet;
    assert s.waited == r.waited by { SimilarFields(s, r); }
    if prog[i] == Add {
      SimilarAdd(s, r, w, i, k);
    } else {
      SimilarGet(s, r, Msg(w, i));
    }
  }

  lemma {:induction false} RunPrefix(prog: seq<Op>, n: nat, rules: Rules, run: seq<Sys>)
    requires IsRun(prog, n, rules, run) && |run| > 1
    ensures IsRun(prog, n, rules, run[..|run| - 1]) && Next(prog, rules, run[|run| - 2], run[|run| - 1])
  {
    hide Next;
    var before := run[..|run| - 1];
    forall k | 0 < k < |before|
      ensures Next(prog, rules, before[k - 1], before[k])
    {
      assert Next(prog, rules, run[k - 1], run[k]);
    }
    assert run[|run| - 1] == run[|run| - 1];
  }

  lemma {:induction false} InitialRelated(prog: seq<Op>, n: nat, rules: Rules, y: Sys)
    requires Initial(n, y)
    ensures var z := P.Sys(Fresh(n), seq(n, _ => 0), seq(n, _ => 0)); P.Initial(n, z) && Related(prog, rules, y, z)
  {
  }

  /** Every run by careful rules looks like one in which all messages arrive in the order sent. */
  lemma {:induction false} Simulated(prog: seq<Op>, n: nat, rules: Rules, run: seq<Sys>) returns (z: P.Sys)
    requires IsRun(prog, n, rules, run) && n > 0 && Careful(prog, rules)
    ensures P.Reachable(prog, n, z) && |z.sent| == n && Related(prog, rules, run[|run| - 1], z)
    decreases |run|
  {
    hide Related, Sends, Delivers, P.Reachable, P.Initial, Initial, Careful, P.Sends, P.Delivers;
    if |run| == 1 {
      z := P.Sys(Fresh(n), seq(n, _ => 0), seq(n, _ => 0));
      InitialRelated(prog, n, rules, run[0]);
      P.InitiallyReachable(prog, n, z);
    } else {
      var k := |run| - 1;
      RunPrefix(prog, n, rules, run);
      var before := Simulated(prog, n, rules, run[..k]);
      z := SimulatedStep(prog, n, rules, run[k - 1], run[k], before);
    }
  }

  lemma {:induction false} ReachableSize(prog: seq<Op>, n: nat, z: P.Sys)
    requires P.Reachable(prog, n, z)
    ensures |z.sent| == n
  {
    hide P.Reachable;
    P.ReachableInv(prog, n, z);
  }

  lemma {:induction false} RelatedSize(prog: seq<Op>, rules: Rules, y: Sys, z: P.Sys)
    requires Related(prog, rules, y, z)
    ensures |y.sent| == |z.sent|
  {
  }

  lemma {:induction false} SimulatedStep(prog: seq<Op>, n: nat, rules: Rules, y: Sys, y': Sys, z: P.Sys)
    returns (z': P.Sys)
    requires P.Reachable(prog, n, z) && |z.sent| == n && Related(prog, rules, y, z) && Careful(prog, rules)
    requires Next(prog, rules, y, y')
    ensures P.Reachable(prog, n, z') && |z'.sent| == n && Related(prog, rules, y', z')
  {
    hide Sends, Delivers, P.Reachable, Careful, P.Inv, P.Sends, P.Delivers, P.Delivered;
    P.ReachableInv(prog, n, z);
    assert |y.sent| == n by { RelatedSize(prog, rules, y, z); }
    hide Related;
    if w: nat :| Sends(prog, rules, y, y', w) {
      SimulateSend(prog, n, rules, y, y', z, w);
      z' := z.(sent := z.sent[w := z.sent[w] + 1]);
    } else {
      var w: nat, j: nat :| Delivers(prog, rules, y, y', w, j);
      SimulateDeliver(prog, n, rules, y, y', z, w, j);
      z' := P.Delivered(prog, z, w);
    }
    P.StillReachable(prog, n, z, z');
    ReachableSize(prog, n, z');
  }

  // ---- every request is somewhere, once ----

  /** How often a request is in a log. */
  ghost function Times(log: seq<Event>, m: Msg): nat {
    if log == [] then 0 else Times(log[..|log| - 1], m) + if log[|log| - 1].msg == m then 1 else 0
  }

  /** How often the scheduler has a request: waiting or handled. */
  ghost function InHand(s: State, m: Msg): nat {
    multiset(s.addCache)[m] + multiset(s.getCache)[m] + Times(s.handled, m)
  }

  lemma {:induction false} TimesAppend(log: seq<Event>, e: Event, m: Msg)
    ensures Times(log + [e], m) == Times(log, m) + if e.msg == m then 1 else 0
  {
    assert (log + [e])[..|log|] == log;
  }

  lemma {:induction false} DrainGetsInHand(s: State, m: Msg)
    requires Sized(s, |s.waited|)
    ensures InHand(DrainGets(s), m) == InHand(s, m)
    decreases |s.getCache|
  {
    hide Tick;
    if s.getCache == [] || s.failed {
    } else {
      ServeSized(s);
      assert s.getCache == [s.getCache[0]] + s.getCache[1..];
      TimesAppend(s.handled, Event(Get, s.getCache[0]), m);
      DrainGetsInHand(ServeCachedGet(s), m);
    }
  }

  lemma {:induction false} DrainAddsInHand(s: State, m: Msg)
    requires Sized(s, |s.waited|)
    ensures InHand(DrainAdds(s), m) == InHand(s, m)
    decreases |s.addCache|
  {
    hide Tick;
    if s.addCache == [] || s.failed {
    } else {
      ApplySized(s);
      assert s.addCache == [s.addCache[0]] + s.addCache[1..];
      TimesAppend(s.handled, Event(Add, s.addCache[0]), m);
      DrainAddsInHand(ApplyCachedAdd(s), m);
    }
  }

  lemma {:induction false} AddInHand(s: State, x: Msg, m: Msg)
    requires Sized(s, |s.waited|) && x.worker < |s.waited|
    ensures InHand(AfterAdd(s, x), m) == InHand(s, m) + if x == m then 1 else 0
  {
    hide Tick, DrainGets, Times;
    TimesAppend(s.handled, Event(Add, x), m);
    DrainGetsInHand(s.(adds := Tick(s.adds, x.worker).0, handled := s.handled + [Event(Add, x)]), m);
  }

  lemma {:induction false} GetInHand(s: State, x: Msg, m: Msg)
    requires Sized(s, |s.waited|) && x.worker < |s.waited|
    ensures InHand(AfterGet(s, x), m) == InHand(s, m) + if x == m then 1 else 0
  {
    hide Tick, DrainAdds, Times;
    TimesAppend(s.handled, Event(Get, x), m);
    DrainAddsInHand(s.(gets := Tick(s.gets, x.worker).0, handled := s.handled + [Event(Get, x)]), m);
  }

  lemma {:induction false} HandleInHand(prog: seq<Op>, s: State, x: Msg, m: Msg)
    requires Sized(s, |s.waited|) && x.worker < |s.waited| && x.idx < |prog|
    ensures InHand(Handle(prog, s, x), m) == InHand(s, m) + if x == m then 1 else 0
  {
    hide AfterAdd, AfterGet, InHand;
    AddInHand(s, x, m);
    GetInHand(s, x, m);
  }

  ghost function UnderwayTimes(y: Sys, m: Msg): nat {
    if m.worker < |y.underway| then multiset(y.underway[m.worker])[m.idx] else 0
  }

  /** A request sent is under way, waiting or handled, once in all; one not sent is nowhere. */
  ghost predicate Accounted(y: Sys, m: Msg) {
    InHand(y.sched, m) + UnderwayTimes(y, m) == if m.worker < |y.sent| && m.idx < y.sent[m.worker] then 1 else 0
  }

  lemma {:induction false} StepAccounted(prog: seq<Op>, rules: Rules, y: Sys, y': Sys, m: Msg)
    requires Next(prog, rules, y, y') && Accounted(y, m)
    ensures Accounted(y', m)
  {
    hide Accounted, Sends, Delivers;
    if w: nat :| Sends(prog, rules, y, y', w) {
      SendAccounted(prog, rules, y, y', w, m);
    } else {
      var w: nat, j: nat :| Delivers(prog, rules, y, y', w, j);
      DeliverAccounted(prog, rules, y, y', w, j, m);
    }
  }

  lemma {:induction false} SendAccounted(prog: seq<Op>, rules: Rules, y: Sys, y': Sys, w: nat, m: Msg)
    requires Sends(prog, rules, y, y', w) && Accounted(y, m)
    ensures Accounted(y', m)
  {
    hide InHand, MaySend, Under;
  }

  lemma {:induction false} DeliverAccounted(prog: seq<Op>, rules: Rules, y: Sys, y': Sys, w: nat, j: nat, m: Msg)
    requires Delivers(prog, rules, y, y', w, j) && Accounted(y, m)
    ensures Accounted(y', m)
  {
    hide Handle, InHand;
    var ts := y.underway[w];
    HandleInHand(prog, y.sched, Msg(w, ts[j]), m);
    assert ts == ts[..j] + [ts[j]] + ts[j + 1..];
  }

  lemma {:induction false} RunAccounted(prog: seq<Op>, n: nat, rules: Rules, run: seq<Sys>, m: Msg)
    requires IsRun(prog, n, rules, run)
    ensures Accounted(run[|run| - 1], m)
    decreases |run|
  {
    hide Next;
    if |run| == 1 {
    } else {
      RunPrefix(prog, n, rules, run);
      RunAccounted(prog, n, rules, run[..|run| - 1], m);
      StepAccounted(prog, rules, run[|run| - 2], run[|run| - 1], m);
    }
  }

  /** Requests of each kind are kept with their kind. */
  ghost predicate Kinds(prog: seq<Op>, s: State) {
    && (forall i {:trigger s.addCache[i]} :: 0 <= i < |s.addCache| ==>
          s.addCache[i].idx < |prog| && prog[s.addCache[i].idx] == Add)
    && (forall i {:trigger s.getCache[i]} :: 0 <= i < |s.getCache| ==>
          s.getCache[i].idx < |prog| && prog[s.getCache[i].idx] == Get)
    && forall i {:trigger s.handled[i]} :: 0 <= i < |s.handled| ==>
         s.handled[i].msg.idx < |prog| && prog[s.handled[i].msg.idx] == s.handled[i].op
  }

  lemma {:induction false} DrainGetsKinds(prog: seq<Op>, s: State)
    requires Sized(s, |s.waited|) && Kinds(prog, s)
    ensures Kinds(prog, DrainGets(s)) && s.handled <= DrainGets(s).handled
    decreases |s.getCache|
  {
    hide Tick;
    if s.getCache == [] || s.failed {
    } else {
      ServeSized(s);
      DrainGetsKinds(prog, ServeCachedGet(s));
    }
  }

  lemma {:induction false} DrainAddsKinds(prog: seq<Op>, s: State)
    requires Sized(s, |s.waited|) && Kinds(prog, s)
    ensures Kinds(prog, DrainAdds(s)) && s.handled <= DrainAdds(s).handled
    decreases |s.addCache|
  {
    hide Tick;
    if s.addCache == [] || s.failed {
    } else {
      ApplySized(s);
      DrainAddsKinds(prog, ApplyCachedAdd(s));
    }
  }

  lemma {:induction false} HandleKinds(prog: seq<Op>, s: State, x: Msg)
    requires Sized(s, |s.waited|) && x.worker < |s.waited| && x.idx < |prog| && Kinds(prog, s)
    ensures Kinds(prog, Handle(prog, s, x)) && s.handled <= Handle(prog, s, x).handled
  {
    hide Tick, DrainGets, DrainAdds;
    if prog[x.idx] == Add {
      var t := s.(adds := Tick(s.adds, x.worker).0, handled := s.handled + [Event(Add, x)]);
      DrainGetsKinds(prog, t);
    } else {
      var t := s.(gets := Tick(s.gets, x.worker).0, handled := s.handled + [Event(Get, x)]);
      DrainAddsKinds(prog, t);
    }
  }

  lemma {:induction false} StepKinds(prog: seq<Op>, rules: Rules, y: Sys, y': Sys)
    requires Next(prog, rules, y, y') && Kinds(prog, y.sched)
    ensures Kinds(prog, y'.sched) && y.sched.handled <= y'.sched.handled
    ensures y'.sched.handled != y.sched.handled ==> y'.sent == y.sent
  {
    hide Handle, Kinds, MaySend;
    if w: nat :| Sends(prog, rules, y, y', w) {
    } else {
      var w: nat, j: nat :| Delivers(prog, rules, y, y', w, j);
      HandleKinds(prog, y.sched, Msg(w, y.underway[w][j]));
    }
  }

  lemma {:induction false} RunKinds(prog: seq<Op>, n: nat, rules: Rules, run: seq<Sys>)
    requires IsRun(prog, n, rules, run)
    ensures Kinds(prog, run[|run| - 1].sched)
    decreases |run|
  {
    hide Next;
    if |run| == 1 {
    } else {
      RunPrefix(prog, n, rules, run);
      RunKinds(prog, n, rules, run[..|run| - 1]);
      StepKinds(prog, rules, run[|run| - 2], run[|run| - 1]);
    }
  }

  // ---- what the scheduler promises ----

  /** All workers have sent the whole program and every request is handled, once. */
  ghost predicate Complete(prog: seq<Op>, n: nat, y: Sys) {
    && y.sched.addCache == [] && y.sched.getCache == [] && |y.sent| == |y.underway| == n
    && (forall w {:trigger y.sent[w]} :: 0 <= w < n ==> y.sent[w] == |prog| && y.underway[w] == [])
    && Kinds(prog, y.sched)
    && forall m: Msg {:trigger Times(y.sched.handled, m)} ::
         Times(y.sched.handled, m) == if m.worker < n && m.idx < |prog| then 1 else 0
  }

  lemma {:induction false} CompleteIf(prog: seq<Op>, n: nat, rules: Rules, run: seq<Sys>, z: P.Sys)
    requires IsRun(prog, n, rules, run) && P.Inv(prog, n, z) && Related(prog, rules, run[|run| - 1], z)
    requires P.Complete(prog, n, z)
    requires forall u :: 0 <= u < n ==> Proc(z.sched.gets, z.sched.adds)[u] >= |prog|
    ensures Complete(prog, n, run[|run| - 1])
  {
    var y := run[|run| - 1];
    hide IsRun, Core, Of, Tidy, Kinds, InHand, AddsAhead, GetsAhead;
    RunKinds(prog, n, rules, run);
    forall w | 0 <= w < n
      ensures y.sent[w] == |prog| && y.underway[w] == []
    {
      assert Queued(prog, z.sched, z.received, w);
      assert z.sent[w] == |prog| by { assert History(z.sched.handled, w) == Program(prog, w, |prog|); }
      assert z.received[w] == y.sent[w] - |y.underway[w]|;
    }
    forall m: Msg
      ensures Times(y.sched.handled, m) == if m.worker < n && m.idx < |prog| then 1 else 0
    {
      RunAccounted(prog, n, rules, run, m);
      HandNothingCached(y.sched, m);
    }
  }

  lemma {:induction false} HandNothingCached(s: State, m: Msg)
    requires s.addCache == [] && s.getCache == []
    ensures InHand(s, m) == Times(s.handled, m)
  {
  }

  /** No deadlock: a state where nobody may send and nothing is under way is complete. */
  lemma {:induction false} NoDeadlock(prog: seq<Op>, n: nat, rules: Rules, run: seq<Sys>)
    requires IsRun(prog, n, rules, run) && n > 0 && Careful(prog, rules) && Final(prog, rules, run[|run| - 1])
    ensures Complete(prog, n, run[|run| - 1])
  {
    var y := run[|run| - 1];
    hide IsRun, Related, P.Reachable, P.Inv, P.Complete, Proc, Complete, Final, Careful, Answered;
    var z := Simulated(prog, n, rules, run);
    P.ReachableInv(prog, n, z);
    var w := SlowestHandled(prog, n, rules, y, z);
    if y.underway[w] != [] {
      DeliveryMoves(prog, n, rules, y, z, w);
    } else if y.sent[w] < |prog| {
      IdleMoves(prog, n, rules, y, z, w);
    } else {
      P.AllHandled(prog, n, z);
      CompleteIf(prog, n, rules, run, z);
    }
  }

  /** The worker with the fewest requests handled has none waiting. */
  lemma {:induction false} SlowestHandled(prog: seq<Op>, n: nat, rules: Rules, y: Sys, z: P.Sys) returns (w: nat)
    requires P.Inv(prog, n, z) && Related(prog, rules, y, z) && n > 0
    ensures w < n == |y.sent| == |y.underway| == |z.sched.gets.local| == |z.sched.adds.local|
    ensures Proc(z.sched.gets, z.sched.adds)[w] == y.sent[w] - |y.underway[w]|
    ensures forall u :: 0 <= u < n ==> Proc(z.sched.gets, z.sched.adds)[w] <= Proc(z.sched.gets, z.sched.adds)[u]
  {
    hide Good, Tidy, Similar, P.Patient;
    P.GoodSized(prog, z.sched, z.received);
    w := P.Slowest(Proc(z.sched.gets, z.sched.adds));
    P.SlowestNotCached(prog, z.sched, z.received, w);
  }

  lemma {:induction false} DeliveryMoves(prog: seq<Op>, n: nat, rules: Rules, y: Sys, z: P.Sys, w: nat)
    requires P.Inv(prog, n, z) && Related(prog, rules, y, z) && w < |y.sent| == |y.underway| && y.underway[w] != []
    ensures !Final(prog, rules, y)
  {
    hide Good, Tidy, Similar, P.Patient, Delivered;
    P.NotFailed(prog, z.sched, z.received);
    SameFailed(y.sched, z.sched);
    assert Delivers(prog, rules, y, Delivered(prog, y, w, 0), w, 0);
    assert Next(prog, rules, y, Delivered(prog, y, w, 0));
  }

  lemma {:induction false} IdleMoves(prog: seq<Op>, n: nat, rules: Rules, y: Sys, z: P.Sys, w: nat)
    requires P.Inv(prog, n, z) && Related(prog, rules, y, z) && w < n == |y.sent| == |y.underway|
    requires |z.sched.gets.local| == |z.sched.adds.local| == n && Proc(z.sched.gets, z.sched.adds)[w] == y.sent[w]
    requires y.sent[w] < |prog|
    ensures !Final(prog, rules, y)
  {
    hide P.Inv, Good, Tidy, Similar, Proc, Pick;
    HandledCount(prog, n, rules, y, z, Get, w);
    HandledCount(prog, n, rules, y, z, Add, w);
    GoodNotFailed(prog, n, rules, y, z);
    assert Sends(prog, rules, y, Sent(y, w), w);
    assert Next(prog, rules, y, Sent(y, w));
  }

  lemma {:induction false} GoodNotFailed(prog: seq<Op>, n: nat, rules: Rules, y: Sys, z: P.Sys)
    requires P.Inv(prog, n, z) && Related(prog, rules, y, z)
    ensures !y.sched.failed
  {
    hide Tidy, P.Patient;
    P.NotFailed(prog, z.sched, z.received);
  }

  /** Without a request of the kind in between, none in the other log either. */
  lemma {:induction false} PickAllSameKinds(a: seq<Event>, b: seq<Event>, op: Op, p: nat, q: nat)
    requires SameKinds(a, b) && p <= q <= |a| && |PickAll(b[..p], op)| == |PickAll(b[..q], op)|
    ensures PickAll(a[..p], op) == PickAll(a[..q], op)
    decreases q
  {
    if p == q {
    } else {
      assert a[..q][..q - 1] == a[..q - 1] && b[..q][..q - 1] == b[..q - 1];
      assert a[q - 1].op == b[q - 1].op;
      PickAllGrows(b, op, p, q - 1);
      PickAllSameKinds(a, b, op, p, q - 1);
    }
  }

  lemma {:induction false} PickAllGrows(log: seq<Event>, op: Op, p: nat, q: nat)
    requires p <= q <= |log|
    ensures |PickAll(log[..p], op)| <= |PickAll(log[..q], op)|
    decreases q
  {
    if p == q {
    } else {
      assert log[..q][..q - 1] == log[..q - 1];
      PickAllGrows(log, op, p, q - 1);
    }
  }

  /** The Gets of all workers at one place of the program read the same table, whatever the updater, though messages
      overtake each other. */
  lemma {:induction false} SameParameters<T>(prog: seq<Op>, n: nat, rules: Rules, run: seq<Sys>, p: nat, q: nat,
                                            initial: T, update: (T, Msg) -> T)
    requires IsRun(prog, n, rules, run) && n > 0 && Careful(prog, rules)
    requires var log := run[|run| - 1].sched.handled;
             p < |log| && q < |log| && log[p].op == log[q].op == Get && log[p].msg.idx == log[q].msg.idx
    ensures var log := run[|run| - 1].sched.handled;
            P.Table(initial, update, log[..p]) == P.Table(initial, update, log[..q])
  {
    if p > q {
      SameParameters(prog, n, rules, run, q, p, initial, update);
    } else {
      var y := run[|run| - 1];
      hide IsRun, P.Reachable, Careful, P.Table;
      var z := Simulated(prog, n, rules, run);
      var log := y.sched.handled;
      SameGets(prog, n, rules, y, z, p, q);
      PickAllSameKinds(log, z.sched.handled, Add, p, q);
      P.TableOfAdds(initial, update, log[..p]);
      P.TableOfAdds(initial, update, log[..q]);
    }
  }

  lemma {:induction false} SameGets(prog: seq<Op>, n: nat, rules: Rules, y: Sys, z: P.Sys, p: nat, q: nat)
    requires P.Reachable(prog, n, z) && Related(prog, rules, y, z)
    requires var log := y.sched.handled;
             p < |log| && q < |log| && log[p].op == log[q].op == Get && log[p].msg.idx == log[q].msg.idx
    ensures SameKinds(y.sched.handled, z.sched.handled) && |z.sched.handled| == |y.sched.handled|
    ensures PickAll(z.sched.handled[..p], Add) == PickAll(z.sched.handled[..q], Add)
  {
    hide P.Reachable, Tidy, P.Patient;
    P.ReachableInv(prog, n, z);
    assert y.sched.handled[p] == z.sched.handled[p] && y.sched.handled[q] == z.sched.handled[q];
    SameBefore(prog, n, z.sched.handled, p, q);
  }

  // ---- exactly the Adds before the Get ----

  lemma {:induction false} PickPrefix(log: seq<Event>, op: Op, u: nat, p: nat, q: nat)
    requires p <= q <= |log|
    ensures Pick(log[..p], op, u) <= Pick(log[..q], op, u)
    decreases q
  {
    if p == q {
    } else {
      assert log[..q][..q - 1] == log[..q - 1];
      PickPrefix(log, op, u, p, q - 1);
    }
  }

  lemma {:induction false} PickTimes(log: seq<Event>, op: Op, u: nat, m: Msg)
    ensures multiset(Pick(log, op, u))[m] <= Times(log, m)
    decreases |log|
  {
    if log == [] {
    } else {
      PickTimes(log[..|log| - 1], op, u, m);
    }
  }

  lemma {:induction false} PickedFrom(log: seq<Event>, op: Op, u: nat, m: Msg)
    ensures m in Pick(log, op, u) ==> m.worker == u && exists i :: 0 <= i < |log| && log[i] == Event(op, m)
    decreases |log|
  {
    if log == [] {
    } else {
      var k := |log| - 1;
      PickedFrom(log[..k], op, u, m);
      if m in Pick(log[..k], op, u) {
        var i :| 0 <= i < k && log[..k][i] == Event(op, m);
        assert log[i] == Event(op, m);
      } else if m in Pick(log, op, u) {
        assert log[k] == Event(op, m);
      }
    }
  }

  lemma {:induction false} TimesPrefix(log: seq<Event>, m: Msg, p: nat)
    requires p <= |log|
    ensures Times(log[..p], m) <= Times(log, m)
    decreases |log|
  {
    if p == |log| {
      assert log[..p] == log;
    } else {
      assert log[..|log| - 1][..p] == log[..p];
      TimesPrefix(log[..|log| - 1], m, p);
    }
  }

  lemma {:induction false} RequestThere(prog: seq<Op>, op: Op, u: nat, t: nat, j: nat)
    requires j < t <= |prog| && prog[j] == op
    ensures multiset(Requests(prog, op, u, t))[Msg(u, j)] >= 1
    decreases t
  {
    if j < t - 1 {
      RequestThere(prog, op, u, t - 1, j);
    }
  }

  lemma {:induction false} SameSize(a: multiset<Msg>, b: multiset<Msg>)
    requires a <= b && |a| == |b|
    ensures a == b
  {
    assert b == a + (b - a);
    assert |b - a| == 0;
  }

  /** The Adds of worker u applied so far are among those it sent, none twice. */
  lemma {:induction false} PickedAreSent(prog: seq<Op>, n: nat, rules: Rules, run: seq<Sys>, p: nat, u: nat)
    requires IsRun(prog, n, rules, run) && p <= |run[|run| - 1].sched.handled|
    requires u < |run[|run| - 1].sent| && run[|run| - 1].sent[u] <= |prog|
    ensures var y := run[|run| - 1];
            multiset(Pick(y.sched.handled[..p], Add, u)) <= multiset(Requests(prog, Add, u, y.sent[u]))
  {
    var y := run[|run| - 1];
    hide IsRun, InHand, Times, Requests;
    var log := y.sched.handled;
    RunKinds(prog, n, rules, run);
    forall m: Msg
      ensures multiset(Pick(log[..p], Add, u))[m] <= multiset(Requests(prog, Add, u, y.sent[u]))[m]
    {
      PickTimes(log[..p], Add, u, m);
      PickedFrom(log[..p], Add, u, m);
      TimesPrefix(log, m, p);
      RunAccounted(prog, n, rules, run, m);
      TimesInHand(y.sched, m);
      if m in Pick(log[..p], Add, u) {
        var i :| 0 <= i < p && log[..p][i] == Event(Add, m);
        assert log[i] == Event(Add, m);
        TimesAt(log, i);
        RequestThere(prog, Add, u, y.sent[u], m.idx);
      }
    }
  }

  lemma {:induction false} TimesInHand(s: State, m: Msg)
    ensures Times(s.handled, m) <= InHand(s, m)
  {
  }

  lemma {:induction false} TimesAt(log: seq<Event>, i: nat)
    requires i < |log|
    ensures Times(log, log[i].msg) >= 1
    decreases |log|
  {
    if i < |log| - 1 {
      TimesAt(log[..|log| - 1], i);
    }
  }

  /** When a Get is answered the Adds applied of every worker are exactly those the program puts before it; within a row
      of Adds they may have come in any order. */
  lemma {:induction false} GetSeesItsAdds(prog: seq<Op>, n: nat, rules: Rules, run: seq<Sys>, p: nat, u: nat)
    requires IsRun(prog, n, rules, run) && n > 0 && Careful(prog, rules) && u < n
    requires p < |run[|run| - 1].sched.handled| && run[|run| - 1].sched.handled[p].op == Get
    ensures var log := run[|run| - 1].sched.handled; var t := log[p].msg.idx;
            t < |prog| && prog[t] == Get
            && multiset(Pick(log[..p], Add, u)) == multiset(Requests(prog, Add, u, t))
    decreases |run|
  {
    hide Next, Careful, Pick, Requests, Count;
    RunKinds(prog, n, rules, run);
    if |run| == 1 {
    } else {
      var k := |run| - 1;
      var before, y, y' := run[..k], run[k - 1], run[k];
      RunPrefix(prog, n, rules, run);
      RunKinds(prog, n, rules, before);
      StepKinds(prog, rules, y, y');
      var log, log' := y.sched.handled, y'.sched.handled;
      if p < |log| {
        assert log'[p] == log[p] && log'[..p] == log[..p];
        GetSeesItsAdds(prog, n, rules, before, p, u);
      } else {
        var q := NewGet(prog, n, rules, run, p, u);
        if q < |log| {
          GetSeesItsAdds(prog, n, rules, before, q, u);
          assert log'[..q] == log[..q];
          PickPrefix(log', Add, u, q, p);
          SameLength(Pick(log'[..q], Add, u), Pick(log'[..p], Add, u), Requests(prog, Add, u, log'[p].msg.idx));
        }
      }
    }
  }

  /** For a Get answered in the last step: either worker u has sent no Add behind that place, or its own Get there was
      answered before, after as many Adds. */
  lemma {:induction false} NewGet(prog: seq<Op>, n: nat, rules: Rules, run: seq<Sys>, p: nat, u: nat) returns (q: nat)
    requires IsRun(prog, n, rules, run) && n > 0 && Careful(prog, rules) && u < n && |run| > 1
    requires p < |run[|run| - 1].sched.handled| && run[|run| - 1].sched.handled[p].op == Get
    requires |run[|run| - 2].sched.handled| <= p
    ensures var log, log' := run[|run| - 2].sched.handled, run[|run| - 1].sched.handled; var t := log'[p].msg.idx;
            t < |prog| && prog[t] == Get && |Pick(log'[..p], Add, u)| == Count(prog, Add, t) &&
            if q < |log| then log[q] == Event(Get, Msg(u, t))
            else multiset(Pick(log'[..p], Add, u)) == multiset(Requests(prog, Add, u, t))
  {
    var k := |run| - 1;
    var before, y, y' := run[..k], run[k - 1], run[k];
    var log, log' := y.sched.handled, y'.sched.handled;
    hide Next, Careful, Related, P.Reachable, Pick, Requests, Count, Kinds;
    RunPrefix(prog, n, rules, run);
    hide IsRun;
    RunKinds(prog, n, rules, before);
    RunKinds(prog, n, rules, run);
    StepKinds(prog, rules, y, y');
    var z := Simulated(prog, n, rules, before);
    var z' := Simulated(prog, n, rules, run);
    var t := log'[p].msg.idx;
    LevelAt(prog, n, rules, y', z', p, u);
    PickedAreSent(prog, n, rules, run, p, u);
    AllPicked(prog, Pick(log'[..p], Add, u), u, y'.sent[u], t);
    RelatedSize(prog, rules, y, z);
    q := |log|;
    if Count(prog, Add, y'.sent[u]) > Count(prog, Add, t) {
      q := OwnGetAnswered(prog, n, rules, y, z, u, t);
    }
  }

  lemma {:induction false} SameLength(a: seq<Msg>, b: seq<Msg>, r: seq<Msg>)
    requires a <= b && multiset(a) == multiset(r) && |b| == |r|
    ensures a == b
  {
    assert |a| == |multiset(a)| && |r| == |multiset(r)|;
  }

  /** As many Adds as the program has before place t, out of those sent: at least as many are sent, and if no more are,
      they are exactly those. */
  lemma {:induction false} AllPicked(prog: seq<Op>, picked: seq<Msg>, u: nat, sent: nat, t: nat)
    requires sent <= |prog| && t <= |prog| && |picked| == Count(prog, Add, t)
    requires multiset(picked) <= multiset(Requests(prog, Add, u, sent))
    ensures Count(prog, Add, t) <= Count(prog, Add, sent)
    ensures Count(prog, Add, t) == Count(prog, Add, sent) ==> multiset(picked) == multiset(Requests(prog, Add, u, t))
  {
    hide Count, Requests;
    var all := Requests(prog, Add, u, sent);
    MultisetSize(multiset(picked), multiset(all));
    assert |picked| == |multiset(picked)| && |all| == |multiset(all)|;
    if Count(prog, Add, t) == Count(prog, Add, sent) {
      SameSize(multiset(picked), multiset(all));
      if sent <= t {
        SameRequests(prog, Add, u, sent, t);
      } else {
        SameRequests(prog, Add, u, t, sent);
      }
    }
  }

  lemma {:induction false} MultisetSize(a: multiset<Msg>, b: multiset<Msg>)
    requires a <= b
    ensures |a| <= |b|
  {
    assert b == a + (b - a);
  }

  lemma {:induction false} LevelAt(prog: seq<Op>, n: nat, rules: Rules, y: Sys, z: P.Sys, p: nat, u: nat)
    requires P.Reachable(prog, n, z) && Related(prog, rules, y, z) && u < n
    requires p < |y.sched.handled| && y.sched.handled[p].op == Get
    ensures u < |y.sent| && y.sent[u] <= |prog|
    ensures var t := y.sched.handled[p].msg.idx;
            t < |prog| && prog[t] == Get && |Pick(y.sched.handled[..p], Add, u)| == Count(prog, Add, t)
  {
    hide P.Reachable, Tidy, P.Patient;
    P.ReachableInv(prog, n, z);
    var log, zlog := y.sched.handled, z.sched.handled;
    assert log[p] == zlog[p];
    assert Level(prog, n, zlog[..p], zlog[p]);
    assert Pick(zlog[..p], Other(zlog[p].op), u) == Requests(prog, Add, u, zlog[p].msg.idx);
    assert SameKinds(log[..p], zlog[..p]) by {
      forall i | 0 <= i < p ensures log[..p][i].op == zlog[..p][i].op {
        assert log[i].op == zlog[i].op;
      }
    }
    PickSame(log[..p], zlog[..p], Add, u);
  }

  /** A worker that has sent an Add past a Get has that Get answered. */
  lemma {:induction false} OwnGetAnswered(prog: seq<Op>, n: nat, rules: Rules, y: Sys, z: P.Sys, u: nat, t: nat)
    returns (q: nat)
    requires P.Reachable(prog, n, z) && Related(prog, rules, y, z) && u < n == |y.sent| && t < |prog| && prog[t] == Get
    requires y.sent[u] <= |prog| && Count(prog, Add, t) < Count(prog, Add, y.sent[u])
    ensures q < |y.sched.handled| && y.sched.handled[q] == Event(Get, Msg(u, t))
  {
    hide P.Reachable, Tidy, Proc, Core, Good, Count;
    P.ReachableInv(prog, n, z);
    P.GoodCore(prog, z.sched, z.received);
    P.GoodSized(prog, z.sched, z.received);
    if y.sent[u] < t {
      CountGrows(prog, Add, y.sent[u], t);
    }
    var j := CountJump(prog, Add, t, y.sent[u]);
    assert P.Patient(prog, z, u);
    assert t < Proc(z.sched.gets, z.sched.adds)[u];
    P.HandledIff(prog, z.sched, u, t);
    q :| 0 <= q < |z.sched.handled| && z.sched.handled[q] == Event(Get, Msg(u, t));
    assert y.sched.handled[q].op == z.sched.handled[q].op;
  }

  // ---- every run ends ----

  /** Steps left, over the first m workers: two for a request not sent, one for a request under way. */
  ghost function Left(prog: seq<Op>, y: Sys, m: nat): int
    requires m <= |y.sent| && m <= |y.underway|
  {
    if m == 0 then 0 else Left(prog, y, m - 1) + 2 * (|prog| - y.sent[m - 1]) + |y.underway[m - 1]|
  }

  lemma {:induction false} LeftOne(prog: seq<Op>, y: Sys, y': Sys, w: nat, m: nat)
    requires |y.sent| == |y'.sent| == |y.underway| == |y'.underway| && m <= |y.sent| && w < |y.sent|
    requires forall u :: 0 <= u < |y.sent| && u != w ==> y'.sent[u] == y.sent[u] && y'.underway[u] == y.underway[u]
    requires |y'.underway[w]| - 2 * y'.sent[w] == |y.underway[w]| - 2 * y.sent[w] - 1
    ensures Left(prog, y', m) == Left(prog, y, m) - if w < m then 1 else 0
  {
    if m == 0 {
    } else {
      LeftOne(prog, y, y', w, m - 1);
    }
  }

  lemma {:induction false} StepLeft(prog: seq<Op>, rules: Rules, y: Sys, y': Sys)
    requires Next(prog, rules, y, y')
    ensures |y.sent| == |y'.sent| == |y.underway| == |y'.underway| && Shaped(prog, y)
    ensures Left(prog, y', |y.sent|) == Left(prog, y, |y.sent|) - 1
  {
    hide Handle, MaySend, Left;
    if w: nat :| Sends(prog, rules, y, y', w) {
      LeftOne(prog, y, y', w, |y.sent|);
    } else {
      var w: nat, j: nat :| Delivers(prog, rules, y, y', w, j);
      LeftOne(prog, y, y', w, |y.sent|);
    }
  }

  lemma {:induction false} LeftAtStart(prog: seq<Op>, n: nat, y: Sys, m: nat)
    requires Initial(n, y) && m <= n
    ensures Left(prog, y, m) == 2 * m * |prog|
  {
    if m == 0 {
    } else {
      LeftAtStart(prog, n, y, m - 1);
      assert 2 * m * |prog| == 2 * (m - 1) * |prog| + 2 * |prog|;
    }
  }

  lemma {:induction false} RunLeft(prog: seq<Op>, n: nat, rules: Rules, run: seq<Sys>)
    requires IsRun(prog, n, rules, run)
    ensures var y := run[|run| - 1];
      |y.sent| == |y.underway| == n && |run| - 1 + Left(prog, y, n) == 2 * n * |prog|
    decreases |run|
  {
    hide Next, Left;
    if |run| == 1 {
      LeftAtStart(prog, n, run[0], n);
    } else {
      RunPrefix(prog, n, rules, run);
      RunLeft(prog, n, rules, run[..|run| - 1]);
      StepLeft(prog, rules, run[|run| - 2], run[|run| - 1]);
    }
  }

  lemma {:induction false} LeftNat(prog: seq<Op>, y: Sys, m: nat)
    requires m <= |y.sent| && m <= |y.underway|
    requires forall w {:trigger y.sent[w]} :: 0 <= w < m ==> y.sent[w] <= |prog|
    ensures Left(prog, y, m) >= 0
  {
    if m == 0 {
    } else {
      LeftNat(prog, y, m - 1);
    }
  }

  lemma {:induction false} StepShaped(prog: seq<Op>, rules: Rules, y: Sys, y': Sys)
    requires Next(prog, rules, y, y')
    ensures Shaped(prog, y')
  {
    hide Handle, Answered;
    if w: nat :| Sends(prog, rules, y, y', w) {
    } else {
      var w: nat, j: nat :| Delivers(prog, rules, y, y', w, j);
    }
  }

  lemma {:induction false} RunShaped(prog: seq<Op>, n: nat, rules: Rules, run: seq<Sys>)
    requires IsRun(prog, n, rules, run)
    ensures Shaped(prog, run[|run| - 1])
  {
    hide Next, Shaped;
    if |run| == 1 {
      InitialShaped(prog, n, run[0]);
    } else {
      RunPrefix(prog, n, rules, run);
      StepShaped(prog, rules, run[|run| - 2], run[|run| - 1]);
    }
  }

  lemma {:induction false} InitialShaped(prog: seq<Op>, n: nat, y: Sys)
    requires Initial(n, y)
    ensures Shaped(prog, y)
  {
  }

  /** No run takes more steps than two a request. */
  lemma {:induction false} RunsAreFinite(prog: seq<Op>, n: nat, rules: Rules, run: seq<Sys>)
    requires IsRun(prog, n, rules, run)
    ensures |run| <= 2 * n * |prog| + 1
  {
    var y := run[|run| - 1];
    hide IsRun, Left;
    RunLeft(prog, n, rules, run);
    RunShaped(prog, n, rules, run);
    LeftNat(prog, y, n);
  }

  lemma {:induction false} OneMore(prog: seq<Op>, n: nat, rules: Rules, run: seq<Sys>, y: Sys)
    requires IsRun(prog, n, rules, run) && Next(prog, rules, run[|run| - 1], y)
    ensures IsRun(prog, n, rules, run + [y])
  {
    hide Next;
    var longer := run + [y];
    forall k | 0 < k < |longer|
      ensures Next(prog, rules, longer[k - 1], longer[k])
    {
      assert k < |run| ==> Next(prog, rules, run[k - 1], run[k]);
    }
  }

  /** Every run goes on until nothing is left to happen. */
  lemma {:induction false} ToTheEnd(prog: seq<Op>, n: nat, rules: Rules, run: seq<Sys>) returns (whole: seq<Sys>)
    requires IsRun(prog, n, rules, run)
    ensures run <= whole && IsRun(prog, n, rules, whole) && Final(prog, rules, whole[|whole| - 1])
    decreases 2 * n * |prog| + 1 - |run|
  {
    hide Next, IsRun;
    assert |run| > 0 by { RunNonEmpty(prog, n, rules, run); }
    if Final(prog, rules, run[|run| - 1]) {
      whole := run;
    } else {
      var y: Sys :| Next(prog, rules, run[|run| - 1], y);
      OneMore(prog, n, rules, run, y);
      RunsAreFinite(prog, n, rules, run + [y]);
      whole := ToTheEnd(prog, n, rules, run + [y]);
    }
  }

  lemma {:induction false} RunNonEmpty(prog: seq<Op>, n: nat, rules: Rules, run: seq<Sys>)
    requires IsRun(prog, n, rules, run)
    ensures |run| > 0
  {
  }
}
