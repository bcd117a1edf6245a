/** Workers and several servers, each server with a synchronous scheduler of its own. Every request of the common
    program goes to some of the servers, the same ones for every worker; a worker sends nothing past a Get until all
    servers asked have answered it. What the servers do in between is interleaved in any way. */
module Cluster {
  import opened ArrayTable
  import opened SyncScheduler
  import opened Lockstep
  import opened SyncState
  import O = Overtaking
  import P = SyncProtocol

  /** The program, and the servers each of its requests goes to. */
  datatype Plan = Plan(prog: seq<Op>, dest: seq<set<nat>>) {
    ghost predicate Valid() {
      |dest| == |prog|
    }
  }

  /** Whether messages arrive in the order sent, and whether workers wait for their Adds before every Get. */
  datatype Rules = Rules(ordered: bool, waits: bool)

  /** The servers, and how many requests of the program each worker has sent. */
  datatype Sys = Sys(servers: seq<O.Sys>, placed: seq<nat>)

  /** What server i gets of the first t requests. */
  ghost function Local(plan: Plan, i: nat, t: nat): (r: seq<Op>)
    requires plan.Valid() && t <= |plan.prog|
    ensures |r| <= t
  {
    if t == 0 then [] else Local(plan, i, t - 1) + if i in plan.dest[t - 1] then [plan.prog[t - 1]] else []
  }

  ghost function All(plan: Plan, i: nat): seq<Op>
    requires plan.Valid()
  {
    Local(plan, i, |plan.prog|)
  }

  ghost function Below(length: nat): (r: set<nat>)
    ensures forall t: nat {:trigger t in r} :: t in r <==> t < length
  {
    if length == 0 then {} else Below(length - 1) + {length - 1}
  }

  /** The rules as one server sees them. */
  ghost function At(rules: Rules, length: nat): O.Rules {
    O.Rules(rules.ordered, if rules.waits then Below(length) else {})
  }

  ghost predicate Shaped(plan: Plan, n: nat, y: Sys) {
    && plan.Valid() && |y.servers| > 0 && |y.placed| == n
    && (forall w {:trigger y.placed[w]} :: 0 <= w < n ==> y.placed[w] <= |plan.prog|)
    && forall i {:trigger y.servers[i]} :: 0 <= i < |y.servers| ==>
         O.Shaped(All(plan, i), y.servers[i]) && |y.servers[i].sent| == n && !y.servers[i].sched.failed
  }

  ghost predicate Initial(plan: Plan, n: nat, y: Sys) {
    && plan.Valid() && |y.servers| > 0 && y.placed == seq(n, _ => 0)
    && forall i {:trigger y.servers[i]} :: 0 <= i < |y.servers| ==> O.Initial(n, y.servers[i])
  }

  /** Every server has answered all requests of this kind it got from worker w. */
  ghost predicate Answered(plan: Plan, n: nat, y: Sys, op: Op, w: nat)
    requires Shaped(plan, n, y) && w < n
  {
    forall i {:trigger y.servers[i]} :: 0 <= i < |y.servers| ==> O.Answered(All(plan, i), y.servers[i], op, w)
  }

  ghost predicate MaySend(plan: Plan, n: nat, rules: Rules, y: Sys, w: nat)
    requires Shaped(plan, n, y) && w < n
  {
    && y.placed[w] < |plan.prog| && Answered(plan, n, y, Get, w)
    && (rules.waits && plan.prog[y.placed[w]] == Get ==> Answered(plan, n, y, Add, w))
  }

  /** Worker w's next request leaves for the servers it goes to. */
  ghost predicate Sends(plan: Plan, n: nat, rules: Rules, y: Sys, y': Sys, w: nat) {
    && Shaped(plan, n, y) && w < n && MaySend(plan, n, rules, y, w)
    && y'.placed == y.placed[w := y.placed[w] + 1] && |y'.servers| == |y.servers|
    && forall i {:trigger y'.servers[i]} {:trigger y.servers[i]} :: 0 <= i < |y.servers| ==>
         y'.servers[i] == if i in plan.dest[y.placed[w]] then O.Sent(y.servers[i], w) else y.servers[i]
  }

  /** Server i handles one of worker w's messages. */
  ghost predicate Delivers(plan: Plan, n: nat, rules: Rules, y: Sys, y': Sys, i: nat, w: nat, j: nat) {
    && Shaped(plan, n, y) && i < |y.servers| == |y'.servers|
    && O.Delivers(All(plan, i), At(rules, |All(plan, i)|), y.servers[i], y'.servers[i], w, j)
    && y' == y.(servers := y.servers[i := y'.servers[i]])
  }

  ghost predicate Next(plan: Plan, n: nat, rules: Rules, y: Sys, y': Sys) {
    || (exists w: nat :: Sends(plan, n, rules, y, y', w))
    || exists i: nat, w: nat, j: nat :: Delivers(plan, n, rules, y, y', i, w, j)
  }

  ghost predicate IsRun(plan: Plan, n: nat, rules: Rules, run: seq<Sys>) {
    && |run| > 0 && Initial(plan, n, run[0])
    && forall k {:trigger run[k]} :: 0 < k < |run| ==> Next(plan, n, rules, run[k - 1], run[k])
  }

  ghost predicate Final(plan: Plan, n: nat, rules: Rules, y: Sys) {
    forall y': Sys :: !Next(plan, n, rules, y, y')
  }

  // ---- each server alone ----

  ghost predicate Reaches(prog: seq<Op>, n: nat, rules: O.Rules, y: O.Sys) {
    exists run: seq<O.Sys> :: O.IsRun(prog, n, rules, run) && run[|run| - 1] == y
  }

  /** Each server alone is in a state its own program reaches, having been sent its share of every worker's requests. */
  ghost predicate Inv(plan: Plan, n: nat, rules: Rules, y: Sys) {
    && Shaped(plan, n, y)
    && (forall i: nat {:trigger ServerOk(plan, n, rules, y, i)} :: i < |y.servers| ==> ServerOk(plan, n, rules, y, i))
    && forall i: nat, w: nat {:trigger SentShare(plan, n, y, i, w)} :: i < |y.servers| && w < n ==>
         SentShare(plan, n, y, i, w)
  }

  ghost predicate ServerOk(plan: Plan, n: nat, rules: Rules, y: Sys, i: nat)
    requires Shaped(plan, n, y) && i < |y.servers|
  {
    Reaches(All(plan, i), n, At(rules, |All(plan, i)|), y.servers[i])
  }

  ghost predicate SentShare(plan: Plan, n: nat, y: Sys, i: nat, w: nat)
    requires Shaped(plan, n, y) && i < |y.servers| && w < n
  {
    y.servers[i].sent[w] == |Local(plan, i, y.placed[w])|
  }

  lemma {:induction false} LocalPrefix(plan: Plan, i: nat, s: nat, t: nat)
    requires plan.Valid() && s <= t <= |plan.prog|
    ensures Local(plan, i, s) <= Local(plan, i, t)
    decreases t
  {
    if s == t {
    } else {
      LocalPrefix(plan, i, s, t - 1);
    }
  }

  /** A request that goes to server i is the next one of its program. */
  lemma {:induction false} LocalNext(plan: Plan, i: nat, t: nat)
    requires plan.Valid() && t < |plan.prog| && i in plan.dest[t]
    ensures |Local(plan, i, t)| < |All(plan, i)| && All(plan, i)[|Local(plan, i, t)|] == plan.prog[t]
    ensures |Local(plan, i, t + 1)| == |Local(plan, i, t)| + 1
  {
    LocalPrefix(plan, i, t + 1, |plan.prog|);
    assert Local(plan, i, t + 1)[|Local(plan, i, t)|] == plan.prog[t];
  }

  lemma {:induction false} RunTo(prog: seq<Op>, n: nat, rules: O.Rules, y: O.Sys) returns (run: seq<O.Sys>)
    requires Reaches(prog, n, rules, y)
    ensures O.IsRun(prog, n, rules, run) && |run| > 0 && run[|run| - 1] == y
  {
    hide O.Next;
    run :| O.IsRun(prog, n, rules, run) && run[|run| - 1] == y;
  }

  lemma {:induction false} StillReaches(prog: seq<Op>, n: nat, rules: O.Rules, y: O.Sys, y': O.Sys)
    requires Reaches(prog, n, rules, y) && O.Next(prog, rules, y, y')
    ensures Reaches(prog, n, rules, y')
  {
    hide O.Next, O.IsRun;
    var run := RunTo(prog, n, rules, y);
    O.OneMore(prog, n, rules, run, y');
    assert O.IsRun(prog, n, rules, run + [y']);
  }

  lemma {:induction false} InitiallyReaches(prog: seq<Op>, n: nat, rules: O.Rules, y: O.Sys)
    requires O.Initial(n, y)
    ensures Reaches(prog, n, rules, y)
  {
    assert O.IsRun(prog, n, rules, [y]);
  }

  lemma {:induction false} SendLocal(plan: Plan, n: nat, rules: Rules, y: Sys, w: nat, i: nat)
    requires Inv(plan, n, rules, y) && w < n && MaySend(plan, n, rules, y, w) && i < |y.servers|
    requires i in plan.dest[y.placed[w]]
    ensures O.Sends(All(plan, i), At(rules, |All(plan, i)|), y.servers[i], O.Sent(y.servers[i], w), w)
  {
    hide O.Shaped, O.Answered, Local, ServerOk;
    assert SentShare(plan, n, y, i, w);
    LocalNext(plan, i, y.placed[w]);
  }

  lemma {:induction false} NotFailed(prog: seq<Op>, n: nat, rules: O.Rules, y: O.Sys)
    requires Reaches(prog, n, rules, y) && n > 0 && O.Careful(prog, rules)
    ensures O.Shaped(prog, y) && |y.sent| == n && !y.sched.failed
  {
    hide O.IsRun, O.Careful, O.Related, P.Reachable, O.Shaped;
    var run := RunTo(prog, n, rules, y);
    O.RunShaped(prog, n, rules, run);
    var z := O.Simulated(prog, n, rules, run);
    P.ReachableInv(prog, n, z);
    O.GoodNotFailed(prog, n, rules, y, z);
    O.RelatedSize(prog, rules, y, z);
  }

  ghost predicate Careful(rules: Rules) {
    rules.ordered || rules.waits
  }

  lemma {:induction false} LocallyCareful(prog: seq<Op>, rules: Rules)
    requires Careful(rules)
    ensures O.Careful(prog, At(rules, |prog|))
  {
  }

  lemma {:induction false} StepServer(plan: Plan, n: nat, rules: Rules, y: Sys, y': Sys, i: nat)
    requires Inv(plan, n, rules, y) && Next(plan, n, rules, y, y') && i < |y.servers|
    ensures |y'.servers| == |y.servers| && Reaches(All(plan, i), n, At(rules, |All(plan, i)|), y'.servers[i])
  {
    hide O.Shaped, Local, Reaches, O.Sends, O.Delivers, O.Sent, O.Answered;
    assert ServerOk(plan, n, rules, y, i);
    if w: nat :| Sends(plan, n, rules, y, y', w) {
      if i in plan.dest[y.placed[w]] {
        SendLocal(plan, n, rules, y, w, i);
        StillReaches(All(plan, i), n, At(rules, |All(plan, i)|), y.servers[i], y'.servers[i]);
      }
    } else {
      var k: nat, w: nat, j: nat :| Delivers(plan, n, rules, y, y', k, w, j);
      if i == k {
        StillReaches(All(plan, i), n, At(rules, |All(plan, i)|), y.servers[i], y'.servers[i]);
      }
    }
  }

  lemma {:induction false} StepShare(plan: Plan, n: nat, rules: Rules, y: Sys, y': Sys, i: nat, u: nat)
    requires Inv(plan, n, rules, y) && Next(plan, n, rules, y, y') && Shaped(plan, n, y') && i < |y.servers| && u < n
    ensures |y'.servers| == |y.servers| && SentShare(plan, n, y', i, u)
  {
    hide O.Shaped, Reaches, ServerOk, O.Answered, O.Handle, Local;
    assert SentShare(plan, n, y, i, u);
    if w: nat :| Sends(plan, n, rules, y, y', w) {
      if u == w {
        LocalGrows(plan, i, y.placed[w]);
      }
    } else {
      var k: nat, w: nat, j: nat :| Delivers(plan, n, rules, y, y', k, w, j);
    }
  }

  lemma {:induction false} LocalGrows(plan: Plan, i: nat, t: nat)
    requires plan.Valid() && t < |plan.prog|
    ensures |Local(plan, i, t + 1)| == |Local(plan, i, t)| + if i in plan.dest[t] then 1 else 0
  {
  }

  lemma {:induction false} NextInv(plan: Plan, n: nat, rules: Rules, y: Sys, y': Sys)
    requires Inv(plan, n, rules, y) && Next(plan, n, rules, y, y') && n > 0 && Careful(rules)
    ensures Inv(plan, n, rules, y')
  {
    hide O.Shaped, Reaches, Local, All;
    forall i | 0 <= i < |y.servers|
      ensures |y'.servers| == |y.servers| && Reaches(All(plan, i), n, At(rules, |All(plan, i)|), y'.servers[i])
      ensures O.Shaped(All(plan, i), y'.servers[i]) && |y'.servers[i].sent| == n && !y'.servers[i].sched.failed
    {
      StepServer(plan, n, rules, y, y', i);
      LocallyCareful(All(plan, i), rules);
      NotFailed(All(plan, i), n, At(rules, |All(plan, i)|), y'.servers[i]);
    }
    StepPlaced(plan, n, rules, y, y');
    assert Shaped(plan, n, y');
    forall i: nat, w: nat | i < |y'.servers| && w < n
      ensures SentShare(plan, n, y', i, w)
    {
      StepShare(plan, n, rules, y, y', i, w);
    }
  }

  lemma {:induction false} StepPlaced(plan: Plan, n: nat, rules: Rules, y: Sys, y': Sys)
    requires Next(plan, n, rules, y, y')
    ensures |y'.placed| == n && |y'.servers| == |y.servers|
    ensures forall w {:trigger y'.placed[w]} :: 0 <= w < n ==> y'.placed[w] <= |plan.prog|
  {
    hide O.Shaped, O.Delivers, O.Sent, Answered;
    if w: nat :| Sends(plan, n, rules, y, y', w) {
    } else {
      var k: nat, w: nat, j: nat :| Delivers(plan, n, rules, y, y', k, w, j);
    }
  }

  lemma {:induction false} StartInv(plan: Plan, n: nat, rules: Rules, y: Sys)
    requires Initial(plan, n, y) && n > 0
    ensures Inv(plan, n, rules, y)
  {
    hide Reaches;
    forall i: nat | i < |y.servers|
      ensures Reaches(All(plan, i), n, At(rules, |All(plan, i)|), y.servers[i])
      ensures O.Shaped(All(plan, i), y.servers[i])
    {
      InitiallyReaches(All(plan, i), n, At(rules, |All(plan, i)|), y.servers[i]);
    }
  }

  lemma {:induction false} RunInv(plan: Plan, n: nat, rules: Rules, run: seq<Sys>)
    requires IsRun(plan, n, rules, run) && n > 0 && Careful(rules)
    ensures Inv(plan, n, rules, run[|run| - 1])
    decreases |run|
  {
    hide Next, Inv, Initial;
    var k := |run| - 1;
    if k == 0 {
      StartInv(plan, n, rules, run[0]);
    } else {
      var before := run[..k];
      forall j | 0 < j < |before|
        ensures Next(plan, n, rules, before[j - 1], before[j])
      {
        assert Next(plan, n, rules, run[j - 1], run[j]);
      }
      RunInv(plan, n, rules, before);
      assert Next(plan, n, rules, run[k - 1], run[k]);
      NextInv(plan, n, rules, run[k - 1], run[k]);
    }
  }

  // ---- the Gets at one place ----

  /** Server i's log has, at position p, somebody's Get that stands at place t of the program. */
  ghost predicate GetAt(plan: Plan, y: Sys, i: nat, p: nat, t: nat) {
    && plan.Valid() && t < |plan.prog| && i < |y.servers| && p < |y.servers[i].sched.handled|
    && y.servers[i].sched.handled[p].op == Get
    && y.servers[i].sched.handled[p].msg.idx == |Local(plan, i, t)|
  }

  /** Every server asked answers the workers' Gets at one place of the program from the same table. */
  lemma {:induction false} SameAnswers<T>(plan: Plan, n: nat, rules: Rules, run: seq<Sys>, t: nat, i: nat, p: nat,
                                         q: nat, initial: T, update: (T, Msg) -> T)
    requires IsRun(plan, n, rules, run) && n > 0 && Careful(rules)
    requires GetAt(plan, run[|run| - 1], i, p, t) && GetAt(plan, run[|run| - 1], i, q, t)
    ensures var log := run[|run| - 1].servers[i].sched.handled;
            P.Table(initial, update, log[..p]) == P.Table(initial, update, log[..q])
  {
    var y := run[|run| - 1];
    hide IsRun, O.Shaped, O.IsRun, O.Careful, P.Table, Local;
    RunInv(plan, n, rules, run);
    assert ServerOk(plan, n, rules, y, i);
    var prog, local := All(plan, i), At(rules, |All(plan, i)|);
    var alone := RunTo(prog, n, local, y.servers[i]);
    LocallyCareful(prog, rules);
    O.SameParameters(prog, n, local, alone, p, q, initial, update);
  }

  /** Stretches of equal arrays are equal, and the stretches make up the array. */
  lemma {:induction false} StretchesMakeArray<T>(servers: seq<seq<T>>, a: seq<T>, b: seq<T>)
    requires Sharded(servers, a) && Sharded(servers, b) && |a| == |b|
    ensures a == b
  {
    var n := |servers|;
    forall p: nat | p < |a|
      ensures a[p] == b[p]
    {
      var i := ServerOf(|a|, n, p, n);
      assert servers[i] == Shard(a, n, i) == Shard(b, n, i);
      SizesAgree(|a|, n, i);
      assert Shard(a, n, i)[p - OffsetOf(|a|, n, i)] == Shard(b, n, i)[p - OffsetOf(|a|, n, i)];
    }
  }

  /** What the servers answer to the Gets at the given places of their logs. */
  ghost function Answers<T>(y: Sys, at: seq<nat>, initial: seq<seq<T>>,
                            updates: seq<(seq<T>, Msg) -> seq<T>>): (r: seq<seq<T>>)
    requires |at| == |initial| == |updates| == |y.servers|
    requires forall i {:trigger at[i]} :: 0 <= i < |at| ==> at[i] <= |y.servers[i].sched.handled|
    ensures |r| == |y.servers|
  {
    seq(|y.servers|, i requires 0 <= i < |y.servers| =>
      P.Table(initial[i], updates[i], y.servers[i].sched.handled[..at[i]]))
  }

  ghost predicate GetsAt(plan: Plan, y: Sys, at: seq<nat>, t: nat) {
    |at| == |y.servers| && forall i {:trigger at[i]} :: 0 <= i < |at| ==> GetAt(plan, y, i, at[i], t)
  }

  /** When a Get goes to all servers, all workers' Gets at its place read the same whole array, though each server
      applies the Adds of a round in an order of its own; the updaters may be any. */
  lemma {:induction false} SameArray<T>(plan: Plan, n: nat, rules: Rules, run: seq<Sys>, t: nat, us: seq<nat>,
                                        vs: seq<nat>, initial: seq<seq<T>>,
                                        updates: seq<(seq<T>, Msg) -> seq<T>>, a: seq<T>, b: seq<T>)
    requires IsRun(plan, n, rules, run) && n > 0 && Careful(rules)
    requires var y := run[|run| - 1];
      && GetsAt(plan, y, us, t) && GetsAt(plan, y, vs, t) && |initial| == |updates| == |y.servers|
      && Sharded(Answers(y, us, initial, updates), a) && Sharded(Answers(y, vs, initial, updates), b)
    requires |a| == |b|
    ensures a == b
  {
    var y := run[|run| - 1];
    hide P.Table, Sharded, IsRun, Careful;
    forall i | 0 <= i < |y.servers|
      ensures Answers(y, us, initial, updates)[i] == Answers(y, vs, initial, updates)[i]
    {
      assert GetAt(plan, y, i, us[i], t) && GetAt(plan, y, i, vs[i], t);
      SameAnswers(plan, n, rules, run, t, i, us[i], vs[i], initial[i], updates[i]);
    }
    assert Answers(y, us, initial, updates) == Answers(y, vs, initial, updates);
    StretchesMakeArray(Answers(y, us, initial, updates), a, b);
  }

  // ---- no deadlock ----

  /** The worker that has sent the fewest requests. */
  lemma {:induction false} FewestSent(placed: seq<nat>) returns (w: nat)
    requires |placed| > 0
    ensures w < |placed| && forall u {:trigger placed[u]} :: 0 <= u < |placed| ==> placed[w] <= placed[u]
  {
    w := P.Slowest(placed);
  }

  /** Where nothing is under way at a server, a worker that sent it no more than any other has all its answers. */
  lemma {:induction false} FewestAnswered(prog: seq<Op>, n: nat, rules: O.Rules, y: O.Sys, w: nat)
    requires Reaches(prog, n, rules, y) && n > 0 && w < n && O.Careful(prog, rules)
    requires O.Shaped(prog, y) && |y.sent| == n
    requires forall u {:trigger y.underway[u]} :: 0 <= u < n ==> y.underway[u] == []
    requires forall u {:trigger y.sent[u]} :: 0 <= u < n ==> y.sent[w] <= y.sent[u]
    ensures O.Answered(prog, y, Get, w) && O.Answered(prog, y, Add, w)
  {
    hide O.IsRun, O.Careful, O.Related, P.Reachable, P.Inv, Proc, Pick, Count;
    var run := RunTo(prog, n, rules, y);
    var z := O.Simulated(prog, n, rules, run);
    P.ReachableInv(prog, n, z);
    var v := O.SlowestHandled(prog, n, rules, y, z);
    O.HandledCount(prog, n, rules, y, z, Get, w);
    O.HandledCount(prog, n, rules, y, z, Add, w);
    O.RelatedSize(prog, rules, y, z);
    SentSame(prog, rules, y, z);
    assert y.underway[v] == [] && y.sent[w] <= y.sent[v];
  }

  lemma {:induction false} SentSame(prog: seq<Op>, rules: O.Rules, y: O.Sys, z: P.Sys)
    requires O.Related(prog, rules, y, z)
    ensures z.sent == y.sent
  {
  }

  lemma {:induction false} NothingUnderway(plan: Plan, n: nat, rules: Rules, y: Sys, i: nat, w: nat)
    requires Shaped(plan, n, y) && Final(plan, n, rules, y) && i < |y.servers| && w < n
    ensures |y.servers[i].underway| == n && y.servers[i].underway[w] == []
  {
    hide Final, Local;
    var s := y.servers[i];
    if s.underway[w] != [] {
      var prog, local := All(plan, i), At(rules, |All(plan, i)|);
      var r := O.Delivered(prog, s, w, 0);
      assert O.Delivers(prog, local, s, r, w, 0);
      DeliveryMoves(plan, n, rules, y, i, w, r);
    }
  }

  lemma {:induction false} DeliveryMoves(plan: Plan, n: nat, rules: Rules, y: Sys, i: nat, w: nat, r: O.Sys)
    requires Shaped(plan, n, y) && i < |y.servers|
    requires O.Delivers(All(plan, i), At(rules, |All(plan, i)|), y.servers[i], r, w, 0)
    ensures !Final(plan, n, rules, y)
  {
    hide O.Delivers, O.Shaped, Local;
    var y' := y.(servers := y.servers[i := r]);
    assert Delivers(plan, n, rules, y, y', i, w, 0);
    assert Next(plan, n, rules, y, y');
  }

  lemma {:induction false} SenderMoves(plan: Plan, n: nat, rules: Rules, y: Sys, w: nat)
    requires Shaped(plan, n, y) && w < n && MaySend(plan, n, rules, y, w)
    ensures !Final(plan, n, rules, y)
  {
    hide O.Shaped, Local, Answered;
    var t := y.placed[w];
    var servers := seq(|y.servers|, i requires 0 <= i < |y.servers| =>
      if i in plan.dest[t] && w < |y.servers[i].sent| == |y.servers[i].underway| then O.Sent(y.servers[i], w)
      else y.servers[i]);
    var y' := Sys(servers, y.placed[w := t + 1]);
    forall i | 0 <= i < |y.servers|
      ensures |y.servers[i].sent| == |y.servers[i].underway| == n
      ensures y'.servers[i] == if i in plan.dest[t] then O.Sent(y.servers[i], w) else y.servers[i]
    {
      SizeOf(All(plan, i), y.servers[i]);
    }
    assert Sends(plan, n, rules, y, y', w);
    assert Next(plan, n, rules, y, y');
  }

  lemma {:induction false} SizeOf(prog: seq<Op>, y: O.Sys)
    requires O.Shaped(prog, y)
    ensures |y.sent| == |y.underway|
  {
  }

  /** No deadlock: when nobody may send and nothing is under way, every server has handled all requests it is due. */
  lemma {:induction false} NoDeadlock(plan: Plan, n: nat, rules: Rules, run: seq<Sys>)
    requires IsRun(plan, n, rules, run) && n > 0 && Careful(rules) && Final(plan, n, rules, run[|run| - 1])
    ensures var y := run[|run| - 1];
            plan.Valid() && forall i {:trigger y.servers[i]} :: 0 <= i < |y.servers| ==>
              O.Complete(All(plan, i), n, y.servers[i])
  {
    var y := run[|run| - 1];
    hide IsRun, Final, O.Complete, O.Shaped, Local, All, Careful, ServerOk, SentShare;
    RunInv(plan, n, rules, run);
    var w := FewestSent(y.placed);
    if y.placed[w] < |plan.prog| {
      forall i | 0 <= i < |y.servers|
        ensures O.Answered(All(plan, i), y.servers[i], Get, w) && O.Answered(All(plan, i), y.servers[i], Add, w)
      {
        FewestHere(plan, n, rules, y, w, i);
      }
      SenderMoves(plan, n, rules, y, w);
    } else {
      forall i | 0 <= i < |y.servers|
        ensures O.Complete(All(plan, i), n, y.servers[i])
      {
        ServerComplete(plan, n, rules, y, i);
      }
    }
  }

  lemma {:induction false} FewestHere(plan: Plan, n: nat, rules: Rules, y: Sys, w: nat, i: nat)
    requires Inv(plan, n, rules, y) && Final(plan, n, rules, y) && n > 0 && w < n && Careful(rules) && i < |y.servers|
    requires forall u {:trigger y.placed[u]} :: 0 <= u < n ==> y.placed[w] <= y.placed[u]
    ensures O.Answered(All(plan, i), y.servers[i], Get, w) && O.Answered(All(plan, i), y.servers[i], Add, w)
  {
    hide Final, O.Shaped, Local, Reaches, O.Answered;
    var s := y.servers[i];
    assert ServerOk(plan, n, rules, y, i);
    forall u | 0 <= u < n
      ensures |s.underway| == n && s.underway[u] == [] && s.sent[w] <= s.sent[u]
    {
      NothingUnderway(plan, n, rules, y, i, u);
      LocalPrefix(plan, i, y.placed[w], y.placed[u]);
      assert SentShare(plan, n, y, i, w) && SentShare(plan, n, y, i, u);
    }
    LocallyCareful(All(plan, i), rules);
    FewestAnswered(All(plan, i), n, At(rules, |All(plan, i)|), s, w);
  }

  lemma {:induction false} ServerComplete(plan: Plan, n: nat, rules: Rules, y: Sys, i: nat)
    requires Inv(plan, n, rules, y) && Final(plan, n, rules, y) && n > 0 && Careful(rules) && i < |y.servers|
    requires forall u {:trigger y.placed[u]} :: 0 <= u < n ==> y.placed[u] >= |plan.prog|
    ensures O.Complete(All(plan, i), n, y.servers[i])
  {
    hide Final, O.Shaped, Local, O.Complete, O.IsRun, O.Careful, O.MaySend;
    var prog, local, s := All(plan, i), At(rules, |All(plan, i)|), y.servers[i];
    assert ServerOk(plan, n, rules, y, i);
    forall u | 0 <= u < n
      ensures |s.underway| == n && s.underway[u] == [] && s.sent[u] == |prog|
    {
      NothingUnderway(plan, n, rules, y, i, u);
      assert SentShare(plan, n, y, i, u);
      assert y.placed[u] == |plan.prog|;
    }
    SizeOf(prog, s);
    AllSentIsFinal(prog, n, local, s);
    var alone := RunTo(prog, n, local, s);
    LocallyCareful(prog, rules);
    O.NoDeadlock(prog, n, local, alone);
  }

  lemma {:induction false} AllSentIsFinal(prog: seq<Op>, n: nat, rules: O.Rules, y: O.Sys)
    requires |y.sent| == |y.underway| == n
    requires forall u {:trigger y.sent[u]} {:trigger y.underway[u]} :: 0 <= u < n ==>
               y.underway[u] == [] && y.sent[u] == |prog|
    ensures O.Final(prog, rules, y)
  {
    forall y': O.Sys
      ensures !O.Next(prog, rules, y, y')
    {
      forall w: nat ensures !O.Sends(prog, rules, y, y', w) {
        assert w < n ==> y.sent[w] == |prog|;
      }
      forall w: nat, j: nat ensures !O.Delivers(prog, rules, y, y', w, j) {
        assert w < n ==> y.underway[w] == [];
      }
    }
  }
}
