/** Workers and one server under the synchronous scheduler. All workers run one common program of Adds and Gets; a
    worker sends nothing past a Get that is not answered, but does not wait for its Adds. That each worker's messages
    arrive in the order sent is an assumption here; Overtaking does without it. */
module SyncProtocol {
  import opened Blocks
  import opened VectorClock
  import opened SyncScheduler
  import opened Lockstep
  import opened SyncState
  import opened SyncHandlers

  /** The server's scheduler, and how many requests of each worker were sent and delivered. */
  datatype Sys = Sys(sched: State, sent: seq<nat>, received: seq<nat>)

  ghost predicate Shaped(prog: seq<Op>, y: Sys) {
    && Sized(y.sched, |y.received|) && |y.sent| == |y.received|
    && forall w {:trigger y.sent[w]} :: 0 <= w < |y.sent| ==> y.received[w] <= y.sent[w] <= |prog|
  }

  ghost predicate Initial(n: nat, y: Sys) {
    y == Sys(Fresh(n), seq(n, _ => 0), seq(n, _ => 0))
  }

  /** A worker whose last request was a Get waits for the answer. */
  ghost predicate MaySend(prog: seq<Op>, y: Sys, w: nat)
    requires Shaped(prog, y) && w < |y.sent|
  {
    && y.sent[w] < |prog|
    && (y.sent[w] > 0 && prog[y.sent[w] - 1] == Get ==> Event(Get, Msg(w, y.sent[w] - 1)) in y.sched.handled)
  }

  ghost predicate Sends(prog: seq<Op>, y: Sys, y': Sys, w: nat) {
    && Shaped(prog, y) && w < |y.sent| && !y.sched.failed && MaySend(prog, y, w)
    && y' == y.(sent := y.sent[w := y.sent[w] + 1])
  }

  /** The server handles worker w's next message. */
  ghost function Delivered(prog: seq<Op>, y: Sys, w: nat): Sys
    requires Shaped(prog, y) && w < |y.received| && y.received[w] < y.sent[w]
  {
    var m := Msg(w, y.received[w]);
    assert y.sent[w] <= |prog|;
    Sys(if prog[m.idx] == Add then AfterAdd(y.sched, m) else AfterGet(y.sched, m),
        y.sent, y.received[w := y.received[w] + 1])
  }

  ghost predicate Delivers(prog: seq<Op>, y: Sys, y': Sys, w: nat) {
    && Shaped(prog, y) && w < |y.received| && !y.sched.failed && y.received[w] < y.sent[w]
    && y' == Delivered(prog, y, w)
  }

  ghost predicate Next(prog: seq<Op>, y: Sys, y': Sys) {
    exists w: nat :: Sends(prog, y, y', w) || Delivers(prog, y, y', w)
  }

  /** Nobody can send and nothing can be delivered. */
  ghost predicate Final(prog: seq<Op>, y: Sys) {
    forall y': Sys :: !Next(prog, y, y')
  }

  ghost predicate IsRun(prog: seq<Op>, n: nat, run: seq<Sys>) {
    && |run| > 0 && Initial(n, run[0])
    && forall k {:trigger run[k]} :: 0 < k < |run| ==> Next(prog, run[k - 1], run[k])
  }

  /** Of the Gets worker w has sent, all but one sent last have been answered. */
  ghost predicate Patient(prog: seq<Op>, y: Sys, w: nat)
    requires Shaped(prog, y) && w < |y.sent|
  {
    forall t {:trigger prog[t]} :: 0 <= t && t + 1 < y.sent[w] && prog[t] == Get ==>
      t < Proc(y.sched.gets, y.sched.adds)[w]
  }

  ghost predicate Inv(prog: seq<Op>, n: nat, y: Sys) {
    && Shaped(prog, y) && |y.sent| == n && Good(prog, y.sched, y.received)
    && forall w: nat {:trigger Patient(prog, y, w)} :: w < n ==> Patient(prog, y, w)
  }

  lemma {:induction false} InitialInv(prog: seq<Op>, n: nat, y: Sys)
    requires Initial(n, y) && n > 0
    ensures Inv(prog, n, y)
  {
    var s := y.sched;
    assert s.gets.local[0] == 0;
    assert Proc(s.gets, s.adds) == seq(n, _ => 0);
    assert Good(prog, s, y.received);
  }

  /** A request is in the log exactly when it is among those handled of its worker. */
  lemma {:induction false} InHistory(log: seq<Event>, e: Event)
    ensures e in log <==> e in History(log, e.msg.worker)
    decreases |log|
  {
    if log == [] {
    } else {
      var k := |log| - 1;
      InHistory(log[..k], e);
      assert log == log[..k] + [log[k]];
    }
  }

  lemma {:induction false} HandledIff(prog: seq<Op>, s: State, w: nat, t: nat)
    requires Core(prog, s.gets, s.adds, s.handled) && w < |s.adds.local| && t < |prog|
    ensures t < Proc(s.gets, s.adds)[w] <==> Event(prog[t], Msg(w, t)) in s.handled
  {
    var e, p := Event(prog[t], Msg(w, t)), Proc(s.gets, s.adds)[w];
    InHistory(s.handled, e);
    assert History(s.handled, w) == Program(prog, w, p);
    if t < p {
      assert Program(prog, w, p)[t] == e;
    }
  }

  /** A worker that may send has had all its Gets answered. */
  lemma {:induction false} SendPatient(prog: seq<Op>, n: nat, y: Sys, w: nat, t: nat)
    requires Inv(prog, n, y) && w < n && MaySend(prog, y, w) && t < y.sent[w] && prog[t] == Get
    ensures t < Proc(y.sched.gets, y.sched.adds)[w]
  {
    hide Good, Proc;
    if t + 1 == y.sent[w] {
      GoodCore(prog, y.sched, y.received);
      HandledIff(prog, y.sched, w, t);
    } else {
      assert Patient(prog, y, w);
    }
  }

  lemma {:induction false} SendInv(prog: seq<Op>, n: nat, y: Sys, y': Sys, w: nat)
    requires Inv(prog, n, y) && Sends(prog, y, y', w)
    ensures Inv(prog, n, y')
  {
    hide Good, Proc;
    forall u: nat | u < n ensures Patient(prog, y', u) {
      assert Patient(prog, y, u);
      if u == w {
        forall t: nat | t < y.sent[w] && prog[t] == Get ensures t < Proc(y.sched.gets, y.sched.adds)[w] {
          SendPatient(prog, n, y, w, t);
        }
      }
    }
  }

  lemma {:induction false} GoodCore(prog: seq<Op>, s: State, received: seq<nat>)
    requires Good(prog, s, received)
    ensures Core(prog, s.gets, s.adds, s.handled)
  {
  }

  /** A worker with something still to be delivered has no Get in the cache. */
  lemma {:induction false} NothingCached(prog: seq<Op>, n: nat, y: Sys, w: nat)
    requires Inv(prog, n, y) && w < n && y.received[w] < y.sent[w]
    ensures Arrives(prog, y.sched, y.received, w)
  {
    assert Patient(prog, y, w) && Queued(prog, y.sched, y.received, w);
  }

  lemma {:induction false} DeliverInv(prog: seq<Op>, n: nat, y: Sys, y': Sys, w: nat)
    requires Inv(prog, n, y) && Delivers(prog, y, y', w)
    ensures Inv(prog, n, y')
  {
    hide Good, AfterAdd, AfterGet, Proc;
    NothingCached(prog, n, y, w);
    if prog[y.received[w]] == Add {
      AddGood(prog, y.sched, y.received, w);
    } else {
      GetGood(prog, y.sched, y.received, w);
    }
    GoodSized(prog, y'.sched, y'.received);
    forall u: nat | u < n ensures Patient(prog, y', u) {
      assert Patient(prog, y, u);
      assert Proc(y.sched.gets, y.sched.adds)[u] <= Proc(y'.sched.gets, y'.sched.adds)[u];
    }
  }

  lemma {:induction false} GoodSized(prog: seq<Op>, s: State, received: seq<nat>)
    requires Good(prog, s, received)
    ensures Sized(s, |received|)
  {
  }

  lemma {:induction false} RunPrefix(prog: seq<Op>, n: nat, run: seq<Sys>, k: nat)
    requires IsRun(prog, n, run) && 0 < k <= |run|
    ensures IsRun(prog, n, run[..k])
    ensures k > 1 ==> Next(prog, run[k - 2], run[k - 1])
  {
    hide Next;
    forall j | 0 < j < k
      ensures Next(prog, run[..k][j - 1], run[..k][j])
    {
      assert Next(prog, run[j - 1], run[j]);
    }
    if k > 1 {
      assert run[..k][k - 1] == run[k - 1] && run[..k][k - 2] == run[k - 2];
    }
  }

  /** Every state of every run satisfies the invariant. */
  lemma {:induction false} RunInv(prog: seq<Op>, n: nat, run: seq<Sys>)
    requires IsRun(prog, n, run) && n > 0
    ensures Inv(prog, n, run[|run| - 1])
    decreases |run|
  {
    hide Inv, Sends, Delivers;
    if |run| == 1 {
      InitialInv(prog, n, run[0]);
    } else {
      var k := |run| - 1;
      RunPrefix(prog, n, run, k);
      RunPrefix(prog, n, run, k + 1);
      RunInv(prog, n, run[..k]);
      var w: nat :| Sends(prog, run[k - 1], run[k], w) || Delivers(prog, run[k - 1], run[k], w);
      if Sends(prog, run[k - 1], run[k], w) {
        SendInv(prog, n, run[k - 1], run[k], w);
      } else {
        DeliverInv(prog, n, run[k - 1], run[k], w);
      }
    }
  }

  /** Some run leads to the state. */
  ghost predicate Reachable(prog: seq<Op>, n: nat, y: Sys) {
    n > 0 && exists run: seq<Sys> :: IsRun(prog, n, run) && run[|run| - 1] == y
  }

  lemma {:induction false} ReachableInv(prog: seq<Op>, n: nat, y: Sys)
    requires Reachable(prog, n, y)
    ensures Inv(prog, n, y)
  {
    hide Inv;
    var run: seq<Sys> :| IsRun(prog, n, run) && run[|run| - 1] == y;
    RunInv(prog, n, run);
  }

  lemma {:induction false} StillReachable(prog: seq<Op>, n: nat, y: Sys, y': Sys)
    requires Reachable(prog, n, y) && Next(prog, y, y')
    ensures Reachable(prog, n, y')
  {
    hide Next, Initial;
    var run :| IsRun(prog, n, run) && run[|run| - 1] == y;
    var longer := run + [y'];
    forall k | 0 < k < |longer|
      ensures Next(prog, longer[k - 1], longer[k])
    {
      assert k < |run| ==> Next(prog, run[k - 1], run[k]);
    }
    assert IsRun(prog, n, longer);
  }

  lemma {:induction false} InitiallyReachable(prog: seq<Op>, n: nat, y: Sys)
    requires Initial(n, y) && n > 0
    ensures Reachable(prog, n, y)
  {
    assert IsRun(prog, n, [y]);
  }

  /** No check of the scheduler ever fails; a cached Add's worker is ahead in Gets; a cached Get's worker is ahead
      in Adds or has cached ones. */
  lemma {:induction false} NoCheckFails(prog: seq<Op>, n: nat, y: Sys)
    requires Reachable(prog, n, y)
    ensures var s := y.sched;
            && !s.failed && Sized(s, n)
            && (forall i {:trigger s.addCache[i]} :: 0 <= i < |s.addCache| ==> AddMustWait(s, s.addCache[i].worker))
            && (forall i {:trigger s.getCache[i]} :: 0 <= i < |s.getCache| ==> GetMustWait(s, s.getCache[i].worker))
  {
    ReachableInv(prog, n, y);
    var s := y.sched;
    assert Good(prog, s, y.received);
    hide Core, Inv;
    forall i | 0 <= i < |s.addCache| ensures AddMustWait(s, s.addCache[i].worker) {
      OfMember(s.addCache, i);
      assert Queued(prog, s, y.received, s.addCache[i].worker);
      assert s.waited[s.addCache[i].worker] > 0;
    }
    forall i | 0 <= i < |s.getCache| ensures GetMustWait(s, s.getCache[i].worker) {
      OfMember(s.getCache, i);
    }
  }

  lemma {:induction false} OfMember(cache: seq<Msg>, i: nat)
    requires i < |cache|
    ensures Of(cache, cache[i].worker) != []
    decreases |cache|
  {
    if i < |cache| - 1 {
      OfMember(cache[..|cache| - 1], i);
    }
  }

  /** Each worker's requests are handled in the order of the program, none twice and none left out. */
  lemma {:induction false} ProgramOrder(prog: seq<Op>, n: nat, y: Sys, w: nat)
    requires Reachable(prog, n, y) && w < n
    ensures exists t: nat :: t <= |prog| && History(y.sched.handled, w) == Program(prog, w, t)
  {
    ReachableInv(prog, n, y);
    var s := y.sched;
    Held0(prog, Proc(s.gets, s.adds), w);
    assert History(s.handled, w) == Program(prog, w, Proc(s.gets, s.adds)[w]);
  }

  /** A table under any updater: the Adds of the log applied one after the other. */
  ghost function Table<T>(initial: T, update: (T, Msg) -> T, log: seq<Event>): T {
    if log == [] then initial
    else
      var before := Table(initial, update, log[..|log| - 1]);
      var e := log[|log| - 1];
      if e.op == Add then update(before, e.msg) else before
  }

  /** The next Add is applied to the table, and the next Get leaves it. */
  lemma {:induction false} TableNext<T>(initial: T, update: (T, Msg) -> T, log: seq<Event>, m: Msg)
    ensures Table(initial, update, []) == initial
    ensures Table(initial, update, log + [Event(Add, m)]) == update(Table(initial, update, log), m)
    ensures Table(initial, update, log + [Event(Get, m)]) == Table(initial, update, log)
  {
    assert (log + [Event(Add, m)])[..|log|] == log && (log + [Event(Get, m)])[..|log|] == log;
  }

  ghost function Apply<T>(initial: T, update: (T, Msg) -> T, adds: seq<Msg>): T {
    if adds == [] then initial
    else update(Apply(initial, update, adds[..|adds| - 1]), adds[|adds| - 1])
  }

  lemma {:induction false} TableOfAdds<T>(initial: T, update: (T, Msg) -> T, log: seq<Event>)
    ensures Table(initial, update, log) == Apply(initial, update, PickAll(log, Add))
    decreases |log|
  {
    if log == [] {
    } else {
      var k := |log| - 1;
      TableOfAdds(initial, update, log[..k]);
      var adds := PickAll(log[..k], Add);
      assert (adds + [log[k].msg])[..|adds|] == adds && adds + [] == adds;
    }
  }

  /** The promise of the synchronous scheduler. When a Get is answered, every worker's Adds applied so far are
      exactly those the program puts before that Get. */
  lemma {:induction false} GetSeesItsAdds(prog: seq<Op>, n: nat, y: Sys, p: nat, u: nat)
    requires Reachable(prog, n, y) && u < n
    requires p < |y.sched.handled| && y.sched.handled[p].op == Get
    ensures var log := y.sched.handled; var t := log[p].msg.idx;
            t < |prog| && prog[t] == Get && Pick(log[..p], Add, u) == Requests(prog, Add, u, t)
  {
    ReachableInv(prog, n, y);
    var log := y.sched.handled;
    assert Level(prog, n, log[..p], log[p]);
    assert Pick(log[..p], Other(log[p].op), u) == Requests(prog, Other(log[p].op), u, log[p].msg.idx);
  }

  /** So the Gets of all workers at one place of the program read the same table, whatever the updater. */
  lemma {:induction false} SameParameters<T>(prog: seq<Op>, n: nat, y: Sys, p: nat, q: nat,
                                            initial: T, update: (T, Msg) -> T)
    requires Reachable(prog, n, y)
    requires var log := y.sched.handled;
             p < |log| && q < |log| && log[p].op == log[q].op == Get && log[p].msg.idx == log[q].msg.idx
    ensures var log := y.sched.handled;
            Table(initial, update, log[..p]) == Table(initial, update, log[..q])
  {
    ReachableInv(prog, n, y);
    var log := y.sched.handled;
    SameBefore(prog, n, log, p, q);
    TableOfAdds(initial, update, log[..p]);
    TableOfAdds(initial, update, log[..q]);
  }

  /** All workers have sent the whole program and the server has handled every request, once and in order. */
  ghost predicate Complete(prog: seq<Op>, n: nat, y: Sys) {
    && y.sched.addCache == [] && y.sched.getCache == []
    && |y.sent| == n
    && forall w: nat {:trigger History(y.sched.handled, w)} :: w < n ==>
         y.sent[w] == |prog| && History(y.sched.handled, w) == Program(prog, w, |prog|)
  }

  /** The worker that has had the fewest requests handled. */
  lemma {:induction false} Slowest(proc: seq<nat>) returns (w: nat)
    requires |proc| > 0
    ensures w < |proc| && forall u :: 0 <= u < |proc| ==> proc[w] <= proc[u]
  {
    w := 0;
    for i := 1 to |proc|
      invariant w < |proc| && forall u :: 0 <= u < i ==> proc[w] <= proc[u]
    {
      if proc[i] < proc[w] {
        w := i;
      }
    }
  }

  /** The slowest worker's counts are the global ones. */
  lemma {:induction false} SlowestIsGlobal(prog: seq<Op>, s: State, w: nat)
    requires Core(prog, s.gets, s.adds, s.handled) && w < |s.adds.local|
    requires forall u :: 0 <= u < |s.adds.local| ==> Proc(s.gets, s.adds)[w] <= Proc(s.gets, s.adds)[u]
    ensures s.gets.local[w] == s.gets.global && s.adds.local[w] == s.adds.global
  {
    var proc := Proc(s.gets, s.adds);
    forall u | 0 <= u < |s.adds.local|
      ensures s.gets.local[w] <= s.gets.local[u] && s.adds.local[w] <= s.adds.local[u]
    {
      CountGrows(prog, Get, proc[w], proc[u]);
      CountGrows(prog, Add, proc[w], proc[u]);
      assert s.gets.local[w] == Count(prog, Get, proc[w]) && s.gets.local[u] == Count(prog, Get, proc[u]);
      assert s.adds.local[w] == Count(prog, Add, proc[w]) && s.adds.local[u] == Count(prog, Add, proc[u]);
    }
  }

  /** Nothing of the slowest worker is in a cache. */
  lemma {:induction false} SlowestNotCached(prog: seq<Op>, s: State, received: seq<nat>, w: nat)
    requires Good(prog, s, received) && w < |received|
    requires forall u :: 0 <= u < |received| ==> Proc(s.gets, s.adds)[w] <= Proc(s.gets, s.adds)[u]
    ensures received[w] == Proc(s.gets, s.adds)[w]
  {
    SlowestIsGlobal(prog, s, w);
    assert Queued(prog, s, received, w);
    WaitedNat(prog, s, received, w);
    assert |Of(s.getCache, w)| == received[w] - Proc(s.gets, s.adds)[w] - s.waited[w];
  }

  lemma {:induction false} SenderMoves(prog: seq<Op>, n: nat, y: Sys, w: nat)
    requires Inv(prog, n, y) && w < n && MaySend(prog, y, w)
    ensures Next(prog, y, y.(sent := y.sent[w := y.sent[w] + 1]))
  {
    hide MaySend, Good, Patient, Delivers;
    NotFailed(prog, y.sched, y.received);
    assert Sends(prog, y, y.(sent := y.sent[w := y.sent[w] + 1]), w);
  }

  lemma {:induction false} MessageMoves(prog: seq<Op>, n: nat, y: Sys, w: nat)
    requires Inv(prog, n, y) && w < n && y.received[w] < y.sent[w]
    ensures Next(prog, y, Delivered(prog, y, w))
  {
    hide Delivered, Good, Patient, Sends;
    NotFailed(prog, y.sched, y.received);
    assert Delivers(prog, y, Delivered(prog, y, w), w);
  }

  /** When all sent by the slowest worker is delivered and it has not sent everything, it may send. */
  lemma {:induction false} SlowestMaySend(prog: seq<Op>, n: nat, y: Sys, w: nat)
    requires Inv(prog, n, y) && w < n && y.received[w] == y.sent[w] < |prog|
    requires y.received[w] == Proc(y.sched.gets, y.sched.adds)[w]
    ensures MaySend(prog, y, w)
  {
    hide Good, Proc, Core, Patient;
    GoodCore(prog, y.sched, y.received);
    if y.sent[w] > 0 {
      HandledIff(prog, y.sched, w, y.sent[w] - 1);
    }
  }

  /** No deadlock: a reachable state in which nobody can send and nothing can be delivered is complete. */
  lemma {:induction false} NoDeadlock(prog: seq<Op>, n: nat, y: Sys)
    requires Reachable(prog, n, y) && Final(prog, y)
    ensures Complete(prog, n, y)
  {
    ReachableInv(prog, n, y);
    hide Good, Proc, Complete, MaySend, Next, IsRun, Patient;
    GoodSized(prog, y.sched, y.received);
    var w := Slowest(Proc(y.sched.gets, y.sched.adds));
    SlowestNotCached(prog, y.sched, y.received, w);
    if y.received[w] < y.sent[w] {
      MessageMoves(prog, n, y, w);
    } else if y.sent[w] < |prog| {
      SlowestMaySend(prog, n, y, w);
      SenderMoves(prog, n, y, w);
    } else {
      AllHandled(prog, n, y);
    }
  }

  lemma {:induction false} NotFailed(prog: seq<Op>, s: State, received: seq<nat>)
    requires Good(prog, s, received)
    ensures !s.failed
  {
  }

  lemma {:induction false} AllHandled(prog: seq<Op>, n: nat, y: Sys)
    requires Inv(prog, n, y)
    requires forall u :: 0 <= u < n ==> Proc(y.sched.gets, y.sched.adds)[u] >= |prog|
    ensures Complete(prog, n, y)
  {
    var s := y.sched;
    forall w: nat | w < n
      ensures y.sent[w] == |prog| && History(s.handled, w) == Program(prog, w, |prog|)
      ensures Of(s.addCache, w) == [] && Of(s.getCache, w) == []
    {
      assert Queued(prog, s, y.received, w);
    }
    OfNobody(s.addCache, n);
    OfNobody(s.getCache, n);
  }

  lemma {:induction false} SumUpdate(a: seq<nat>, i: nat, m: nat)
    requires i < |a| && m <= |a|
    ensures Sum(a[i := a[i] + 1], m) == Sum(a, m) + if i < m then 1 else 0
    decreases m
  {
    if m == 0 {
    } else {
      SumUpdate(a, i, m - 1);
    }
  }

  lemma {:induction false} SumBound(a: seq<nat>, m: nat, b: nat)
    requires m <= |a| && forall i :: 0 <= i < m ==> a[i] <= b
    ensures Sum(a, m) <= m * b
    decreases m
  {
    if m == 0 {
    } else {
      SumBound(a, m - 1, b);
      assert (m - 1) * b + b == m * b;
    }
  }

  lemma {:induction false} SumZero(n: nat, m: nat)
    requires m <= n
    ensures Sum(seq(n, _ => 0), m) == 0
    decreases m
  {
    if m == 0 {
    } else {
      SumZero(n, m - 1);
    }
  }

  /** Every step is the sending or the delivery of one request. */
  lemma {:induction false} RunLength(prog: seq<Op>, n: nat, run: seq<Sys>)
    requires IsRun(prog, n, run) && n > 0
    ensures var y := run[|run| - 1]; |y.sent| == |y.received| == n && |run| == Sum(y.sent, n) + Sum(y.received, n) + 1
    decreases |run|
  {
    hide Sum, Next;
    if |run| == 1 {
      SumZero(n, n);
    } else {
      var k := |run| - 1;
      RunPrefix(prog, n, run, k);
      RunPrefix(prog, n, run, k + 1);
      RunLength(prog, n, run[..k]);
      StepSum(prog, run[k - 1], run[k], n);
    }
  }

  lemma {:induction false} StepSum(prog: seq<Op>, y: Sys, y': Sys, n: nat)
    requires Next(prog, y, y') && |y.sent| == |y.received| == n
    ensures |y'.sent| == |y'.received| == n
    ensures Sum(y'.sent, n) + Sum(y'.received, n) == Sum(y.sent, n) + Sum(y.received, n) + 1
  {
    hide Sum, AfterAdd, AfterGet, MaySend;
    var w: nat :| Sends(prog, y, y', w) || Delivers(prog, y, y', w);
    SumUpdate(y.sent, w, n);
    SumUpdate(y.received, w, n);
  }

  /** So no run takes more steps than twice the number of requests. */
  lemma {:induction false} RunsAreFinite(prog: seq<Op>, n: nat, run: seq<Sys>)
    requires IsRun(prog, n, run) && n > 0
    ensures |run| <= 2 * n * |prog| + 1
  {
    hide Good, Sum, IsRun, Patient;
    RunInv(prog, n, run);
    RunLength(prog, n, run);
    var y := run[|run| - 1];
    assert forall w :: 0 <= w < n ==> y.received[w] <= y.sent[w] <= |prog|;
    SumBound(y.sent, n, |prog|);
    SumBound(y.received, n, |prog|);
    assert n * |prog| + n * |prog| == 2 * n * |prog|;
  }

  lemma {:induction false} TickOfTwo(a: nat, b: nat, g: nat, i: nat)
    requires i < 2
    ensures var a' := if i == 0 then a + 1 else a; var b' := if i == 1 then b + 1 else b;
            Tick(Clock([a, b], g), i) ==
              if g < a' && g < b' then (Clock([a', b'], g + 1), a' <= g + 1 && b' <= g + 1)
              else (Clock([a', b'], g), false)
  {
    hide Min, Max;
    var c := Clock([a, b], g);
    var local := c.local[i := c.local[i] + 1];
    var a', b' := local[0], local[1];
    assert local == [a', b'] && c.local[0] == a && c.local[1] == b;
    assert Min(local) == if a' < b' then a' else b';
    assert Max(local, g + 1) == g + 1 <==> a' <= g + 1 && b' <= g + 1;
  }

  /** The messages handled one after the other, in whatever order they come. */
  ghost function HandleAll(prog: seq<Op>, s: State, msgs: seq<Msg>): State
    requires Sized(s, |s.waited|)
    requires forall i {:trigger msgs[i]} :: 0 <= i < |msgs| ==> msgs[i].worker < |s.waited| && msgs[i].idx < |prog|
    decreases |msgs|
  {
    if msgs == [] then s
    else HandleAll(prog, if prog[msgs[0].idx] == Add then AfterAdd(s, msgs[0]) else AfterGet(s, msgs[0]), msgs[1..])
  }

  lemma {:induction false} HandleFirst(prog: seq<Op>, s: State, m: Msg, rest: seq<Msg>)
    requires Sized(s, |s.waited|) && m.worker < |s.waited| && m.idx < |prog|
    requires forall i {:trigger rest[i]} :: 0 <= i < |rest| ==> rest[i].worker < |s.waited| && rest[i].idx < |prog|
    ensures var next := if prog[m.idx] == Add then AfterAdd(s, m) else AfterGet(s, m);
      && |next.waited| == |s.waited| && Sized(next, |next.waited|)
      && (forall i {:trigger ([m] + rest)[i]} :: 0 <= i <= |rest| ==>
            ([m] + rest)[i].worker < |s.waited| && ([m] + rest)[i].idx < |prog|)
      && HandleAll(prog, s, [m] + rest) == HandleAll(prog, next, rest)
  {
    assert ([m] + rest)[1..] == rest;
  }

  lemma {:induction false} HandleNone(prog: seq<Op>, s: State)
    requires Sized(s, |s.waited|)
    ensures HandleAll(prog, s, []) == s
  {
  }

  /** A table server of two workers whose Gets came g0 and g1 times and whose Adds came a0 and a1 times. */
  ghost function TwoWorkers(g0: nat, g1: nat, a0: nat, a1: nat, round: nat, cached: seq<Msg>,
                            handled: seq<Event>): (s: State)
    requires forall i {:trigger cached[i]} :: 0 <= i < |cached| ==> cached[i].worker < 2
    ensures Sized(s, 2) && |s.waited| == 2 && s.handled == handled && s.getCache == cached
  {
    State(Clock([g0, g1], 0), Clock([a0, a1], round), [0, 0], [], cached, handled, false)
  }

  /** What the five messages of the run below do, one by one. */
  lemma {:induction false} PipelinedSteps()
    ensures var a, b, c, d, e := Msg(0, 0), Msg(0, 1), Msg(0, 2), Msg(1, 0), Msg(1, 1);
      var adds := [Event(Add, a), Event(Add, c), Event(Add, d)];
      && Fresh(2) == TwoWorkers(0, 0, 0, 0, 0, [], [])
      && AfterAdd(Fresh(2), a) == TwoWorkers(0, 0, 1, 0, 0, [], adds[..1])
      && AfterGet(TwoWorkers(0, 0, 1, 0, 0, [], adds[..1]), b) == TwoWorkers(0, 0, 1, 0, 0, [b], adds[..1])
      && AfterAdd(TwoWorkers(0, 0, 1, 0, 0, [b], adds[..1]), c) == TwoWorkers(0, 0, 2, 0, 0, [b], adds[..2])
      && AfterAdd(TwoWorkers(0, 0, 2, 0, 0, [b], adds[..2]), d) == TwoWorkers(0, 0, 2, 1, 1, [b], adds)
      && AfterGet(TwoWorkers(0, 0, 2, 1, 1, [b], adds), e) == TwoWorkers(0, 1, 2, 1, 1, [b], adds + [Event(Get, e)])
  {
    hide Tick, DrainGets, DrainAdds, Sized;
    TickOfTwo(0, 0, 0, 0);
    TickOfTwo(1, 0, 0, 0);
    TickOfTwo(2, 0, 0, 1);
    TickOfTwo(0, 0, 0, 1);
  }

  /** The discipline is needed. Two workers run Add, Get, Add; worker 0 sends its second Add without waiting for its
      Get. Every message arrives in the order sent, yet worker 1's Get is answered after two Adds of worker 0. */
  lemma {:induction false} PipelinedGetsSeeMore()
    ensures var msgs := [Msg(0, 0), Msg(0, 1), Msg(0, 2), Msg(1, 0), Msg(1, 1)];
            HandleAll([Add, Get, Add], Fresh(2), msgs).handled ==
              [Event(Add, Msg(0, 0)), Event(Add, Msg(0, 2)), Event(Add, Msg(1, 0)), Event(Get, Msg(1, 1))]
  {
    hide AfterAdd, AfterGet, Fresh, HandleAll, TwoWorkers, Sized;
    var prog := [Add, Get, Add];
    var a, b, c, d, e := Msg(0, 0), Msg(0, 1), Msg(0, 2), Msg(1, 0), Msg(1, 1);
    var adds := [Event(Add, a), Event(Add, c), Event(Add, d)];
    PipelinedSteps();
    HandleFirst(prog, Fresh(2), a, [b, c, d, e]);
    HandleFirst(prog, TwoWorkers(0, 0, 1, 0, 0, [], adds[..1]), b, [c, d, e]);
    HandleFirst(prog, TwoWorkers(0, 0, 1, 0, 0, [b], adds[..1]), c, [d, e]);
    HandleFirst(prog, TwoWorkers(0, 0, 2, 0, 0, [b], adds[..2]), d, [e]);
    HandleFirst(prog, TwoWorkers(0, 0, 2, 1, 1, [b], adds), e, []);
    HandleNone(prog, TwoWorkers(0, 1, 2, 1, 1, [b], adds + [Event(Get, e)]));
    assert [a] + [b, c, d, e] == [a, b, c, d, e] && [b] + [c, d, e] == [b, c, d, e] && [c] + [d, e] == [c, d, e];
    assert [d] + [e] == [d, e] && [e] + [] == [e];
  }

  /** TwoWorkers with an Add of worker 0 held back. */
  ghost function HeldBack(s: State, m: Msg): (r: State)
    requires Sized(s, 2) && m.worker < 2
    ensures Sized(r, 2) && |r.waited| == 2 && r.handled == s.handled && r.addCache == [m] && r.getCache == s.getCache
  {
    s.(waited := [1, 0], addCache := [m])
  }

  /** What the four messages of the run below do, one by one. */
  lemma {:induction false} OvertakenSteps()
    ensures var a, b, c, d := Msg(0, 0), Msg(0, 1), Msg(1, 0), Msg(1, 1);
      var log := [Event(Get, b), Event(Add, c)];
      && AfterGet(Fresh(2), b) == TwoWorkers(1, 0, 0, 0, 0, [], log[..1])
      && AfterAdd(TwoWorkers(1, 0, 0, 0, 0, [], log[..1]), a) == HeldBack(TwoWorkers(1, 0, 0, 0, 0, [], log[..1]), a)
      && AfterAdd(HeldBack(TwoWorkers(1, 0, 0, 0, 0, [], log[..1]), a), c)
         == HeldBack(TwoWorkers(1, 0, 0, 1, 0, [], log), a)
      && AfterGet(HeldBack(TwoWorkers(1, 0, 0, 1, 0, [], log), a), d)
         == HeldBack(TwoWorkers(1, 0, 0, 1, 0, [d], log), a)
  {
    hide Tick, DrainGets, DrainAdds, Sized;
    TickOfTwo(0, 0, 0, 0);
    TickOfTwo(0, 0, 0, 1);
    assert Fresh(2).gets == Fresh(2).adds == Clock([0, 0], 0);
    assert [0, 0][0 := 0 + 1] == [1, 0];
  }

  /** So is the order of arrival. Two workers run Add, Get, and send the Get without waiting for the Add; worker 0's
      Get arrives first. It is answered before any Add, its Add is held back, and worker 1's Get is never answered. */
  lemma {:induction false} OvertakenGetBlocks()
    ensures var msgs := [Msg(0, 1), Msg(0, 0), Msg(1, 0), Msg(1, 1)];
            var s := HandleAll([Add, Get], Fresh(2), msgs);
            && s.handled == [Event(Get, Msg(0, 1)), Event(Add, Msg(1, 0))]
            && s.addCache == [Msg(0, 0)] && s.getCache == [Msg(1, 1)]
  {
    hide AfterAdd, AfterGet, Fresh, HandleAll, TwoWorkers, HeldBack;
    var prog := [Add, Get];
    var a, b, c, d := Msg(0, 0), Msg(0, 1), Msg(1, 0), Msg(1, 1);
    var log := [Event(Get, b), Event(Add, c)];
    OvertakenSteps();
    HandleFirst(prog, Fresh(2), b, [a, c, d]);
    HandleFirst(prog, TwoWorkers(1, 0, 0, 0, 0, [], log[..1]), a, [c, d]);
    HandleFirst(prog, HeldBack(TwoWorkers(1, 0, 0, 0, 0, [], log[..1]), a), c, [d]);
    HandleFirst(prog, HeldBack(TwoWorkers(1, 0, 0, 1, 0, [], log), a), d, []);
    HandleNone(prog, HeldBack(TwoWorkers(1, 0, 0, 1, 0, [d], log), a));
    assert [b] + [a, c, d] == [b, a, c, d] && [a] + [c, d] == [a, c, d] && [c] + [d] == [c, d] && [d] + [] == [d];
  }
}
