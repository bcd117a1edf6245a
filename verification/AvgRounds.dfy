/** The window average under the synchronous scheduler, with the program Add, Get, Add, Get, … : each Get reads the
    mean of all workers' deltas of its round. */
module AvgRounds {
  import opened SyncScheduler
  import opened Lockstep
  import opened SyncState
  import opened SyncProtocol
  import opened AvgUpdater

  ghost predicate Alternating(prog: seq<Op>) {
    forall t {:trigger prog[t]} :: 0 <= t < |prog| ==> prog[t] == if t % 2 == 0 then Add else Get
  }

  lemma {:induction false} AlternatingCount(prog: seq<Op>, t: nat)
    requires Alternating(prog) && t <= |prog|
    ensures Count(prog, Add, t) == (t + 1) / 2 && Count(prog, Get, t) == t / 2
    decreases t
  {
    if t == 0 {
    } else {
      AlternatingCount(prog, t - 1);
    }
  }

  /** The table after the Adds of the log. */
  ghost function Averages(a: Avg, n: nat, delta: Msg -> seq<real>, log: seq<Event>): (r: Avg)
    requires n > 0 && |a.sum| == |a.data| && forall m {:trigger delta(m)} :: |delta(m)| == |a.sum|
    ensures |r.sum| == |r.data| == |a.sum|
    decreases |log|
  {
    if log == [] then a
    else
      var before := Averages(a, n, delta, log[..|log| - 1]);
      var e := log[|log| - 1];
      if e.op == Add then AfterUpdate(before, n, delta(e.msg), 0) else before
  }

  /** How many requests of worker u are in the log. */
  ghost function Done(log: seq<Event>, u: nat): nat {
    |History(log, u)|
  }

  /** A log that holds, of each worker, the first requests of the program in order. */
  ghost predicate InOrder(prog: seq<Op>, n: nat, log: seq<Event>) {
    forall u: nat {:trigger History(log, u)} :: u < n ==>
      Done(log, u) <= |prog| && History(log, u) == Program(prog, u, Done(log, u))
      && forall op: Op {:trigger Pick(log, op, u)} :: Pick(log, op, u) == Requests(prog, op, u, Done(log, u))
  }

  /** Dropping the last event keeps the order, and that event was its worker's next request. */
  lemma {:induction false} InOrderPrefix(prog: seq<Op>, n: nat, log: seq<Event>)
    requires InOrder(prog, n, log) && log != [] && log[|log| - 1].msg.worker < n
    ensures InOrder(prog, n, log[..|log| - 1])
    ensures var e := log[|log| - 1]; e.msg.idx == Done(log[..|log| - 1], e.msg.worker)
    ensures forall u: nat {:trigger Done(log, u)} :: u < n ==>
      Done(log, u) == Done(log[..|log| - 1], u) + if u == log[|log| - 1].msg.worker then 1 else 0
  {
    var before, e := log[..|log| - 1], log[|log| - 1];
    forall u: nat | u < n
      ensures Done(before, u) <= |prog| && History(before, u) == Program(prog, u, Done(before, u))
      ensures u == e.msg.worker ==> e.msg.idx == Done(before, u)
      ensures forall op: Op {:trigger Pick(before, op, u)} ::
          Pick(before, op, u) == Requests(prog, op, u, Done(before, u))
    {
      var h, t := History(log, u), Done(log, u);
      assert h == Program(prog, u, t);
      assert Done(before, u) == if u == e.msg.worker then t - 1 else t;
      if u == e.msg.worker {
        assert h[t - 1] == e && h[..t - 1] == History(before, u);
      }
      forall op: Op ensures Pick(before, op, u) == Requests(prog, op, u, Done(before, u)) {
        PickPrefix(prog, log, op, u, t);
      }
    }
  }

  lemma {:induction false} PickPrefix(prog: seq<Op>, log: seq<Event>, op: Op, u: nat, t: nat)
    requires log != [] && t <= |prog| && Pick(log, op, u) == Requests(prog, op, u, t)
    requires var e := log[|log| - 1]; e.msg.worker == u ==> 0 < t && e == Event(prog[t - 1], Msg(u, t - 1))
    ensures var e := log[|log| - 1];
            Pick(log[..|log| - 1], op, u) == Requests(prog, op, u, if e.msg.worker == u then t - 1 else t)
  {
    var before, e := log[..|log| - 1], log[|log| - 1];
    var picked := Pick(before, op, u);
    assert picked + [] == picked;
    if e.msg.worker == u {
      var asked := Requests(prog, op, u, t - 1);
      assert asked + [] == asked;
      if e.op == op {
        assert picked == (picked + [e.msg])[..|picked|] && asked == (asked + [e.msg])[..|asked|];
        assert picked + [e.msg] == asked + [e.msg];
      }
    }
  }

  /** The sum of the round's deltas over those of the first m workers that have added theirs. */
  ghost function Partial(cnt: seq<nat>, k: nat, delta: Msg -> seq<real>, i: nat, m: nat): real
    requires m <= |cnt| && forall x {:trigger delta(x)} :: i < |delta(x)|
  {
    if m == 0 then 0.0
    else Partial(cnt, k, delta, i, m - 1) + if cnt[m - 1] == k + 1 then delta(Msg(m - 1, 2 * k))[i] else 0.0
  }

  ghost function HowMany(cnt: seq<nat>, k: nat, m: nat): (c: nat)
    requires m <= |cnt|
    ensures c <= m
  {
    if m == 0 then 0 else HowMany(cnt, k, m - 1) + if cnt[m - 1] == k + 1 then 1 else 0
  }

  lemma {:induction false} PartialUpdate(cnt: seq<nat>, k: nat, delta: Msg -> seq<real>, i: nat, w: nat, m: nat)
    requires m <= |cnt| && forall x {:trigger delta(x)} :: i < |delta(x)|
    requires w < |cnt| && cnt[w] == k
    ensures var cnt' := cnt[w := k + 1];
            && Partial(cnt', k, delta, i, m) ==
              Partial(cnt, k, delta, i, m) + (if w < m then delta(Msg(w, 2 * k))[i] else 0.0)
            && HowMany(cnt', k, m) == HowMany(cnt, k, m) + if w < m then 1 else 0
    decreases m
  {
    if m == 0 {
    } else {
      PartialUpdate(cnt, k, delta, i, w, m - 1);
    }
  }

  lemma {:induction false} HowManyUpdate(cnt: seq<nat>, k: nat, w: nat, m: nat)
    requires m <= |cnt| && w < |cnt| && cnt[w] == k
    ensures HowMany(cnt[w := k + 1], k, m) == HowMany(cnt, k, m) + if w < m then 1 else 0
    decreases m
  {
    if m == 0 {
    } else {
      HowManyUpdate(cnt, k, w, m - 1);
    }
  }

  /** All have added exactly when the number of those that have is the number of workers. */
  lemma {:induction false} HowManyAll(cnt: seq<nat>, k: nat, m: nat)
    requires m <= |cnt| && forall u {:trigger cnt[u]} :: 0 <= u < m ==> cnt[u] == k || cnt[u] == k + 1
    ensures HowMany(cnt, k, m) == m <==> forall u {:trigger cnt[u]} :: 0 <= u < m ==> cnt[u] == k + 1
    decreases m
  {
    if m == 0 {
    } else {
      HowManyAll(cnt, k, m - 1);
    }
  }

  /** Nobody has added for round k. */
  lemma {:induction false} NobodyYet(cnt: seq<nat>, k: nat, delta: Msg -> seq<real>, i: nat, m: nat)
    requires m <= |cnt| && forall x {:trigger delta(x)} :: i < |delta(x)|
    requires forall u {:trigger cnt[u]} :: 0 <= u < m ==> cnt[u] == k
    ensures Partial(cnt, k, delta, i, m) == 0.0
    decreases m
  {
    if m == 0 {
    } else {
      NobodyYet(cnt, k, delta, i, m - 1);
    }
  }

  lemma {:induction false} NobodyCounted(cnt: seq<nat>, k: nat, m: nat)
    requires m <= |cnt| && forall u {:trigger cnt[u]} :: 0 <= u < m ==> cnt[u] == k
    ensures HowMany(cnt, k, m) == 0
    decreases m
  {
    if m == 0 {
    } else {
      NobodyCounted(cnt, k, m - 1);
    }
  }

  /** The sum of all workers' deltas of round k, at element i. */
  ghost function RoundSum(n: nat, k: nat, delta: Msg -> seq<real>, i: nat): real
    requires forall x {:trigger delta(x)} :: i < |delta(x)|
  {
    if n == 0 then 0.0 else RoundSum(n - 1, k, delta, i) + delta(Msg(n - 1, 2 * k))[i]
  }

  lemma {:induction false} PartialFull(cnt: seq<nat>, k: nat, delta: Msg -> seq<real>, i: nat, m: nat)
    requires m <= |cnt| && forall x {:trigger delta(x)} :: i < |delta(x)|
    requires forall u {:trigger cnt[u]} :: 0 <= u < m ==> cnt[u] == k + 1
    ensures Partial(cnt, k, delta, i, m) == RoundSum(m, k, delta, i)
    decreases m
  {
    if m == 0 {
    } else {
      PartialFull(cnt, k, delta, i, m - 1);
    }
  }

  /** In round k some workers have added, not all; the accumulator holds their deltas, and the data the mean of
      the round before. */
  ghost predicate InRound(a: Avg, size: nat, cnt: seq<nat>, k: nat, delta: Msg -> seq<real>) {
    && |a.sum| == |a.data| == size && |cnt| > 0
    && (forall m {:trigger delta(m)} :: |delta(m)| == size)
    && (forall u {:trigger cnt[u]} :: 0 <= u < |cnt| ==> cnt[u] == k || cnt[u] == k + 1)
    && a.accu == HowMany(cnt, k, |cnt|) < |cnt|
    && (forall i {:trigger a.sum[i]} :: 0 <= i < size ==> a.sum[i] == Partial(cnt, k, delta, i, |cnt|))
    && (k > 0 ==> forall i {:trigger a.data[i]} :: 0 <= i < size ==>
          a.data[i] == RoundSum(|cnt|, k - 1, delta, i) / |cnt| as real)
  }

  lemma {:induction false} RoundStep(a: Avg, size: nat, cnt: seq<nat>, k: nat, delta: Msg -> seq<real>, w: nat)
    requires InRound(a, size, cnt, k, delta) && w < |cnt| && cnt[w] == k
    ensures var a' := AfterUpdate(a, |cnt|, delta(Msg(w, 2 * k)), 0); var cnt' := cnt[w := k + 1];
            if a.accu + 1 == |cnt| then InRound(a', size, cnt', k + 1, delta) else InRound(a', size, cnt', k, delta)
  {
    var n := |cnt|;
    var a', cnt' := AfterUpdate(a, n, delta(Msg(w, 2 * k)), 0), cnt[w := k + 1];
    HowManyUpdate(cnt, k, w, n);
    HowManyAll(cnt', k, n);
    var sum := Added(a.sum, delta(Msg(w, 2 * k)));
    forall i | 0 <= i < size ensures sum[i] == Partial(cnt', k, delta, i, n) {
      PartialUpdate(cnt, k, delta, i, w, n);
    }
    if a.accu + 1 == n {
      RoundFull(a, size, cnt', k, delta, sum, a');
    }
  }

  lemma {:induction false} RoundFull(a: Avg, size: nat, cnt: seq<nat>, k: nat, delta: Msg -> seq<real>,
                                     sum: seq<real>, a': Avg)
    requires |cnt| > 0 && |sum| == |a.data| == size
    requires forall m {:trigger delta(m)} :: |delta(m)| == size
    requires forall u {:trigger cnt[u]} :: 0 <= u < |cnt| ==> cnt[u] == k + 1
    requires forall i {:trigger sum[i]} :: 0 <= i < size ==> sum[i] == Partial(cnt, k, delta, i, |cnt|)
    requires a' == Avg(Zeros(size), 0, Averaged(a.data, sum, size, 0, |cnt|))
    ensures InRound(a', size, cnt, k + 1, delta)
  {
    hide Partial, HowMany, RoundSum;
    NobodyCounted(cnt, k + 1, |cnt|);
    forall i | 0 <= i < size
      ensures a'.sum[i] == Partial(cnt, k + 1, delta, i, |cnt|)
      ensures a'.data[i] == RoundSum(|cnt|, k, delta, i) / |cnt| as real
    {
      NobodyYet(cnt, k + 1, delta, i, |cnt|);
      PartialFull(cnt, k, delta, i, |cnt|);
      assert sum[i] == Partial(cnt, k, delta, i, |cnt|);
    }
  }

  /** How many Adds of each worker are in the log. */
  ghost function AddCounts(log: seq<Event>, n: nat): (r: seq<nat>)
    ensures |r| == n && forall u {:trigger r[u]} :: 0 <= u < n ==> r[u] == |Pick(log, Add, u)|
  {
    seq(n, u requires 0 <= u => |Pick(log, Add, u)|)
  }

  /** Just before an Add, every worker has added as often as it, or once more. */
  lemma {:induction false} AddsInRound(prog: seq<Op>, n: nat, log: seq<Event>, e: Event)
    requires Alternating(prog) && InOrder(prog, n, log) && Level(prog, n, log, e) && e.op == Add
    requires e.msg.idx == Done(log, e.msg.worker)
    ensures var cnt := AddCounts(log, n); var k := cnt[e.msg.worker];
            e.msg.idx == 2 * k && forall u {:trigger cnt[u]} :: 0 <= u < n ==> cnt[u] == k || cnt[u] == k + 1
  {
    var cnt := AddCounts(log, n);
    var w := e.msg.worker;
    AlternatingCount(prog, e.msg.idx);
    assert History(log, w) == Program(prog, w, Done(log, w));
    assert Pick(log, Add, w) == Requests(prog, Add, w, Done(log, w));
    assert prog[e.msg.idx] == Add;
    forall u | 0 <= u < n ensures cnt[u] == cnt[w] || cnt[u] == cnt[w] + 1 {
      AlternatingCount(prog, e.msg.idx);
      assert History(log, u) == Program(prog, u, Done(log, u));
      AlternatingCount(prog, Done(log, u));
      assert Pick(log, Add, u) == Requests(prog, Add, u, Done(log, u));
      assert Pick(log, Get, u) == Requests(prog, Get, u, Done(log, u));
      assert Pick(log, Other(Add), u) == Requests(prog, Get, u, e.msg.idx);
    }
  }

  /** Every log of the protocol is in some round. */
  lemma {:induction false} AlwaysInRound(prog: seq<Op>, n: nat, log: seq<Event>, a: Avg, delta: Msg -> seq<real>)
    returns (k: nat)
    requires Alternating(prog) && n > 0 && InOrder(prog, n, log) && AllLevel(prog, n, log)
    requires a.accu == 0 && |a.data| == |a.sum| && a.sum == Zeros(|a.sum|)
    requires forall m {:trigger delta(m)} :: |delta(m)| == |a.sum|
    ensures InRound(Averages(a, n, delta, log), |a.sum|, AddCounts(log, n), k, delta)
    decreases |log|
  {
    hide Alternating, InRound, InOrder, AfterUpdate;
    if log == [] {
      k := 0;
      RoundZero(n, a, delta);
    } else {
      var before, e := log[..|log| - 1], log[|log| - 1];
      LevelPrefix(prog, n, log);
      InOrderPrefix(prog, n, log);
      k := AlwaysInRound(prog, n, before, a, delta);
      CountsStep(log, n);
      var cnt := AddCounts(before, n);
      if e.op == Add {
        AddsInRound(prog, n, before, e);
        SameRound(Averages(a, n, delta, before), |a.sum|, cnt, k, delta, e.msg.worker);
        RoundStep(Averages(a, n, delta, before), |a.sum|, cnt, k, delta, e.msg.worker);
        assert e.msg == Msg(e.msg.worker, 2 * k);
        k := if Averages(a, n, delta, before).accu + 1 == n then k + 1 else k;
      }
    }
  }

  /** Two descriptions of the round agree. */
  lemma {:induction false} SameRound(a: Avg, size: nat, cnt: seq<nat>, k: nat, delta: Msg -> seq<real>, w: nat)
    requires InRound(a, size, cnt, k, delta) && w < |cnt|
    requires forall u {:trigger cnt[u]} :: 0 <= u < |cnt| ==> cnt[u] == cnt[w] || cnt[u] == cnt[w] + 1
    ensures cnt[w] == k
  {
    HowManyAll(cnt, k, |cnt|);
  }

  lemma {:induction false} RoundZero(n: nat, a: Avg, delta: Msg -> seq<real>)
    requires n > 0 && a.accu == 0 && |a.data| == |a.sum| && a.sum == Zeros(|a.sum|)
    requires forall m {:trigger delta(m)} :: |delta(m)| == |a.sum|
    ensures InRound(a, |a.sum|, AddCounts([], n), 0, delta)
  {
    var cnt := AddCounts([], n);
    NobodyCounted(cnt, 0, n);
    forall i | 0 <= i < |a.sum| ensures a.sum[i] == Partial(cnt, 0, delta, i, n) {
      NobodyYet(cnt, 0, delta, i, n);
    }
  }

  lemma {:induction false} LevelPrefix(prog: seq<Op>, n: nat, log: seq<Event>)
    requires AllLevel(prog, n, log) && log != []
    ensures AllLevel(prog, n, log[..|log| - 1]) && Level(prog, n, log[..|log| - 1], log[|log| - 1])
  {
    hide Level;
    var before := log[..|log| - 1];
    forall p | 0 <= p < |before| ensures Level(prog, n, before[..p], before[p]) {
      assert before[..p] == log[..p] && before[p] == log[p];
    }
  }

  lemma {:induction false} CountsStep(log: seq<Event>, n: nat)
    requires log != [] && log[|log| - 1].msg.worker < n
    ensures var e := log[|log| - 1]; var cnt := AddCounts(log[..|log| - 1], n);
            AddCounts(log, n) == if e.op == Add then cnt[e.msg.worker := cnt[e.msg.worker] + 1] else cnt
  {
  }

  /** The log of a run, cut anywhere, is in order. */
  lemma {:induction false} RunInOrder(prog: seq<Op>, n: nat, log: seq<Event>, p: nat)
    requires InOrder(prog, n, log) && p <= |log| && AllLevel(prog, n, log)
    ensures InOrder(prog, n, log[..p]) && AllLevel(prog, n, log[..p])
    decreases |log| - p
  {
    hide InOrder, AllLevel;
    if p < |log| {
      RunInOrder(prog, n, log, p + 1);
      var cut := log[..p + 1];
      assert cut[..|cut| - 1] == log[..p];
      LevelPrefix(prog, n, cut);
      InOrderPrefix(prog, n, cut);
    } else {
      assert log[..p] == log;
    }
  }

  lemma {:induction false} FaithfulInOrder(prog: seq<Op>, n: nat, y: Sys)
    requires Inv(prog, n, y)
    ensures InOrder(prog, n, y.sched.handled) && AllLevel(prog, n, y.sched.handled)
  {
    var s := y.sched;
    GoodCore(prog, s, y.received);
    var proc := Proc(s.gets, s.adds);
    forall u: nat | u < n
      ensures Done(s.handled, u) == proc[u] <= |prog| && History(s.handled, u) == Program(prog, u, proc[u])
    {
      Held0(prog, proc, u);
    }
  }

  lemma {:induction false} AddsBeforeGet(prog: seq<Op>, t: nat)
    requires Alternating(prog) && t < |prog| && prog[t] == Get
    ensures Count(prog, Add, t) == t / 2 + 1
  {
    AlternatingCount(prog, t);
  }

  /** At the Get of round k the accumulator is empty and the table is the mean of all workers' deltas of round k. */
  lemma {:induction false} MeanAtGet(prog: seq<Op>, n: nat, y: Sys, p: nat, a: Avg, delta: Msg -> seq<real>)
    requires Reachable(prog, n, y) && Alternating(prog)
    requires var log := y.sched.handled; p < |log| && log[p].op == Get
    requires a.accu == 0 && |a.data| == |a.sum| && a.sum == Zeros(|a.sum|)
    requires forall m {:trigger delta(m)} :: |delta(m)| == |a.sum|
    ensures var log := y.sched.handled; var k := log[p].msg.idx / 2; var r := Averages(a, n, delta, log[..p]);
            && r.accu == 0 && r.sum == Zeros(|a.sum|)
            && |r.data| == |a.data|
            && forall i {:trigger r.data[i]} :: 0 <= i < |r.data| ==> r.data[i] == RoundSum(n, k, delta, i) / n as real
  {
    hide InOrder, InRound, Averages, AllLevel, RoundSum, Inv, Alternating, Pick, Requests, Count, AddCounts;
    assert n > 0;
    hide Reachable;
    ReachableInv(prog, n, y);
    var log := y.sched.handled;
    FaithfulInOrder(prog, n, y);
    RunInOrder(prog, n, log, p);
    var k := AlwaysInRound(prog, n, log[..p], a, delta);
    LevelAtGet(prog, n, y, p);
    RoundEmpty(Averages(a, n, delta, log[..p]), |a.sum|, AddCounts(log[..p], n), k, delta, log[p].msg.idx / 2 + 1);
  }

  /** At the Get of round k every worker has added k + 1 times. */
  lemma {:induction false} LevelAtGet(prog: seq<Op>, n: nat, y: Sys, p: nat)
    requires Reachable(prog, n, y) && Alternating(prog)
    requires p < |y.sched.handled| && y.sched.handled[p].op == Get
    ensures var log := y.sched.handled;
            var cnt := AddCounts(log[..p], n);
            |cnt| == n && forall u {:trigger cnt[u]} :: 0 <= u < n ==> cnt[u] == log[p].msg.idx / 2 + 1
  {
    hide Reachable, Alternating, Pick, Requests, Count;
    var log := y.sched.handled;
    var cnt := AddCounts(log[..p], n);
    forall u | 0 <= u < n
      ensures cnt[u] == log[p].msg.idx / 2 + 1
    {
      GetSeesItsAdds(prog, n, y, p, u);
      AddsBeforeGet(prog, log[p].msg.idx);
      assert cnt[u] == |Pick(log[..p], Add, u)|;
    }
  }

  /** When all workers have added equally often the round is fresh. */
  lemma {:induction false} RoundEmpty(a: Avg, size: nat, cnt: seq<nat>, k: nat, delta: Msg -> seq<real>, c: nat)
    requires InRound(a, size, cnt, k, delta) && forall u {:trigger cnt[u]} :: 0 <= u < |cnt| ==> cnt[u] == c
    ensures k == c && a.accu == 0 && a.sum == Zeros(size) && |a.data| == size
    ensures c > 0 ==> forall i {:trigger a.data[i]} :: 0 <= i < size ==>
      a.data[i] == RoundSum(|cnt|, c - 1, delta, i) / |cnt| as real
  {
    HowManyAll(cnt, k, |cnt|);
    assert cnt[0] == c;
    NobodyCounted(cnt, k, |cnt|);
    forall i | 0 <= i < size ensures a.sum[i] == 0.0 {
      NobodyYet(cnt, k, delta, i, |cnt|);
    }
  }
}
