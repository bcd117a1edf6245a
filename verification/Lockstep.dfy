/** Why workers that run one common program stay in step: a worker's request is handled only when no other
    worker is behind it in requests of the other kind. */
module Lockstep {
  import opened SyncScheduler

  function Other(op: Op): Op {
    if op == Add then Get else Add
  }

  /** How many of the first t requests of the program are of the given kind. */
  function Count(prog: seq<Op>, op: Op, t: nat): (c: nat)
    requires t <= |prog|
  {
    if t == 0 then 0 else Count(prog, op, t - 1) + if prog[t - 1] == op then 1 else 0
  }

  /** Worker u's requests of the given kind among its first t. */
  ghost function Requests(prog: seq<Op>, op: Op, u: nat, t: nat): (r: seq<Msg>)
    requires t <= |prog|
    ensures |r| == Count(prog, op, t)
  {
    if t == 0 then []
    else Requests(prog, op, u, t - 1) + if prog[t - 1] == op then [Msg(u, t - 1)] else []
  }

  lemma {:induction false} CountGrows(prog: seq<Op>, op: Op, s: nat, t: nat)
    requires s <= t <= |prog|
    ensures Count(prog, op, s) <= Count(prog, op, t)
    decreases t
  {
    if s < t {
      CountGrows(prog, op, s, t - 1);
    }
  }

  /** Between two points with different counts there is a request of that kind. */
  lemma {:induction false} CountJump(prog: seq<Op>, op: Op, s: nat, t: nat) returns (j: nat)
    requires s <= t <= |prog| && Count(prog, op, s) < Count(prog, op, t)
    ensures s <= j < t && prog[j] == op
    decreases t
  {
    if prog[t - 1] == op {
      j := t - 1;
    } else {
      j := CountJump(prog, op, s, t - 1);
    }
  }

  /** Points with the same count have seen the same requests of that kind. */
  lemma {:induction false} SameRequests(prog: seq<Op>, op: Op, u: nat, s: nat, t: nat)
    requires s <= t <= |prog| && Count(prog, op, s) == Count(prog, op, t)
    ensures Requests(prog, op, u, s) == Requests(prog, op, u, t)
    decreases t
  {
    if s < t {
      CountGrows(prog, op, s, t - 1);
      SameRequests(prog, op, u, s, t - 1);
    }
  }

  /** Past request s and with more of the other kind, there is a request that came after s. */
  lemma {:induction false} Overtaken(prog: seq<Op>, s: nat, t: nat) returns (j: nat)
    requires s < |prog| && t <= |prog| && Count(prog, Other(prog[s]), s) < Count(prog, Other(prog[s]), t)
    ensures s < j < t && prog[j] == Other(prog[s]) && Count(prog, prog[s], s) < Count(prog, prog[s], j)
  {
    if t < s {
      CountGrows(prog, Other(prog[s]), t, s);
    }
    j := CountJump(prog, Other(prog[s]), s, t);
    CountGrows(prog, prog[s], s + 1, j);
  }

  /** Worker u has handled proc[u] requests; for each request handled, every worker has by now handled as many
      of the other kind as came before it. */
  ghost predicate InLockstep(prog: seq<Op>, proc: seq<nat>) {
    && (forall u {:trigger proc[u]} :: 0 <= u < |proc| ==> proc[u] <= |prog|)
    && forall w: nat, t: nat, u: nat {:trigger proc[u], proc[w], prog[t]} ::
         w < |proc| && t < proc[w] && u < |proc| ==>
           Count(prog, Other(prog[t]), t) <= Count(prog, Other(prog[t]), proc[u])
  }

  lemma {:induction false} Held0(prog: seq<Op>, proc: seq<nat>, u: nat)
    requires InLockstep(prog, proc) && u < |proc|
    ensures proc[u] <= |prog|
  {
  }

  lemma {:induction false} Held(prog: seq<Op>, proc: seq<nat>, w: nat, t: nat, u: nat)
    requires InLockstep(prog, proc) && w < |proc| && t < proc[w] && u < |proc|
    ensures proc[w] <= |prog| && proc[u] <= |prog|
    ensures Count(prog, Other(prog[t]), t) <= Count(prog, Other(prog[t]), proc[u])
  {
    assert proc[u] <= |prog| && prog[t] == prog[t];
  }

  /** A worker about to make a request is behind nobody in requests of the other kind. */
  lemma {:induction false} NobodyAhead(prog: seq<Op>, proc: seq<nat>, w: nat, u: nat)
    requires InLockstep(prog, proc) && w < |proc| && u < |proc| && proc[w] < |prog|
    ensures Count(prog, Other(prog[proc[w]]), proc[u]) <= Count(prog, Other(prog[proc[w]]), proc[w])
  {
    var op, s := prog[proc[w]], proc[w];
    Held0(prog, proc, u);
    hide InLockstep;
    if Count(prog, Other(op), s) < Count(prog, Other(op), proc[u]) {
      var j := Overtaken(prog, s, proc[u]);
      Held(prog, proc, u, j, w);
    }
  }

  /** A worker may take its next request when it is not ahead of anybody in requests of the other kind. */
  ghost predicate MayTake(prog: seq<Op>, proc: seq<nat>, w: nat)
    requires InLockstep(prog, proc) && w < |proc| && proc[w] < |prog|
  {
    forall u {:trigger proc[u]} :: 0 <= u < |proc| ==>
      Count(prog, Other(prog[proc[w]]), proc[w]) <= Count(prog, Other(prog[proc[w]]), proc[u])
  }

  lemma {:induction false} TakeKeepsLockstep(prog: seq<Op>, proc: seq<nat>, w: nat)
    requires InLockstep(prog, proc) && w < |proc| && proc[w] < |prog| && MayTake(prog, proc, w)
    ensures InLockstep(prog, proc[w := proc[w] + 1])
    ensures forall u {:trigger proc[u]} :: 0 <= u < |proc| ==>
      Count(prog, Other(prog[proc[w]]), proc[u]) == Count(prog, Other(prog[proc[w]]), proc[w])
  {
    var next := proc[w := proc[w] + 1];
    forall v: nat, t: nat, u: nat | v < |next| && t < next[v] && u < |next|
      ensures Count(prog, Other(prog[t]), t) <= Count(prog, Other(prog[t]), next[u])
    {
      CountGrows(prog, Other(prog[t]), proc[u], next[u]);
      if v != w || t != proc[w] {
        assert t < proc[v];
        assert Count(prog, Other(prog[t]), t) <= Count(prog, Other(prog[t]), proc[u]);
      }
    }
    forall u | 0 <= u < |proc|
      ensures Count(prog, Other(prog[proc[w]]), proc[u]) == Count(prog, Other(prog[proc[w]]), proc[w])
    {
      NobodyAhead(prog, proc, w, u);
    }
  }

  /** The requests of worker u of one kind in a log, in order. */
  ghost function Pick(log: seq<Event>, op: Op, u: nat): seq<Msg> {
    if log == [] then []
    else
      var e := log[|log| - 1];
      Pick(log[..|log| - 1], op, u) + if e.op == op && e.msg.worker == u then [e.msg] else []
  }

  /** All requests of one kind in a log, in order. */
  ghost function PickAll(log: seq<Event>, op: Op): seq<Msg> {
    if log == [] then []
    else
      var e := log[|log| - 1];
      PickAll(log[..|log| - 1], op) + if e.op == op then [e.msg] else []
  }

  /** Everything handled for worker u, in order. */
  ghost function History(log: seq<Event>, u: nat): seq<Event> {
    if log == [] then []
    else
      var e := log[|log| - 1];
      History(log[..|log| - 1], u) + if e.msg.worker == u then [e] else []
  }

  /** The first t requests of worker u. */
  ghost function Program(prog: seq<Op>, u: nat, t: nat): (r: seq<Event>)
    requires t <= |prog|
    ensures |r| == t && forall j {:trigger r[j]} :: 0 <= j < t ==> r[j] == Event(prog[j], Msg(u, j))
  {
    seq(t, j requires 0 <= j < t => Event(prog[j], Msg(u, j)))
  }

  /** When e was handled every worker's requests of the other kind were those the program puts before e. */
  ghost predicate Level(prog: seq<Op>, n: nat, log: seq<Event>, e: Event) {
    && e.msg.worker < n && e.msg.idx < |prog| && prog[e.msg.idx] == e.op
    && forall u: nat {:trigger Pick(log, Other(e.op), u)} :: u < n ==>
         Pick(log, Other(e.op), u) == Requests(prog, Other(e.op), u, e.msg.idx)
  }

  ghost predicate AllLevel(prog: seq<Op>, n: nat, log: seq<Event>) {
    forall p {:trigger log[p]} :: 0 <= p < |log| ==> Level(prog, n, log[..p], log[p])
  }

  /** The log holds exactly each worker's first requests. */
  ghost predicate Faithful(prog: seq<Op>, proc: seq<nat>, log: seq<Event>)
    requires InLockstep(prog, proc)
  {
    && (forall u: nat {:trigger History(log, u)} :: u < |proc| ==> History(log, u) == Program(prog, u, proc[u]))
    && forall u: nat, op: Op {:trigger Pick(log, op, u)} :: u < |proc| ==>
         Pick(log, op, u) == Requests(prog, op, u, proc[u])
  }

  lemma {:induction false} LogStep(prog: seq<Op>, proc: seq<nat>, log: seq<Event>, w: nat)
    requires InLockstep(prog, proc) && Faithful(prog, proc, log) && AllLevel(prog, |proc|, log)
    requires w < |proc| && proc[w] < |prog| && MayTake(prog, proc, w)
    ensures var next := proc[w := proc[w] + 1]; var log' := log + [Event(prog[proc[w]], Msg(w, proc[w]))];
            InLockstep(prog, next) && Faithful(prog, next, log') && AllLevel(prog, |proc|, log')
  {
    TakeKeepsLockstep(prog, proc, w);
    var next, e := proc[w := proc[w] + 1], Event(prog[proc[w]], Msg(w, proc[w]));
    var log' := log + [e];
    assert log'[..|log|] == log;
    forall u: nat | u < |proc|
      ensures Pick(log, Other(e.op), u) == Requests(prog, Other(e.op), u, e.msg.idx)
    {
      if proc[u] <= proc[w] {
        SameRequests(prog, Other(e.op), u, proc[u], proc[w]);
      } else {
        SameRequests(prog, Other(e.op), u, proc[w], proc[u]);
      }
    }
    forall p | 0 <= p < |log'|
      ensures Level(prog, |proc|, log'[..p], log'[p])
    {
      if p < |log| {
        assert log'[..p] == log[..p] && log'[p] == log[p];
      }
    }
    LogStepFaithful(prog, proc, log, w);
  }

  lemma {:induction false} PickStep(prog: seq<Op>, log: seq<Event>, op: Op, u: nat, w: nat, k: nat, t: nat)
    requires k <= |prog| && t < |prog| && Pick(log, op, u) == Requests(prog, op, u, k) && (u == w ==> k == t)
    ensures Pick(log + [Event(prog[t], Msg(w, t))], op, u) == Requests(prog, op, u, if u == w then t + 1 else k)
  {
    assert (log + [Event(prog[t], Msg(w, t))])[..|log|] == log;
  }

  lemma {:induction false} HistoryStep(prog: seq<Op>, log: seq<Event>, u: nat, w: nat, k: nat, t: nat)
    requires k <= |prog| && t < |prog| && History(log, u) == Program(prog, u, k) && (u == w ==> k == t)
    ensures History(log + [Event(prog[t], Msg(w, t))], u) == Program(prog, u, if u == w then t + 1 else k)
  {
    assert (log + [Event(prog[t], Msg(w, t))])[..|log|] == log;
  }

  lemma {:induction false} LogStepFaithful(prog: seq<Op>, proc: seq<nat>, log: seq<Event>, w: nat)
    requires InLockstep(prog, proc) && Faithful(prog, proc, log)
    requires w < |proc| && proc[w] < |prog| && InLockstep(prog, proc[w := proc[w] + 1])
    ensures Faithful(prog, proc[w := proc[w] + 1], log + [Event(prog[proc[w]], Msg(w, proc[w]))])
  {
    var next := proc[w := proc[w] + 1];
    var log' := log + [Event(prog[proc[w]], Msg(w, proc[w]))];
    hide InLockstep, History, Pick, Requests, Program, Count;
    forall u: nat | u < |proc|
      ensures next[u] <= |prog| && History(log', u) == Program(prog, u, next[u])
      ensures forall op: Op {:trigger Pick(log', op, u)} :: Pick(log', op, u) == Requests(prog, op, u, next[u])
    {
      WorkerStep(prog, proc, log, w, u);
    }
  }

  lemma {:induction false} WorkerStep(prog: seq<Op>, proc: seq<nat>, log: seq<Event>, w: nat, u: nat)
    requires InLockstep(prog, proc) && Faithful(prog, proc, log)
    requires w < |proc| && proc[w] < |prog| && u < |proc|
    ensures proc[u] <= |prog|
    ensures var log' := log + [Event(prog[proc[w]], Msg(w, proc[w]))]; var t := if u == w then proc[u] + 1 else proc[u];
            && History(log', u) == Program(prog, u, t)
            && forall op: Op {:trigger Pick(log', op, u)} :: Pick(log', op, u) == Requests(prog, op, u, t)
  {
    Held0(prog, proc, u);
    hide InLockstep, History, Pick, Requests, Program, Count;
    assert History(log, u) == Program(prog, u, proc[u]);
    HistoryStep(prog, log, u, w, proc[u], proc[w]);
    forall op: Op
      ensures Pick(log + [Event(prog[proc[w]], Msg(w, proc[w]))], op, u)
           == Requests(prog, op, u, if u == w then proc[u] + 1 else proc[u])
    {
      PickStep(prog, log, op, u, w, proc[u], proc[w]);
    }
  }

  lemma {:induction false} PickGrows(log: seq<Event>, op: Op, u: nat, p: nat, q: nat)
    requires p <= q <= |log|
    ensures |Pick(log[..p], op, u)| <= |Pick(log[..q], op, u)|
    decreases q
  {
    if p < q {
      PickGrows(log, op, u, p, q - 1);
      assert log[..q][..q - 1] == log[..q - 1];
    }
  }

  /** With no new request of one kind from any worker there is none at all. */
  lemma {:induction false} PickAllSame(n: nat, log: seq<Event>, op: Op, p: nat, q: nat)
    requires p <= q <= |log|
    requires forall j {:trigger log[j]} :: 0 <= j < |log| ==> log[j].msg.worker < n
    requires forall u: nat {:trigger Pick(log[..p], op, u)} :: u < n ==>
      |Pick(log[..p], op, u)| == |Pick(log[..q], op, u)|
    ensures PickAll(log[..p], op) == PickAll(log[..q], op)
    decreases q
  {
    if p < q {
      assert log[..q][..q - 1] == log[..q - 1];
      var e := log[q - 1];
      forall u: nat | u < n
        ensures |Pick(log[..p], op, u)| == |Pick(log[..q - 1], op, u)|
      {
        PickGrows(log, op, u, p, q - 1);
        PickGrows(log, op, u, q - 1, q);
      }
      PickAllSame(n, log, op, p, q - 1);
      PickGrows(log, op, e.msg.worker, p, q - 1);
      assert |Pick(log[..p], op, e.msg.worker)| == |Pick(log[..q], op, e.msg.worker)|;
    }
  }

  /** Two workers' requests at the same place of the program find the same requests of the other kind done,
      in the same order. */
  lemma {:induction false} SameBefore(prog: seq<Op>, n: nat, log: seq<Event>, p: nat, q: nat)
    requires AllLevel(prog, n, log) && p < |log| && q < |log|
    requires log[p].msg.idx == log[q].msg.idx
    ensures PickAll(log[..p], Other(log[p].op)) == PickAll(log[..q], Other(log[p].op))
  {
    if p > q {
      SameBefore(prog, n, log, q, p);
    } else {
      var op := Other(log[p].op);
      assert Level(prog, n, log[..p], log[p]) && Level(prog, n, log[..q], log[q]);
      forall u: nat | u < n
        ensures |Pick(log[..p], op, u)| == |Pick(log[..q], op, u)|
      {
        assert Pick(log[..p], op, u) == Requests(prog, op, u, log[p].msg.idx) == Pick(log[..q], op, u);
      }
      PickAllSame(n, log, op, p, q);
    }
  }
}
