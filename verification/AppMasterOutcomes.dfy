/** What each callback does to each task, and why tasks finish and jobs are aborted. */
module AppMasterOutcomes {
  import opened AppMaster
  import opened AppMasterRuns

  // ---- failures ----

  /** The task of a failed container, taken off and counted. */
  ghost predicate FromFailed(s: State, failed: seq<nat>, t: Task) {
    exists c :: c in failed && c in s.running &&
                t == s.running[c].(attempts := s.running[c].attempts + 1, container := None)
  }

  lemma {:induction false} FromMore(s: State, failed: seq<nat>, i: nat, t: Task)
    requires i <= |failed| && FromFailed(s, failed[..i], t)
    ensures FromFailed(s, failed, t)
  {
    var c :| c in failed[..i] && c in s.running &&
             t == s.running[c].(attempts := s.running[c].attempts + 1, container := None);
    assert c in failed;
  }

  /** No failed task has used up its attempts: all are taken off, nothing else happens to tasks. */
  lemma {:induction false} FailAllRemoves(s: State, order: WalkOrder, max: int, failed: seq<nat>)
    requires WalksAll(order)
    requires forall c {:trigger s.running[c]} :: c in s.running && c in failed ==> s.running[c].attempts + 1 < max
    ensures var r := FailAll(s, order, max, failed).0;
      && r == s.(running := r.running, stopped := r.stopped, blackList := r.blackList)
      && (forall c {:trigger c in r.running} :: c in r.running <==> c in s.running && c !in failed)
      && (forall c {:trigger r.running[c]} :: c in r.running ==> r.running[c] == s.running[c])
    decreases |failed|
  {
    if failed == [] {
    } else {
      var i := |failed| - 1;
      assert forall d: nat :: d in failed <==> d in failed[..i] || d == failed[i];
      FailAllRemoves(s, order, max, failed[..i]);
    }
  }

  /** Each failed task is in hand, with one attempt more and no container. */
  lemma {:induction false} FailedInHand(s: State, order: WalkOrder, max: int, failed: seq<nat>, c: nat)
    requires WalksAll(order) && c in s.running && c in failed
    requires forall d {:trigger s.running[d]} :: d in s.running && d in failed ==> s.running[d].attempts + 1 < max
    ensures s.running[c].(attempts := s.running[c].attempts + 1, container := None)
            in FailAll(s, order, max, failed).1
    decreases |failed|
  {
    hide Abort, TakenOff;
    var i := |failed| - 1;
    FailAllRemoves(s, order, max, failed[..i]);
    var (before, tasks) := FailAll(s, order, max, failed[..i]);
    if c in failed[..i] {
      FailedInHand(s, order, max, failed[..i], c);
    } else {
      assert c == failed[i] && c in before.running;
      var t := before.running[c].(attempts := before.running[c].attempts + 1, container := None);
      assert (tasks + [t])[|tasks|] == t;
    }
  }

  lemma {:induction false} HandIsFailed(s: State, order: WalkOrder, max: int, failed: seq<nat>, t: Task)
    requires WalksAll(order) && t in FailAll(s, order, max, failed).1
    requires forall d {:trigger s.running[d]} :: d in s.running && d in failed ==> s.running[d].attempts + 1 < max
    ensures FromFailed(s, failed, t)
    decreases |failed|
  {
    hide Abort, TakenOff;
    var i := |failed| - 1;
    FailAllRemoves(s, order, max, failed[..i]);
    if t in FailAll(s, order, max, failed[..i]).1 {
      HandIsFailed(s, order, max, failed[..i], t);
      FromMore(s, failed, i, t);
    } else {
      assert failed[i] in failed && failed[i] in s.running;
    }
  }

  /** The hosts of failed containers are remembered, and their containers stopped; no others. */
  lemma {:induction false} FailAllHosts(s: State, order: WalkOrder, max: int, failed: seq<nat>)
    requires WalksAll(order)
    requires forall c {:trigger s.running[c]} :: c in s.running && c in failed ==> s.running[c].attempts + 1 < max
    ensures var r := FailAll(s, order, max, failed).0;
      && (forall c {:trigger s.running[c]} :: c in s.running && c in failed && s.running[c].container.Some? ==>
            s.running[c].container.value.host in r.blackList && s.running[c].container.value.id in r.stopped)
      && s.blackList <= r.blackList && s.stopped <= r.stopped
      && (forall h {:trigger h in r.blackList} :: h in r.blackList && h !in s.blackList ==>
            exists c :: c in failed && c in s.running && s.running[c].container.Some?
                        && s.running[c].container.value.host == h)
    decreases |failed|
  {
    if failed == [] {
    } else {
      var i := |failed| - 1;
      var c := failed[i];
      assert forall d: nat :: d in failed <==> d in failed[..i] || d == c;
      FailAllHosts(s, order, max, failed[..i]);
      FailAllRemoves(s, order, max, failed[..i]);
    }
  }

  lemma {:induction false} LastAborts(s: State, order: WalkOrder, max: int, failed: seq<nat>)
    requires WalksAll(order) && failed != []
    requires var before := FailAll(s, order, max, failed[..|failed| - 1]).0; var c := failed[|failed| - 1];
             c in before.running && before.running[c].attempts + 1 >= max
    ensures var before := FailAll(s, order, max, failed[..|failed| - 1]).0;
      var (r, tasks) := FailAll(s, order, max, failed);
      && r.startAbort && Done(r) && r.finished == before.finished && before.killed <= r.killed
      && exists j :: 0 <= j < |tasks| && tasks[j].attempts >= max
  {
    hide Abort;
    var (before, tasks) := FailAll(s, order, max, failed[..|failed| - 1]);
    var c := failed[|failed| - 1];
    var t := before.running[c].(attempts := before.running[c].attempts + 1, container := None);
    AbortFinishes(TakenOff(before, c), order);
    assert (tasks + [t])[|tasks|].attempts >= max;
  }

  /** Some failed task has used up its attempts: the job is aborted and that task is in hand. */
  lemma {:induction false} FailAllAborts(s: State, order: WalkOrder, max: int, failed: seq<nat>, c: nat)
    requires WalksAll(order) && c in s.running && c in failed && s.running[c].attempts + 1 >= max
    ensures var (r, tasks) := FailAll(s, order, max, failed);
      && r.startAbort && Done(r) && r.finished == s.finished && s.killed <= r.killed
      && exists j :: 0 <= j < |tasks| && tasks[j].attempts >= max
    decreases |failed|
  {
    hide Abort;
    var i := |failed| - 1;
    var (before, tasks) := FailAll(s, order, max, failed[..i]);
    if d :| d in s.running && d in failed[..i] && s.running[d].attempts + 1 >= max {
      FailAllAborts(s, order, max, failed[..i], d);
      assert failed[i] !in before.running;
    } else {
      FailAllRemoves(s, order, max, failed[..i]);
      assert c == failed[i];
      hide FailAll;
      LastAborts(s, order, max, failed);
    }
  }

  /** The failure handler, before any abort. It aborts the job if and only if a failed task has used up its attempts; if
      not, every failed task is pending again with one attempt more and no container, and nothing else happens to
      tasks. */
  lemma {:induction false} FailureOutcome(s: State, order: WalkOrder, max: int, failed: seq<nat>)
    requires WalksAll(order) && !s.startAbort
    ensures var r := Failed(s, order, max, failed);
      && (r.startAbort <==> exists c :: c in failed && c in s.running && s.running[c].attempts + 1 >= max)
      && r.finished == s.finished && s.killed <= r.killed
      && (r.startAbort ==> Done(r) && exists j :: 0 <= j < |r.killed| && r.killed[j].attempts >= max)
      && (!r.startAbort ==>
            && r.killed == s.killed && s.pending <= r.pending
            && (forall c {:trigger c in r.running} :: c in r.running <==> c in s.running && c !in failed)
            && (forall c {:trigger r.running[c]} :: c in r.running ==> r.running[c] == s.running[c])
            && (forall c {:trigger s.running[c]} :: c in s.running && c in failed ==>
                  s.running[c].(attempts := s.running[c].attempts + 1, container := None) in r.pending[|s.pending|..])
            && forall t {:trigger t in r.pending[|s.pending|..]} :: t in r.pending[|s.pending|..] ==>
                  FromFailed(s, failed, t))
  {
    hide FailAll, FromFailed;
    var (r, tasks) := FailAll(s, order, max, failed);
    if c :| c in failed && c in s.running && s.running[c].attempts + 1 >= max {
      FailAllAborts(s, order, max, failed, c);
      var j :| 0 <= j < |tasks| && tasks[j].attempts >= max;
      assert (r.killed + tasks)[|r.killed| + j] == tasks[j];
    } else {
      FailAllRemoves(s, order, max, failed);
      forall c | c in s.running && c in failed
        ensures s.running[c].(attempts := s.running[c].attempts + 1, container := None) in tasks
      {
        FailedInHand(s, order, max, failed, c);
      }
      forall t | t in tasks ensures FromFailed(s, failed, t) {
        HandIsFailed(s, order, max, failed, t);
      }
      assert (s.pending + tasks)[|s.pending|..] == tasks;
    }
  }

  /** If the job goes on, the hosts of the failed containers get no more tasks, and the containers are stopped. */
  lemma {:induction false} FailedHosts(s: State, order: WalkOrder, max: int, failed: seq<nat>)
    requires WalksAll(order) && !s.startAbort && !Failed(s, order, max, failed).startAbort
    ensures var r := Failed(s, order, max, failed);
      && (forall c {:trigger s.running[c]} :: c in s.running && c in failed && s.running[c].container.Some? ==>
            s.running[c].container.value.host in r.blackList && s.running[c].container.value.id in r.stopped)
      && s.blackList <= r.blackList && s.stopped <= r.stopped
      && (forall h {:trigger h in r.blackList} :: h in r.blackList && h !in s.blackList ==>
            exists c :: c in failed && c in s.running && s.running[c].container.Some?
                        && s.running[c].container.value.host == h)
  {
    hide FailAll;
    FailureOutcome(s, order, max, failed);
    assert forall c {:trigger s.running[c]} :: c in s.running && c in failed ==> s.running[c].attempts + 1 < max;
    FailAllHosts(s, order, max, failed);
  }

  // ---- completions ----

  /** The task of a container that reported success. */
  ghost predicate FromSuccess(s: State, statuses: seq<Status>, t: Task) {
    exists c :: Status(c, Success) in statuses && c in s.running && t == s.running[c]
  }

  lemma {:induction false} StatusesMore(statuses: seq<Status>)
    requires statuses != []
    ensures forall st {:trigger st in statuses} ::
              st in statuses <==> st in statuses[..|statuses| - 1] || st == statuses[|statuses| - 1]
  {
    assert statuses == statuses[..|statuses| - 1] + [statuses[|statuses| - 1]];
  }

  /** Only tasks of running containers that reported success finish, whatever else is reported. */
  lemma {:induction false} SortedFinishes(s: State, order: WalkOrder, statuses: seq<Status>)
    requires WalksAll(order)
    ensures var r := Sorted(s, order, statuses).0;
      && s.finished <= r.finished
      && (forall c {:trigger c in r.running} :: c in r.running ==> c in s.running && r.running[c] == s.running[c])
      && (forall t {:trigger t in r.finished[|s.finished|..]} :: t in r.finished[|s.finished|..] ==>
            FromSuccess(s, statuses, t))
    decreases |statuses|
  {
    hide Abort, FromSuccess;
    if statuses == [] {
    } else {
      var i := |statuses| - 1;
      SortedFinishes(s, order, statuses[..i]);
      var (before, failed, stop) := Sorted(s, order, statuses[..i]);
      var st := statuses[i];
      AbortFinishes(before, order);
      forall t | t in before.finished[|s.finished|..] ensures FromSuccess(s, statuses, t) {
        SuccessMore(s, statuses, t);
      }
      if !stop && st.container in before.running && st.exit == Success {
        var t := before.running[st.container];
        SuccessLast(s, statuses);
        assert (before.finished + [t])[|s.finished|..] == before.finished[|s.finished|..] + [t];
      }
    }
  }

  lemma {:induction false} AbortFinishes(s: State, order: WalkOrder)
    requires WalksAll(order)
    ensures var r := Abort(s, order); r.startAbort && Done(r) && r.finished == s.finished && s.killed <= r.killed
  {
  }

  lemma {:induction false} SuccessMore(s: State, statuses: seq<Status>, t: Task)
    requires statuses != [] && FromSuccess(s, statuses[..|statuses| - 1], t)
    ensures FromSuccess(s, statuses, t)
  {
    StatusesMore(statuses);
    var c :| Status(c, Success) in statuses[..|statuses| - 1] && c in s.running && t == s.running[c];
    assert Status(c, Success) in statuses;
  }

  lemma {:induction false} SuccessLast(s: State, statuses: seq<Status>)
    requires statuses != [] && statuses[|statuses| - 1].exit == Success
    requires statuses[|statuses| - 1].container in s.running
    ensures FromSuccess(s, statuses, s.running[statuses[|statuses| - 1].container])
  {
    var st := statuses[|statuses| - 1];
    assert st == Status(st.container, Success) && st in statuses;
  }

  /** Without a memory kill of a running container every success finishes its task, and the failures collected are
      those of containers that still run. */
  lemma {:induction false} SortedOutcome(s: State, order: WalkOrder, statuses: seq<Status>)
    requires WalksAll(order)
    requires forall c {:trigger s.running[c]} :: c in s.running ==> Status(c, ExceededMemory) !in statuses
    ensures var (r, failed, stop) := Sorted(s, order, statuses);
      && !stop && r == s.(finished := r.finished, running := r.running) && s.finished <= r.finished
      && (forall c {:trigger c in r.running} :: c in r.running <==> c in s.running && Status(c, Success) !in statuses)
      && (forall c {:trigger s.running[c]} :: c in s.running && Status(c, Success) in statuses ==>
            s.running[c] in r.finished[|s.finished|..])
      && (forall c {:trigger c in failed} :: c in r.running ==> (c in failed <==> Status(c, OtherFailure) in statuses))
    decreases |statuses|
  {
    if statuses == [] {
    } else {
      var i := |statuses| - 1;
      StatusesMore(statuses);
      SortedOutcome(s, order, statuses[..i]);
      SortedFinishes(s, order, statuses[..i]);
      var (before, failed, stop) := Sorted(s, order, statuses[..i]);
      var st := statuses[i];
      assert st == Status(st.container, st.exit);
      if st.container in before.running {
        match st.exit {
          case Success =>
            var t := before.running[st.container];
            assert (before.finished + [t])[|s.finished|..] == before.finished[|s.finished|..] + [t];
          case OtherFailure =>
            assert (failed + [st.container])[|failed|] == st.container;
          case ExceededMemory =>
        }
      }
    }
  }

  /** The container reported a failure, and not success as well. */
  predicate Fails(statuses: seq<Status>, c: nat) {
    Status(c, OtherFailure) in statuses && Status(c, Success) !in statuses
  }

  /** Completions without a memory kill: the successes finish, and then the failures are handled. */
  lemma {:induction false} FinishThenFail(s: State, order: WalkOrder, max: int, statuses: seq<Status>)
    returns (m: State, failed: seq<nat>)
    requires WalksAll(order)
    requires forall c {:trigger s.running[c]} :: c in s.running ==> Status(c, ExceededMemory) !in statuses
    ensures Completed(s, order, max, statuses) == Failed(m, order, max, failed)
    ensures m == s.(finished := m.finished, running := m.running) && s.finished <= m.finished
    ensures forall c {:trigger c in m.running} :: c in m.running <==> c in s.running && Status(c, Success) !in statuses
    ensures forall c {:trigger m.running[c]} :: c in m.running ==> m.running[c] == s.running[c]
    ensures forall c {:trigger c in failed} :: c in m.running ==> (c in failed <==> Status(c, OtherFailure) in statuses)
    ensures forall c {:trigger s.running[c]} :: c in s.running && Status(c, Success) in statuses ==>
              s.running[c] in m.finished[|s.finished|..]
    ensures forall t {:trigger t in m.finished[|s.finished|..]} :: t in m.finished[|s.finished|..] ==>
              FromSuccess(s, statuses, t)
  {
    hide Sorted, Failed, FromSuccess;
    SortedOutcome(s, order, statuses);
    SortedFinishes(s, order, statuses);
    m, failed := Sorted(s, order, statuses).0, Sorted(s, order, statuses).1;
  }

  /** The tasks that finish are those whose running container reported success. */
  lemma {:induction false} SuccessesFinish(s: State, order: WalkOrder, max: int, statuses: seq<Status>)
    requires WalksAll(order) && !s.startAbort
    requires forall c {:trigger s.running[c]} :: c in s.running ==> Status(c, ExceededMemory) !in statuses
    ensures var r := Completed(s, order, max, statuses);
      && s.finished <= r.finished
      && (forall c {:trigger s.running[c]} :: c in s.running && Status(c, Success) in statuses ==>
            s.running[c] in r.finished[|s.finished|..])
      && (forall t {:trigger t in r.finished[|s.finished|..]} :: t in r.finished[|s.finished|..] ==>
            exists c :: c in s.running && Status(c, Success) in statuses && t == s.running[c])
  {
    hide Completed, Failed, FromSuccess;
    var m, failed := FinishThenFail(s, order, max, statuses);
    FailureOutcome(m, order, max, failed);
    forall t | t in m.finished[|s.finished|..]
      ensures exists c :: c in s.running && Status(c, Success) in statuses && t == s.running[c]
    {
      SuccessOf(s, statuses, t);
    }
  }

  /** The job is aborted if and only if a task that failed instead has used up its attempts. */
  lemma {:induction false} LastFailureAborts(s: State, order: WalkOrder, max: int, statuses: seq<Status>)
    requires WalksAll(order) && !s.startAbort
    requires forall c {:trigger s.running[c]} :: c in s.running ==> Status(c, ExceededMemory) !in statuses
    ensures var r := Completed(s, order, max, statuses);
      && (r.startAbort <==> exists c :: c in s.running && Fails(statuses, c) && s.running[c].attempts + 1 >= max)
      && (r.startAbort ==> Done(r) && exists j :: 0 <= j < |r.killed| && r.killed[j].attempts >= max)
  {
    hide Completed, Failed, FromSuccess, FromFailed;
    var m, failed := FinishThenFail(s, order, max, statuses);
    FailureOutcome(m, order, max, failed);
    if c :| c in failed && c in m.running && m.running[c].attempts + 1 >= max {
      assert c in s.running && Fails(statuses, c) && s.running[c].attempts + 1 >= max;
    }
    if c :| c in s.running && Fails(statuses, c) && s.running[c].attempts + 1 >= max {
      assert c in m.running && c in failed && m.running[c].attempts + 1 >= max;
    }
  }

  /** If it is not, the failed tasks are pending again with one attempt more and no container, nothing is killed, and
      the other containers go on running. */
  lemma {:induction false} FailuresAreRetried(s: State, order: WalkOrder, max: int, statuses: seq<Status>)
    requires WalksAll(order) && !s.startAbort && !Completed(s, order, max, statuses).startAbort
    requires forall c {:trigger s.running[c]} :: c in s.running ==> Status(c, ExceededMemory) !in statuses
    ensures var r := Completed(s, order, max, statuses);
      && r.killed == s.killed && s.pending <= r.pending
      && (forall c {:trigger c in r.running} ::
            c in r.running <==> c in s.running && Status(c, Success) !in statuses && !Fails(statuses, c))
      && (forall c {:trigger s.running[c]} :: c in s.running && Fails(statuses, c) ==>
            s.running[c].(attempts := s.running[c].attempts + 1, container := None) in r.pending[|s.pending|..])
      && (forall t {:trigger t in r.pending[|s.pending|..]} :: t in r.pending[|s.pending|..] ==>
            exists c :: c in s.running && Fails(statuses, c) &&
                        t == s.running[c].(attempts := s.running[c].attempts + 1, container := None))
  {
    hide Completed, Failed, FromSuccess, FromFailed;
    var m, failed := FinishThenFail(s, order, max, statuses);
    FailureOutcome(m, order, max, failed);
    var r := Failed(m, order, max, failed);
    forall c | c in s.running && Fails(statuses, c)
      ensures s.running[c].(attempts := s.running[c].attempts + 1, container := None) in r.pending[|s.pending|..]
    {
      assert c in m.running && c in failed && m.running[c] == s.running[c];
    }
    forall t | t in r.pending[|s.pending|..]
      ensures exists c :: c in s.running && Fails(statuses, c) &&
                          t == s.running[c].(attempts := s.running[c].attempts + 1, container := None)
    {
      var c := FailedOf(m, failed, t);
      assert c in s.running && Fails(statuses, c);
    }
  }

  lemma {:induction false} SuccessOf(s: State, statuses: seq<Status>, t: Task)
    requires FromSuccess(s, statuses, t)
    ensures exists c :: c in s.running && Status(c, Success) in statuses && t == s.running[c]
  {
  }

  lemma {:induction false} FailedOf(s: State, failed: seq<nat>, t: Task) returns (c: nat)
    requires FromFailed(s, failed, t)
    ensures c in failed && c in s.running
    ensures t == s.running[c].(attempts := s.running[c].attempts + 1, container := None)
  {
    c :| c in failed && c in s.running && t == s.running[c].(attempts := s.running[c].attempts + 1, container := None);
  }

  // ---- aborts ----

  /** The walk up to i has stopped every task it met that was not asked to stop before. */
  lemma {:induction false} StoppingHas(m: map<nat, Task>, walk: seq<nat>, i: nat, j: nat)
    requires j < i <= |walk| && forall k {:trigger walk[k]} :: 0 <= k < |walk| ==> walk[k] in m
    requires !m[walk[j]].abortRequested
    ensures m[walk[j]].(abortRequested := true) in Stopping(m, walk[..i])
    ensures m[walk[j]].container.Some? ==> m[walk[j]].container.value.id in Ids(Stopping(m, walk[..i]))
    decreases i
  {
    hide Stopping, Ids;
    StoppingNext(m, walk, i - 1);
    if j < i - 1 {
      StoppingHas(m, walk, i - 1, j);
    }
  }

  lemma {:induction false} StoppingOnly(m: map<nat, Task>, walk: seq<nat>, i: nat, t: Task)
    requires i <= |walk| && forall k {:trigger walk[k]} :: 0 <= k < |walk| ==> walk[k] in m
    requires t in Stopping(m, walk[..i])
    ensures exists c :: c in m && !m[c].abortRequested && t == m[c].(abortRequested := true)
    decreases i
  {
    hide Stopping, Ids;
    StoppingNothing(m);
    StoppingNext(m, walk, i - 1);
    if t in Stopping(m, walk[..i - 1]) {
      StoppingOnly(m, walk, i - 1, t);
    } else {
      assert walk[i - 1] in m;
    }
  }

  /** An abort kills every pending and every running task and stops their containers; it kills no others, and nothing
      that finished is lost. */
  lemma {:induction false} AbortOutcome(s: State, order: WalkOrder)
    requires WalksAll(order)
    ensures var r := Abort(s, order);
      && r.startAbort && r.pending == [] && r.running == map[] && r.finished == s.finished && s.killed <= r.killed
      && (forall t {:trigger t in s.pending} :: t in s.pending ==> t in r.killed)
      && (forall c {:trigger s.running[c]} :: c in s.running && !s.running[c].abortRequested ==>
            && s.running[c].(abortRequested := true) in r.killed
            && (s.running[c].container.Some? ==> s.running[c].container.value.id in r.stopped))
      && (forall t {:trigger t in r.killed} :: t in r.killed ==>
            t in s.killed || t in s.pending ||
            exists c :: c in s.running && !s.running[c].abortRequested && t == s.running[c].(abortRequested := true))
  {
    hide Stopping, Ids;
    var walk := order(s.running);
    assert walk[..|walk|] == walk;
    forall c | c in s.running && !s.running[c].abortRequested
      ensures s.running[c].(abortRequested := true) in Stopping(s.running, walk)
      ensures s.running[c].container.Some? ==> s.running[c].container.value.id in Ids(Stopping(s.running, walk))
    {
      assert c in walk;
      var j :| 0 <= j < |walk| && walk[j] == c;
      StoppingHas(s.running, walk, |walk|, j);
    }
    forall t | t in Stopping(s.running, walk)
      ensures exists c :: c in s.running && !s.running[c].abortRequested && t == s.running[c].(abortRequested := true)
    {
      StoppingOnly(s.running, walk, |walk|, t);
    }
  }

  /** A memory kill of a running container aborts the job. */
  lemma {:induction false} MemoryKillAborts(s: State, order: WalkOrder, max: int, statuses: seq<Status>, c: nat)
    requires WalksAll(order) && c in s.running
    requires Status(c, ExceededMemory) in statuses && Status(c, Success) !in statuses
    ensures var r := Completed(s, order, max, statuses);
      && r.startAbort && Done(r) && s.finished <= r.finished
      && forall d {:trigger s.running[d]} :: d in s.running && Status(d, Success) !in statuses ==>
           !s.running[d].abortRequested ==> s.running[d].(abortRequested := true) in r.killed
  {
    MemoryKillStops(s, order, statuses, c);
    RunningStays(s, order, statuses);
  }

  lemma {:induction false} MemoryKillStops(s: State, order: WalkOrder, statuses: seq<Status>, c: nat)
    requires WalksAll(order) && c in s.running
    requires Status(c, ExceededMemory) in statuses && Status(c, Success) !in statuses
    ensures Sorted(s, order, statuses).2
    decreases |statuses|
  {
    hide Abort;
    StatusesMore(statuses);
    var before := statuses[..|statuses| - 1];
    RunningStays(s, order, before);
    if Status(c, ExceededMemory) in before {
      MemoryKillStops(s, order, before, c);
    }
  }

  /** Until the job is aborted, containers that did not report success go on running; then their tasks are killed. */
  lemma {:induction false} RunningStays(s: State, order: WalkOrder, statuses: seq<Status>)
    requires WalksAll(order)
    ensures var (r, failed, stop) := Sorted(s, order, statuses);
      && s.finished <= r.finished && s.killed <= r.killed
      && (!stop ==>
            && r.startAbort == s.startAbort && r.killed == s.killed
            && forall c {:trigger s.running[c]} :: c in s.running && Status(c, Success) !in statuses ==>
                 c in r.running && r.running[c] == s.running[c])
      && (stop ==>
            && r.startAbort && Done(r)
            && (exists c :: c in s.running && Status(c, ExceededMemory) in statuses)
            && forall c {:trigger s.running[c]} :: c in s.running && Status(c, Success) !in statuses ==>
                 !s.running[c].abortRequested ==> s.running[c].(abortRequested := true) in r.killed)
    decreases |statuses|
  {
    hide Abort;
    if statuses == [] {
    } else {
      StatusesMore(statuses);
      RunningStays(s, order, statuses[..|statuses| - 1]);
      SortedFinishes(s, order, statuses[..|statuses| - 1]);
      AbortOutcome(Sorted(s, order, statuses[..|statuses| - 1]).0, order);
      var st := statuses[|statuses| - 1];
      assert st == Status(st.container, st.exit);
    }
  }

  // ---- allocations ----

  /** Tasks leave the pending ones in order and only for containers on hosts that did not fail; while tasks are left
      every such container gets one. */
  lemma {:induction false} AssignOutcome(s: State, containers: seq<Container>)
    ensures var r := Assign(s, containers);
      && r == s.(pending := r.pending, running := r.running, dummies := r.dummies)
      && |r.pending| <= |s.pending| && r.pending == s.pending[|s.pending| - |r.pending|..] && s.dummies <= r.dummies
      && (forall i {:trigger containers[i]} :: 0 <= i < |containers| && containers[i].host in s.blackList ==>
            containers[i].id in r.dummies)
      && (forall i {:trigger containers[i]} ::
            0 <= i < |containers| && containers[i].host !in s.blackList && r.pending != [] ==>
              containers[i].id in r.running)
      && (forall i {:trigger containers[i]} :: 0 <= i < |containers| ==>
            containers[i].id in r.running || containers[i].id in r.dummies
            || containers[i].id in Unused(s, containers))
      && (forall c {:trigger c in s.running} :: c in s.running ==> c in r.running)
    decreases |containers|
  {
    if containers == [] {
    } else {
      var i := |containers| - 1;
      AssignOutcome(s, containers[..i]);
      var before, c := Assign(s, containers[..i]), containers[i];
      var r := Assign(s, containers);
      assert forall j {:trigger containers[j]} :: 0 <= j < i ==> containers[j] == containers[..i][j];
      assert (before.dummies + [c.id])[|before.dummies|] == c.id;
      var unused := Unused(s, containers[..i]);
      assert (unused + [c.id])[|unused|] == c.id;
      assert before.pending != [] ==> before.pending[1..] == s.pending[|s.pending| - |before.pending| + 1..];
    }
  }

  /** A container that runs a task now and did not before is on a host that did not fail, and the task was pending. */
  lemma {:induction false} LaunchedWhere(s: State, containers: seq<Container>, c: nat)
    requires c in Assign(s, containers).running
    ensures var r := Assign(s, containers);
      || (c in s.running && r.running[c] == s.running[c])
      || exists i, t :: 0 <= i < |containers| && containers[i].id == c && containers[i].host !in s.blackList
           && t in s.pending && r.running[c] == t.(container := Some(containers[i]))
    decreases |containers|
  {
    if containers == [] {
    } else {
      var i := |containers| - 1;
      AssignOutcome(s, containers[..i]);
      var before, last := Assign(s, containers[..i]), containers[i];
      if last.id == c && last.host !in s.blackList && before.pending != [] {
        var t := before.pending[0];
        assert t == s.pending[|s.pending| - |before.pending|];
        assert containers[i].id == c && t in s.pending;
      } else {
        LaunchedWhere(s, containers[..i], c);
        if c in s.running && before.running[c] == s.running[c] {
        } else {
          var j, t :| 0 <= j < i && containers[..i][j].id == c && containers[..i][j].host !in s.blackList
                      && t in s.pending && before.running[c] == t.(container := Some(containers[..i][j]));
          assert containers[j].id == c && t in s.pending;
        }
      }
    }
  }

  /** Containers allocated: after an abort all of them run dummies; before, those on failed hosts do, and the others get
      the pending tasks in order as long as there are any. */
  lemma {:induction false} AllocationOutcome(s: State, containers: seq<Container>)
    ensures var r := Allocated(s, containers);
      && r == s.(pending := r.pending, running := r.running, dummies := r.dummies)
      && |r.pending| <= |s.pending| && r.pending == s.pending[|s.pending| - |r.pending|..] && s.dummies <= r.dummies
      && (forall i {:trigger containers[i]} :: 0 <= i < |containers| ==>
            && (containers[i].id in r.running || containers[i].id in r.dummies)
            && (s.startAbort || containers[i].host in s.blackList ==> containers[i].id in r.dummies)
            && (!s.startAbort && containers[i].host !in s.blackList && r.pending != [] ==>
                  containers[i].id in r.running))
      && (s.startAbort ==> r.pending == s.pending && r.running == s.running)
      && (forall c {:trigger r.running[c]} :: c in r.running ==>
            || (c in s.running && r.running[c] == s.running[c])
            || exists i, t :: 0 <= i < |containers| && containers[i].id == c && containers[i].host !in s.blackList
                 && t in s.pending && r.running[c] == t.(container := Some(containers[i])))
  {
    hide Assign, Unused;
    var r := Allocated(s, containers);
    if s.startAbort {
      forall i | 0 <= i < |containers| ensures containers[i].id in r.dummies {
        assert (s.dummies + IdsOf(containers))[|s.dummies| + i] == containers[i].id;
      }
    } else {
      AssignOutcome(s, containers);
      forall c | c in r.running
        ensures (c in s.running && r.running[c] == s.running[c])
          || exists i, t :: 0 <= i < |containers| && containers[i].id == c && containers[i].host !in s.blackList
               && t in s.pending && r.running[c] == t.(container := Some(containers[i]))
      {
        LaunchedWhere(s, containers, c);
      }
    }
  }

  // ---- over runs ----

  /** Handling failures finishes nothing, and killed tasks stay killed. */
  lemma {:induction false} FailingFinishes(s: State, order: WalkOrder, max: int, failed: seq<nat>)
    requires WalksAll(order)
    ensures var r := FailAll(s, order, max, failed).0; r.finished == s.finished && s.killed <= r.killed
    decreases |failed|
  {
    hide Abort;
    if failed == [] {
    } else {
      var i := |failed| - 1;
      FailingFinishes(s, order, max, failed[..i]);
      var before := FailAll(s, order, max, failed[..i]).0;
      if failed[i] in before.running {
        AbortFinishes(TakenOff(before, failed[i]), order);
      }
    }
  }

  /** An event finishes only tasks of running containers that it reports as successful, and killed tasks stay killed. */
  lemma {:induction false} EventFinishes(s: State, e: Event, tasks: seq<Task>, order: WalkOrder, max: int)
    requires WalksAll(order)
    ensures var r := React(s, e, tasks, order, max);
      && s.killed <= r.killed && s.finished <= r.finished
      && forall t {:trigger t in r.finished[|s.finished|..]} :: t in r.finished[|s.finished|..] ==>
           e.ContainersCompleted? && FromSuccess(s, e.statuses, t)
  {
    hide Abort, Sorted, FailAll, Allocated, FromSuccess;
    match e {
      case Submission =>
      case ContainersAllocated(containers) => AllocationOutcome(s, containers);
      case ContainersCompleted(statuses) =>
        SortedFinishes(s, order, statuses);
        RunningStays(s, order, statuses);
        var (m, failed, stop) := Sorted(s, order, statuses);
        FailingFinishes(m, order, max, failed);
      case ContainerError(c) => FailingFinishes(s, order, max, [c]);
      case AbortCalled => AbortFinishes(s, order);
    }
  }

  /** A task that finished ran in a container that reported success. */
  lemma {:induction false} FinishedBySuccess(events: seq<Event>, tasks: seq<Task>, order: WalkOrder, max: int, t: Task)
    returns (k: nat, c: nat)
    requires WalksAll(order) && t in After(events, tasks, order, max).finished
    ensures k < |events| && events[k].ContainersCompleted? && Status(c, Success) in events[k].statuses
    ensures var s := After(events[..k], tasks, order, max); c in s.running && s.running[c] == t
    decreases |events|
  {
    hide React;
    var last := |events| - 1;
    var s, e := After(events[..last], tasks, order, max), events[last];
    EventFinishes(s, e, tasks, order, max);
    if t in s.finished {
      k, c := FinishedBySuccess(events[..last], tasks, order, max, t);
      assert events[..last][..k] == events[..k];
    } else {
      var r := After(events, tasks, order, max);
      assert r.finished == s.finished + r.finished[|s.finished|..];
      k := last;
      c :| c in s.running && Status(c, Success) in e.statuses && t == s.running[c];
    }
  }

  /** A container that could not be started has its task tried again, unless that was the last attempt. */
  lemma {:induction false} StartErrorRetries(events: seq<Event>, tasks: seq<Task>, order: WalkOrder, max: int, c: nat)
    requires WalksAll(order) && !After(events, tasks, order, max).startAbort
    requires c in After(events, tasks, order, max).running
    ensures var s, r := After(events, tasks, order, max), After(events + [ContainerError(c)], tasks, order, max);
      && (r.startAbort <==> s.running[c].attempts + 1 >= max)
      && (!r.startAbort ==>
            && s.running[c].(attempts := s.running[c].attempts + 1, container := None) in r.pending
            && c !in r.running && r.killed == s.killed)
  {
    hide After, Failed;
    AfterError(events, tasks, order, max, c);
    OneFailure(After(events, tasks, order, max), order, max, c);
  }

  lemma {:induction false} AfterError(events: seq<Event>, tasks: seq<Task>, order: WalkOrder, max: int, c: nat)
    requires WalksAll(order)
    ensures After(events + [ContainerError(c)], tasks, order, max)
         == Failed(After(events, tasks, order, max), order, max, [c])
  {
    hide Failed;
    assert (events + [ContainerError(c)])[..|events|] == events;
  }

  lemma {:induction false} OneFailure(s: State, order: WalkOrder, max: int, c: nat)
    requires WalksAll(order) && !s.startAbort && c in s.running
    ensures var r := Failed(s, order, max, [c]);
      && (r.startAbort <==> s.running[c].attempts + 1 >= max)
      && (!r.startAbort ==>
            && s.running[c].(attempts := s.running[c].attempts + 1, container := None) in r.pending
            && c !in r.running && r.killed == s.killed)
  {
    hide Failed, FromFailed;
    FailureOutcome(s, order, max, [c]);
    assert c in [c] && c in s.running;
    var r := Failed(s, order, max, [c]);
    if !r.startAbort {
      var t := s.running[c].(attempts := s.running[c].attempts + 1, container := None);
      assert t in r.pending[|s.pending|..];
    }
  }

  /** Why a job is aborted: an abort call, a memory kill of a running container, or a task that used up its attempts. */
  ghost predicate HasReason(events: seq<Event>, tasks: seq<Task>, order: WalkOrder, max: int)
    requires WalksAll(order)
  {
    || AbortCalled in events
    || (exists k, c :: 0 <= k < |events| && events[k].ContainersCompleted?
          && Status(c, ExceededMemory) in events[k].statuses && c in After(events[..k], tasks, order, max).running)
    || exists j :: 0 <= j < |After(events, tasks, order, max).killed|
                   && After(events, tasks, order, max).killed[j].attempts >= max
  }

  lemma {:induction false} AbortHasReason(events: seq<Event>, tasks: seq<Task>, order: WalkOrder, max: int)
    requires WalksAll(order) && After(events, tasks, order, max).startAbort
    ensures HasReason(events, tasks, order, max)
    decreases |events|
  {
    hide React, HasReason;
    var last := |events| - 1;
    var s, e := After(events[..last], tasks, order, max), events[last];
    EventFinishes(s, e, tasks, order, max);
    if s.startAbort {
      AbortHasReason(events[..last], tasks, order, max);
      ReasonStays(events, tasks, order, max);
    } else {
      NewReason(events, tasks, order, max);
    }
  }

  /** In an orderly run the task that used up its attempts failed exactly as often as allowed. */
  lemma {:induction false} WhyAborted(events: seq<Event>, tasks: seq<Task>, all: set<Key>, order: WalkOrder, max: int)
    requires WalksAll(order) && Orderly(events, tasks, order, max) && NewTasks(tasks, all) && max >= 1
    requires After(events, tasks, order, max).startAbort && AbortCalled !in events
    requires forall k {:trigger events[k]} :: 0 <= k < |events| && events[k].ContainersCompleted? ==>
               forall st {:trigger st in events[k].statuses} :: st in events[k].statuses ==> st.exit != ExceededMemory
    ensures exists j :: 0 <= j < |After(events, tasks, order, max).killed|
                        && After(events, tasks, order, max).killed[j].attempts == max
  {
    hide After, Orderly;
    AbortHasReason(events, tasks, order, max);
    AlwaysAccounted(events, tasks, all, order, max);
    var killed := After(events, tasks, order, max).killed;
    var j :| 0 <= j < |killed| && killed[j].attempts >= max;
    assert killed[j].attempts == max;
  }

  lemma {:induction false} ReasonStays(events: seq<Event>, tasks: seq<Task>, order: WalkOrder, max: int)
    requires WalksAll(order) && events != [] && HasReason(events[..|events| - 1], tasks, order, max)
    requires After(events[..|events| - 1], tasks, order, max).killed <= After(events, tasks, order, max).killed
    ensures HasReason(events, tasks, order, max)
  {
    hide After;
    var before := events[..|events| - 1];
    if AbortCalled in before {
      assert AbortCalled in events;
    } else if k, c :|
         && 0 <= k < |before| && before[k].ContainersCompleted? && Status(c, ExceededMemory) in before[k].statuses
         && c in After(before[..k], tasks, order, max).running {
      assert before[..k] == events[..k] && before[k] == events[k];
    } else {
      var j :| 0 <= j < |After(before, tasks, order, max).killed|
               && After(before, tasks, order, max).killed[j].attempts >= max;
      assert After(events, tasks, order, max).killed[j] == After(before, tasks, order, max).killed[j];
    }
  }

  lemma {:induction false} NewReason(events: seq<Event>, tasks: seq<Task>, order: WalkOrder, max: int)
    requires WalksAll(order) && events != [] && After(events, tasks, order, max).startAbort
    requires !After(events[..|events| - 1], tasks, order, max).startAbort
    ensures HasReason(events, tasks, order, max)
  {
    hide Abort, Sorted, Failed, Allocated;
    var last := |events| - 1;
    var s, e := After(events[..last], tasks, order, max), events[last];
    match e {
      case Submission =>
      case ContainersAllocated(containers) => AllocationOutcome(s, containers);
      case ContainersCompleted(statuses) =>
        RunningStays(s, order, statuses);
        var (m, failed, stop) := Sorted(s, order, statuses);
        if !stop {
          FailureOutcome(m, order, max, failed);
        }
      case ContainerError(c) => FailureOutcome(s, order, max, [c]);
      case AbortCalled => assert events[last] == AbortCalled;
    }
  }
}
