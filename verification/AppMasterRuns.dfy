/** What the application master's accounting keeps over any order of callbacks. */
module AppMasterRuns {
  import opened AppMaster

  lemma {:induction false} OccursAppend(a: seq<Task>, b: seq<Task>, k: Key)
    ensures Occurs(a + b, k) == Occurs(a, k) + Occurs(b, k)
    decreases |b|
  {
    if b == [] {
      assert a + b == a;
    } else {
      var i := |b| - 1;
      assert (a + b)[..|a| + i] == a + b[..i];
      OccursAppend(a, b[..i], k);
    }
  }

  lemma {:induction false} OccursOne(t: Task, k: Key)
    ensures Occurs([t], k) == if t.key == k then 1 else 0
  {
    assert [t][..0] == [];
  }

  lemma {:induction false} OccursHead(a: seq<Task>, k: Key)
    requires a != []
    ensures Occurs(a, k) == Occurs(a[1..], k) + if a[0].key == k then 1 else 0
  {
    assert a == [a[0]] + a[1..];
    OccursAppend([a[0]], a[1..], k);
    OccursOne(a[0], k);
  }

  /** A task found in a collection occurs there. */
  lemma {:induction false} OccursAt(a: seq<Task>, i: nat)
    requires i < |a|
    ensures Occurs(a, a[i].key) >= 1
    decreases |a|
  {
    if i < |a| - 1 {
      OccursAt(a[..|a| - 1], i);
    }
  }

  lemma {:induction false} RunningPut(m: map<nat, Task>, c: nat, t: Task, k: Key)
    requires c !in m && OccursRunning(m, t.key) == 0
    ensures OccursRunning(m[c := t], k) == OccursRunning(m, k) + if t.key == k then 1 else 0
  {
    var m' := m[c := t];
    if t.key == k {
      assert c in m' && m'[c].key == k;
    } else if d :| d in m && m[d].key == k {
      assert d in m' && m'[d].key == k;
    }
  }

  lemma {:induction false} RunningRemove(m: map<nat, Task>, c: nat, k: Key, max: int)
    requires c in m && RunningOk(m, max)
    ensures OccursRunning(m, k) == OccursRunning(m - {c}, k) + if m[c].key == k then 1 else 0
  {
    var m' := m - {c};
    if d :| d in m && d != c && m[d].key == k {
      assert d in m' && m'[d].key == k;
    }
  }

  /** Walking over all running tasks meets each of them once. */
  lemma {:induction false} StoppingOccurs(m: map<nat, Task>, walk: seq<nat>, i: nat, k: Key, max: int)
    requires RunningOk(m, max) && i <= |walk|
    requires forall j {:trigger walk[j]} :: 0 <= j < |walk| ==> walk[j] in m
    requires forall a, b {:trigger walk[a], walk[b]} :: 0 <= a < b < |walk| ==> walk[a] != walk[b]
    ensures Occurs(Stopping(m, walk[..i]), k) == if exists j :: 0 <= j < i && m[walk[j]].key == k then 1 else 0
    ensures Few(Stopping(m, walk[..i]), max - 1)
    decreases i
  {
    hide Stopping;
    StoppingNothing(m);
    if i == 0 {
    } else {
      StoppingOccurs(m, walk, i - 1, k, max);
      StoppingNext(m, walk, i - 1);
      var before := Stopping(m, walk[..i - 1]);
      var r := m[walk[i - 1]].(abortRequested := true);
      OccursAppend(before, [r], k);
      OccursOne(r, k);
    }
  }

  lemma {:induction false} AllStopped(m: map<nat, Task>, order: WalkOrder, k: Key, max: int)
    requires RunningOk(m, max) && WalksAll(order)
    ensures Occurs(Stopping(m, order(m)), k) == OccursRunning(m, k)
    ensures Few(Stopping(m, order(m)), max - 1)
  {
    var walk := order(m);
    StoppingOccurs(m, walk, |walk|, k, max);
    assert walk[..|walk|] == walk;
    if c :| c in m && m[c].key == k {
      assert c in order(m);
      var j :| 0 <= j < |walk| && walk[j] == c;
    }
  }

  lemma {:induction false} AbortPlaces(s: State, order: WalkOrder, hand: seq<Task>, k: Key, max: int)
    requires WalksAll(order) && RunningOk(s.running, max)
    ensures Places(Abort(s, order), hand, k) == Places(s, hand, k)
  {
    AllStopped(s.running, order, k, max);
    var stopping := Stopping(s.running, order(s.running));
    OccursAppend(s.killed, stopping, k);
    OccursAppend(s.killed + stopping, s.pending, k);
  }

  /** Aborting moves every pending and running task to the killed ones. */
  lemma {:induction false} AbortInv(s: State, order: WalkOrder, hand: seq<Task>, all: set<Key>, max: int, late: bool)
    requires WalksAll(order) && Inv(s, hand, all, max, late)
    ensures Inv(Abort(s, order), hand, all, max, false)
  {
    hide Places, Stopping;
    forall k ensures Places(Abort(s, order), hand, k) == if k in all then 1 else 0 {
      AbortPlaces(s, order, hand, k, max);
    }
    AllStopped(s.running, order, Key(Worker, 0), max);
  }

  lemma {:induction false} SubmitInv(s: State, tasks: seq<Task>, all: set<Key>, max: int, late: bool)
    requires Inv(s, tasks, all, max, late) && !s.startAbort && Few(tasks, max - 1) && Unasked(tasks)
    ensures Inv(Submit(s, tasks), [], all, max, late)
  {
    forall k ensures Places(Submit(s, tasks), [], k) == if k in all then 1 else 0 {
      assert Places(s, tasks, k) == if k in all then 1 else 0;
      OccursAppend(s.pending, tasks, k);
    }
  }

  ghost predicate FreshIds(m: map<nat, Task>, containers: seq<Container>) {
    && (forall i {:trigger containers[i]} :: 0 <= i < |containers| ==> containers[i].id !in m)
    && forall i, j {:trigger containers[i], containers[j]} ::
         0 <= i < j < |containers| ==> containers[i].id != containers[j].id
  }

  lemma {:induction false} AssignKeys(s: State, containers: seq<Container>, c: nat)
    requires c in Assign(s, containers).running
    ensures c in s.running || exists i :: 0 <= i < |containers| && containers[i].id == c
    decreases |containers|
  {
    if containers == [] {
    } else {
      var i := |containers| - 1;
      var before := Assign(s, containers[..i]);
      if c in before.running {
        AssignKeys(s, containers[..i], c);
      } else {
        assert containers[i].id == c;
      }
    }
  }

  lemma {:induction false} LaunchPlaces(s: State, c: Container, k: Key, all: set<Key>, max: int, late: bool)
    requires Inv(s, [], all, max, late) && s.pending != [] && c.id !in s.running
    ensures OccursRunning(s.running, s.pending[0].key) == 0
    ensures var r := s.(pending := s.pending[1..], running := s.running[c.id := s.pending[0].(container := Some(c))]);
            Places(r, [], k) == Places(s, [], k)
  {
    OccursAt(s.pending, 0);
    assert Places(s, [], s.pending[0].key) <= 1;
    OccursHead(s.pending, k);
    RunningPut(s.running, c.id, s.pending[0].(container := Some(c)), k);
  }

  lemma {:induction false} LaunchInv(s: State, c: Container, all: set<Key>, max: int, late: bool)
    requires Inv(s, [], all, max, late) && s.pending != [] && c.id !in s.running && !s.startAbort
    ensures var r := s.(pending := s.pending[1..], running := s.running[c.id := s.pending[0].(container := Some(c))]);
            Inv(r, [], all, max, late)
  {
    var r := s.(pending := s.pending[1..], running := s.running[c.id := s.pending[0].(container := Some(c))]);
    assert RunningOk(r.running, max) && Few(r.pending, max - 1) by {
      LaunchPlaces(s, c, s.pending[0].key, all, max, late);
      LaunchRunning(s.running, c, s.pending[0], max);
    }
    hide Places, RunningOk, Few;
    forall k ensures Places(r, [], k) == if k in all then 1 else 0 {
      LaunchPlaces(s, c, k, all, max, late);
    }
  }

  lemma {:induction false} LaunchRunning(m: map<nat, Task>, c: Container, t: Task, max: int)
    requires RunningOk(m, max) && OccursRunning(m, t.key) == 0 && t.attempts < max && !t.abortRequested
    ensures RunningOk(m[c.id := t.(container := Some(c))], max)
  {
  }

  lemma {:induction false} AssignInv(s: State, containers: seq<Container>, all: set<Key>, max: int, late: bool)
    requires Inv(s, [], all, max, late) && !s.startAbort && FreshIds(s.running, containers)
    ensures Inv(Assign(s, containers), [], all, max, late) && !Assign(s, containers).startAbort
    decreases |containers|
  {
    hide Inv;
    if containers == [] {
    } else {
      var i := |containers| - 1;
      var c, before := containers[i], Assign(s, containers[..i]);
      AssignInv(s, containers[..i], all, max, late);
      if c.host in before.blackList {
        SameTasks(before, before.(dummies := before.dummies + [c.id]), all, max, late);
      } else if before.pending != [] {
        if c.id in before.running {
          AssignKeys(s, containers[..i], c.id);
        }
        LaunchInv(before, c, all, max, late);
      }
    }
  }

  /** Requests to the node manager do not matter to the accounting. */
  lemma {:induction false} SameTasks(s: State, r: State, all: set<Key>, max: int, late: bool)
    requires Inv(s, [], all, max, late)
    requires r == s.(dummies := r.dummies, stopped := r.stopped, blackList := r.blackList)
    ensures Inv(r, [], all, max, late)
  {
    forall k ensures Places(r, [], k) == if k in all then 1 else 0 {
      assert Places(s, [], k) == if k in all then 1 else 0;
    }
  }

  lemma {:induction false} AllocatedInv(s: State, containers: seq<Container>, all: set<Key>, max: int, late: bool)
    requires Inv(s, [], all, max, late) && FreshIds(s.running, containers)
    ensures Inv(Allocated(s, containers), [], all, max, late)
  {
    hide Inv, Assign, Unused;
    if s.startAbort {
      SameTasks(s, Allocated(s, containers), all, max, late);
    } else {
      AssignInv(s, containers, all, max, late);
      SameTasks(Assign(s, containers), Allocated(s, containers), all, max, late);
    }
  }

  /** The tasks a failure handler has in hand. */
  ghost predicate HandOk(s: State, hand: seq<Task>, max: int) {
    Few(hand, max) && Unasked(hand) && (!s.startAbort ==> Few(hand, max - 1))
  }

  lemma {:induction false} TakenOffInv(s: State, hand: seq<Task>, c: nat, all: set<Key>, max: int, late: bool)
    requires Inv(s, hand, all, max, late) && c in s.running
    ensures var t := s.running[c].(attempts := s.running[c].attempts + 1, container := None);
            Inv(TakenOff(s, c), hand + [t], all, max, late) && t.attempts <= max && !t.abortRequested
  {
    var t := s.running[c].(attempts := s.running[c].attempts + 1, container := None);
    var r := TakenOff(s, c);
    forall k ensures Places(r, hand + [t], k) == if k in all then 1 else 0 {
      assert Places(s, hand, k) == if k in all then 1 else 0;
      OccursAppend(hand, [t], k);
      OccursOne(t, k);
      RunningRemove(s.running, c, k, max);
    }
  }

  lemma {:induction false} FailAllInv(s: State, order: WalkOrder, failed: seq<nat>, all: set<Key>, max: int, late: bool)
    requires WalksAll(order) && Inv(s, [], all, max, late)
    ensures var (r, tasks) := FailAll(s, order, max, failed);
            Inv(r, tasks, all, max, late) && HandOk(r, tasks, max)
    decreases |failed|
  {
    hide Inv, Abort, TakenOff;
    if failed == [] {
    } else {
      var i := |failed| - 1;
      FailAllInv(s, order, failed[..i], all, max, late);
      var (before, tasks) := FailAll(s, order, max, failed[..i]);
      var c := failed[i];
      if c in before.running {
        RunningMeansGoing(before, tasks, all, max, late, c);
        TakenOffInv(before, tasks, c, all, max, late);
        var t := before.running[c].(attempts := before.running[c].attempts + 1, container := None);
        if t.attempts >= max {
          AbortInv(TakenOff(before, c), order, tasks + [t], all, max, late);
          InvLate(Abort(TakenOff(before, c), order), tasks + [t], all, max, late);
          AbortStarts(TakenOff(before, c), order);
        }
        SameAbort(before, c);
      }
    }
  }

  lemma {:induction false} RunningMeansGoing(s: State, hand: seq<Task>, all: set<Key>, max: int, late: bool, c: nat)
    requires Inv(s, hand, all, max, late) && c in s.running
    ensures !s.startAbort
  {
  }

  lemma {:induction false} InvLate(s: State, hand: seq<Task>, all: set<Key>, max: int, late: bool)
    requires Inv(s, hand, all, max, false)
    ensures Inv(s, hand, all, max, late)
  {
  }

  lemma {:induction false} AbortStarts(s: State, order: WalkOrder)
    requires WalksAll(order)
    ensures Abort(s, order).startAbort
  {
  }

  lemma {:induction false} SameAbort(s: State, c: nat)
    requires c in s.running
    ensures TakenOff(s, c).startAbort == s.startAbort
  {
  }

  lemma {:induction false} FailedInv(s: State, order: WalkOrder, failed: seq<nat>, all: set<Key>, max: int, late: bool)
    requires WalksAll(order) && Inv(s, [], all, max, late)
    ensures Inv(Failed(s, order, max, failed), [], all, max, late)
  {
    hide FailAll;
    FailAllInv(s, order, failed, all, max, late);
    var (r, tasks) := FailAll(s, order, max, failed);
    if r.startAbort {
      forall k ensures Places(r.(killed := r.killed + tasks), [], k) == if k in all then 1 else 0 {
        assert Places(r, tasks, k) == if k in all then 1 else 0;
        OccursAppend(r.killed, tasks, k);
      }
    } else {
      SubmitInv(r, tasks, all, max, late);
    }
  }

  lemma {:induction false} FinishInv(s: State, c: nat, all: set<Key>, max: int, late: bool)
    requires Inv(s, [], all, max, late) && c in s.running
    ensures Inv(s.(finished := s.finished + [s.running[c]], running := s.running - {c}), [], all, max, late)
  {
    var r := s.(finished := s.finished + [s.running[c]], running := s.running - {c});
    forall k ensures Places(r, [], k) == if k in all then 1 else 0 {
      assert Places(s, [], k) == if k in all then 1 else 0;
      OccursAppend(s.finished, [s.running[c]], k);
      OccursOne(s.running[c], k);
      RunningRemove(s.running, c, k, max);
    }
  }

  lemma {:induction false} SortedInv(s: State, order: WalkOrder, statuses: seq<Status>, all: set<Key>, max: int,
                                     late: bool)
    requires WalksAll(order) && Inv(s, [], all, max, late)
    ensures Inv(Sorted(s, order, statuses).0, [], all, max, late)
    decreases |statuses|
  {
    hide Inv, Abort;
    if statuses == [] {
    } else {
      var i := |statuses| - 1;
      SortedInv(s, order, statuses[..i], all, max, late);
      var (before, failed, stop) := Sorted(s, order, statuses[..i]);
      var st := statuses[i];
      if !stop && st.container in before.running {
        match st.exit {
          case Success => FinishInv(before, st.container, all, max, late);
          case ExceededMemory =>
            AbortInv(before, order, [], all, max, late);
            InvLate(Abort(before, order), [], all, max, late);
          case OtherFailure =>
        }
      }
    }
  }

  lemma {:induction false} CompletedInv(s: State, order: WalkOrder, statuses: seq<Status>, all: set<Key>, max: int,
                                        late: bool)
    requires WalksAll(order) && Inv(s, [], all, max, late)
    ensures Inv(Completed(s, order, max, statuses), [], all, max, late)
  {
    hide Inv, Sorted, Failed;
    SortedInv(s, order, statuses, all, max, late);
    var (r, failed, stop) := Sorted(s, order, statuses);
    FailedInv(r, order, failed, all, max, late);
  }

  /** The callbacks, and the one submission by the main thread. */
  datatype Event =
    | Submission
    | ContainersAllocated(containers: seq<Container>)
    | ContainersCompleted(statuses: seq<Status>)
    | ContainerError(container: nat)
    | AbortCalled

  ghost function React(s: State, e: Event, tasks: seq<Task>, order: WalkOrder, max: int): State
    requires WalksAll(order)
  {
    match e
    case Submission => Submit(s, tasks)
    case ContainersAllocated(containers) => Allocated(s, containers)
    case ContainersCompleted(statuses) => Completed(s, order, max, statuses)
    case ContainerError(c) => Failed(s, order, max, [c])
    case AbortCalled => Abort(s, order)
  }

  ghost function After(events: seq<Event>, tasks: seq<Task>, order: WalkOrder, max: int): State
    requires WalksAll(order)
  {
    if events == [] then State([], map[], [], [], false, {}, [], [])
    else React(After(events[..|events| - 1], tasks, order, max), events[|events| - 1], tasks, order, max)
  }

  /** New tasks, all different. */
  ghost predicate NewTasks(tasks: seq<Task>, all: set<Key>) {
    && (forall i {:trigger tasks[i]} :: 0 <= i < |tasks| ==> tasks[i].attempts == 0 && !tasks[i].abortRequested)
    && forall k: Key {:trigger k in all} :: Occurs(tasks, k) == if k in all then 1 else 0
  }

  ghost predicate Submitted(events: seq<Event>) {
    events != [] && (events[|events| - 1].Submission? || Submitted(events[..|events| - 1]))
  }

  /** Tasks are submitted once, and a container allocated is none of those running a task. */
  ghost predicate Orderly(events: seq<Event>, tasks: seq<Task>, order: WalkOrder, max: int)
    requires WalksAll(order)
  {
    events == [] ||
    (var before, e := events[..|events| - 1], events[|events| - 1];
     && Orderly(before, tasks, order, max)
     && (e.Submission? ==> !Submitted(before))
     && (e.ContainersAllocated? ==> FreshIds(After(before, tasks, order, max).running, e.containers)))
  }

  /** The tasks were submitted to a job aborted before, and it was not aborted again since. */
  ghost predicate Stuck(events: seq<Event>, tasks: seq<Task>, order: WalkOrder, max: int)
    requires WalksAll(order)
  {
    events != [] &&
    (var before, e := events[..|events| - 1], events[|events| - 1];
     match e
     case Submission => After(before, tasks, order, max).startAbort
     case AbortCalled => false
     case _ => Stuck(before, tasks, order, max))
  }

  lemma {:induction false} StuckNeedsSubmission(events: seq<Event>, tasks: seq<Task>, order: WalkOrder, max: int)
    requires WalksAll(order) && !Submitted(events)
    ensures !Stuck(events, tasks, order, max)
    decreases |events|
  {
    if events == [] {
    } else {
      StuckNeedsSubmission(events[..|events| - 1], tasks, order, max);
    }
  }

  /** Over every order of callbacks each task submitted is in exactly one of pending, running, finished and killed;
      no task is tried more often than allowed; and after an abort nothing is pending or running any more, unless
      the tasks were submitted to an aborted job. */
  lemma {:induction false} AlwaysAccounted(events: seq<Event>, tasks: seq<Task>, all: set<Key>, order: WalkOrder,
                                           max: int)
    requires WalksAll(order) && Orderly(events, tasks, order, max) && NewTasks(tasks, all) && max >= 1
    ensures Inv(After(events, tasks, order, max), [], if Submitted(events) then all else {}, max,
                Stuck(events, tasks, order, max))
    decreases |events|
  {
    if events == [] {
      NothingYet(max);
    } else {
      var before, e := events[..|events| - 1], events[|events| - 1];
      AlwaysAccounted(before, tasks, all, order, max);
      var s := After(before, tasks, order, max);
      var now := if Submitted(before) then all else {};
      var late := Stuck(before, tasks, order, max);
      hide Inv, Abort, Allocated, Completed, Failed, Submit, FreshIds, NewTasks, WalksAll;
      match e {
        case Submission =>
          StuckNeedsSubmission(before, tasks, order, max);
          FirstSubmission(s, tasks, all, max);
        case ContainersAllocated(containers) => AllocatedInv(s, containers, now, max, late);
        case ContainersCompleted(statuses) => CompletedInv(s, order, statuses, now, max, late);
        case ContainerError(c) => FailedInv(s, order, [c], now, max, late);
        case AbortCalled => AbortInv(s, order, [], now, max, late);
      }
    }
  }

  lemma {:induction false} NothingYet(max: int)
    ensures Inv(State([], map[], [], [], false, {}, [], []), [], {}, max, false)
  {
    forall k ensures Places(State([], map[], [], [], false, {}, [], []), [], k) == 0 {
    }
  }

  lemma {:induction false} FirstSubmission(s: State, tasks: seq<Task>, all: set<Key>, max: int)
    requires Inv(s, [], {}, max, false) && NewTasks(tasks, all) && max >= 1
    ensures Inv(Submit(s, tasks), [], all, max, s.startAbort)
  {
    forall k ensures Places(Submit(s, tasks), [], k) == if k in all then 1 else 0 {
      assert Places(s, [], k) == 0;
      OccursAppend(s.pending, tasks, k);
      assert k in all || k !in all;
    }
  }

  /** A collection with every task of a set once, and no other, is as large as the set. */
  lemma {:induction false} OccursSize(tasks: seq<Task>, all: set<Key>)
    requires forall k: Key {:trigger k in all} :: Occurs(tasks, k) == if k in all then 1 else 0
    ensures |tasks| == |all|
    decreases |tasks|
  {
    if tasks == [] {
      assert forall k: Key {:trigger k in all} :: k !in all;
      assert all == {};
    } else {
      var t := tasks[|tasks| - 1];
      var rest := tasks[..|tasks| - 1];
      assert t.key in all;
      forall k: Key ensures Occurs(rest, k) == if k in all - {t.key} then 1 else 0 {
        assert k in all || k !in all;
      }
      OccursSize(rest, all - {t.key});
    }
  }

  /** When the main loop's test says that it is done, finished and killed tasks are all tasks. */
  lemma {:induction false} DoneIsComplete(s: State, all: set<Key>, max: int, late: bool)
    requires Inv(s, [], all, max, late) && Done(s)
    ensures |s.finished| + |s.killed| == |all|
  {
    forall k: Key ensures Occurs(s.finished + s.killed, k) == if k in all then 1 else 0 {
      assert Places(s, [], k) == if k in all then 1 else 0;
      OccursAppend(s.finished, s.killed, k);
    }
    OccursSize(s.finished + s.killed, all);
  }

  lemma {:induction false} IgnoredStatuses(s: State, order: WalkOrder, statuses: seq<Status>)
    requires WalksAll(order) && s.running == map[]
    ensures Sorted(s, order, statuses) == (s, [], false)
    decreases |statuses|
  {
    if statuses == [] {
    } else {
      IgnoredStatuses(s, order, statuses[..|statuses| - 1]);
    }
  }

  lemma {:induction false} IgnoredFailures(s: State, order: WalkOrder, max: int, failed: seq<nat>)
    requires WalksAll(order) && s.running == map[]
    ensures FailAll(s, order, max, failed) == (s, [])
    decreases |failed|
  {
    if failed == [] {
    } else {
      IgnoredFailures(s, order, max, failed[..|failed| - 1]);
    }
  }

  /** A callback that is no abort leaves an aborted job without running tasks as it is, but for dummy tasks. */
  lemma {:induction false} Ignored(s: State, e: Event, tasks: seq<Task>, order: WalkOrder, max: int)
    requires WalksAll(order) && s.startAbort && s.running == map[] && !e.AbortCalled? && !e.Submission?
    ensures var r := React(s, e, tasks, order, max); r.startAbort && r.pending == s.pending && r.running == map[]
  {
    match e {
      case ContainersAllocated(containers) =>
      case ContainersCompleted(statuses) =>
        IgnoredStatuses(s, order, statuses);
        IgnoredFailures(s, order, max, []);
      case ContainerError(c) => IgnoredFailures(s, order, max, [c]);
    }
  }

  /** While a job is stuck all its tasks stay pending: containers are no longer given to them. */
  lemma {:induction false} StuckIsPending(events: seq<Event>, tasks: seq<Task>, all: set<Key>, order: WalkOrder,
                                          max: int)
    requires WalksAll(order) && Orderly(events, tasks, order, max) && NewTasks(tasks, all) && max >= 1
    requires Stuck(events, tasks, order, max)
    ensures var r := After(events, tasks, order, max); r.startAbort && r.pending == tasks && r.running == map[]
    decreases |events|
  {
    var before, e := events[..|events| - 1], events[|events| - 1];
    if e.Submission? {
      AlwaysAccounted(before, tasks, all, order, max);
      StuckNeedsSubmission(before, tasks, order, max);
    } else {
      StuckIsPending(before, tasks, all, order, max);
      Ignored(After(before, tasks, order, max), e, tasks, order, max);
    }
  }

  /** Tasks submitted to an aborted job stay pending over all callbacks to come, short of another abort call, so the
      main loop does not end. */
  lemma {:induction false} SubmittedTooLate(events: seq<Event>, more: seq<Event>, tasks: seq<Task>, all: set<Key>,
                                            order: WalkOrder, max: int)
    requires WalksAll(order) && Orderly(events + [Submission] + more, tasks, order, max) && NewTasks(tasks, all)
    requires max >= 1 && After(events, tasks, order, max).startAbort && AbortCalled !in more
    ensures var r := After(events + [Submission] + more, tasks, order, max);
            r.startAbort && r.pending == tasks && r.running == map[]
  {
    StaysStuck(events, more, tasks, order, max);
    StuckIsPending(events + [Submission] + more, tasks, all, order, max);
  }

  lemma {:induction false} StaysStuck(events: seq<Event>, more: seq<Event>, tasks: seq<Task>, order: WalkOrder,
                                      max: int)
    requires WalksAll(order) && Orderly(events + [Submission] + more, tasks, order, max)
    requires After(events, tasks, order, max).startAbort && AbortCalled !in more
    ensures Stuck(events + [Submission] + more, tasks, order, max)
    decreases |more|
  {
    var run := events + [Submission] + more;
    if more == [] {
      assert run[..|run| - 1] == events;
    } else {
      var fewer := more[..|more| - 1];
      assert run[..|run| - 1] == events + [Submission] + fewer;
      StaysStuck(events, fewer, tasks, order, max);
      SubmissionThere(events, fewer);
    }
  }

  lemma {:induction false} SubmissionThere(events: seq<Event>, more: seq<Event>)
    ensures Submitted(events + [Submission] + more)
    decreases |more|
  {
    var run := events + [Submission] + more;
    if more == [] {
    } else {
      assert run[..|run| - 1] == events + [Submission] + more[..|more| - 1];
      SubmissionThere(events, more[..|more| - 1]);
    }
  }

  /** After an abort nothing is pending or running, as the main loop's end needs, exactly when the job is not stuck
      (or there is nothing to do). */
  lemma {:induction false} AbortEndsTheLoop(events: seq<Event>, tasks: seq<Task>, all: set<Key>, order: WalkOrder,
                                            max: int)
    requires WalksAll(order) && Orderly(events, tasks, order, max) && NewTasks(tasks, all) && max >= 1
    ensures var r := After(events, tasks, order, max);
            r.startAbort ==> (Done(r) <==> !Stuck(events, tasks, order, max) || tasks == [])
  {
    AlwaysAccounted(events, tasks, all, order, max);
    if Stuck(events, tasks, order, max) {
      StuckIsPending(events, tasks, all, order, max);
    }
  }

  lemma {:induction false} SomeoneWalked(walk: seq<nat>)
    ensures walk != [] ==> exists c :: c in walk
  {
    if walk != [] {
      assert walk[0] in walk;
    }
  }

  /** An abort just before the submission: nothing is killed and every task is pending. */
  lemma {:induction false} AbortThenSubmission(tasks: seq<Task>, order: WalkOrder, max: int)
    requires WalksAll(order)
    ensures var r := After([AbortCalled, Submission], tasks, order, max);
            Orderly([AbortCalled, Submission], tasks, order, max) && Stuck([AbortCalled, Submission], tasks, order, max)
            && r.startAbort && r.pending == tasks && r.running == map[] && r.killed == []
  {
    assert [AbortCalled, Submission][..1] == [AbortCalled] && [AbortCalled][..0] == [];
    var nobody: map<nat, Task> := map[];
    var nothing := State([], nobody, [], [], false, {}, [], []);
    assert After([], tasks, order, max) == nothing;
    SomeoneWalked(order(nobody));
    assert Stopping(nobody, []) == [];
    assert After([AbortCalled], tasks, order, max) == Abort(nothing, order);
    assert Orderly([], tasks, order, max) && !Submitted([AbortCalled]);
    assert Orderly([AbortCalled], tasks, order, max);
  }

  /** One more abort call frees a stuck job: the main loop ends, with every task finished or killed. */
  lemma {:induction false} AbortedOnceMore(events: seq<Event>, tasks: seq<Task>, all: set<Key>, order: WalkOrder,
                                           max: int)
    requires WalksAll(order) && Orderly(events, tasks, order, max) && NewTasks(tasks, all) && max >= 1
    requires Stuck(events, tasks, order, max)
    ensures Orderly(events + [AbortCalled], tasks, order, max)
    ensures var r := After(events + [AbortCalled], tasks, order, max);
            Done(r) && |r.finished| + |r.killed| == |all|
  {
    assert (events + [AbortCalled])[..|events|] == events;
    if !Submitted(events) {
      StuckNeedsSubmission(events, tasks, order, max);
    }
    AlwaysAccounted(events + [AbortCalled], tasks, all, order, max);
    DoneIsComplete(After(events + [AbortCalled], tasks, order, max), all, max, false);
  }
}
