/** The application master's accounting of tasks: pending, running, finished, killed. */
module AppMaster {

  datatype Role = Worker | Server
  datatype Key = Key(role: Role, taskId: nat)
  datatype Container = Container(id: nat, host: nat)
  datatype Option<T> = None | Some(value: T)

  datatype Task = Task(key: Key, attempts: nat, container: Option<Container>, abortRequested: bool)

  datatype ExitStatus = Success | ExceededMemory | OtherFailure
  datatype Status = Status(container: nat, exit: ExitStatus)

  /** The collections of tasks; the containers asked to stop, and those told to run the dummy task. */
  datatype State = State(pending: seq<Task>, running: map<nat, Task>, finished: seq<Task>, killed: seq<Task>,
                         startAbort: bool, blackList: set<nat>, stopped: seq<nat>, dummies: seq<nat>)

  /** What the main loop waits for. */
  ghost predicate Done(s: State) {
    s.pending == [] && s.running == map[]
  }

  /** The order in which a hash map is walked: unknown, but every key once. */
  type WalkOrder = map<nat, Task> -> seq<nat>

  ghost predicate WalksAll(order: WalkOrder) {
    forall m: map<nat, Task> {:trigger order(m)} ::
      && (forall i {:trigger order(m)[i]} :: 0 <= i < |order(m)| ==> order(m)[i] in m)
      && (forall i, j {:trigger order(m)[i], order(m)[j]} :: 0 <= i < j < |order(m)| ==> order(m)[i] != order(m)[j])
      && (forall c {:trigger c in m} :: c in m ==> c in order(m))
  }

  ghost function Submit(s: State, tasks: seq<Task>): State {
    s.(pending := s.pending + tasks)
  }

  /** The running tasks met on the walk that were not asked to stop before. */
  ghost function Stopping(m: map<nat, Task>, walk: seq<nat>): (r: seq<Task>)
    requires forall i {:trigger walk[i]} :: 0 <= i < |walk| ==> walk[i] in m
  {
    if walk == [] then []
    else
      var c := walk[|walk| - 1];
      Stopping(m, walk[..|walk| - 1]) + if m[c].abortRequested then [] else [m[c].(abortRequested := true)]
  }

  function Ids(tasks: seq<Task>): seq<nat> {
    if tasks == [] then []
    else
      var t := tasks[|tasks| - 1];
      Ids(tasks[..|tasks| - 1]) + if t.container.Some? then [t.container.value.id] else []
  }

  ghost function Abort(s: State, order: WalkOrder): State
    requires WalksAll(order)
  {
    var stopping := Stopping(s.running, order(s.running));
    s.(startAbort := true, killed := s.killed + stopping + s.pending, pending := [], running := map[],
    stopped := s.stopped + Ids(stopping))
  }

  /** Give the containers to the pending tasks in order; the rest, and those on failed hosts, get the dummy task. */
  ghost function Assign(s: State, containers: seq<Container>): State
    decreases |containers|
  {
    if containers == [] then s
    else
      var before, c := Assign(s, containers[..|containers| - 1]), containers[|containers| - 1];
      if c.host in before.blackList then before.(dummies := before.dummies + [c.id])
      else if before.pending == [] then before
      else before.(pending := before.pending[1..],
                   running := before.running[c.id := before.pending[0].(container := Some(c))])
  }

  /** The containers left without a task. */
  ghost function Unused(s: State, containers: seq<Container>): seq<nat>
    decreases |containers|
  {
    if containers == [] then []
    else
      var before, c := Assign(s, containers[..|containers| - 1]), containers[|containers| - 1];
      Unused(s, containers[..|containers| - 1]) +
      if c.host !in before.blackList && before.pending == [] then [c.id] else []
  }

  function IdsOf(containers: seq<Container>): (r: seq<nat>)
    ensures |r| == |containers|
  {
    seq(|containers|, i requires 0 <= i < |containers| => containers[i].id)
  }

  ghost function Allocated(s: State, containers: seq<Container>): State {
    if s.startAbort then s.(dummies := s.dummies + IdsOf(containers))
    else var r := Assign(s, containers); r.(dummies := r.dummies + Unused(s, containers))
  }

  ghost function TakenOff(s: State, c: nat): State
    requires c in s.running
  {
    var r := s.running[c];
    if r.container.Some? then
      s.(running := s.running - {c}, stopped := s.stopped + [r.container.value.id],
         blackList := s.blackList + {r.container.value.host})
    else s.(running := s.running - {c})
  }

  /** One running task's container failed: stop it, remember its host, count the attempt; too many abort the job. */
  ghost function FailOne(s: State, order: WalkOrder, maxNumAttempt: int, c: nat): (State, Task)
    requires WalksAll(order) && c in s.running
  {
    var t := s.running[c].(attempts := s.running[c].attempts + 1, container := None);
    (if t.attempts >= maxNumAttempt then Abort(TakenOff(s, c), order) else TakenOff(s, c), t)
  }

  ghost function FailAll(s: State, order: WalkOrder, maxNumAttempt: int, failed: seq<nat>): (State, seq<Task>)
    requires WalksAll(order)
    decreases |failed|
  {
    if failed == [] then (s, [])
    else
      var (before, tasks) := FailAll(s, order, maxNumAttempt, failed[..|failed| - 1]);
      var c := failed[|failed| - 1];
      if c !in before.running then (before, tasks)
      else var (after, t) := FailOne(before, order, maxNumAttempt, c); (after, tasks + [t])
  }

  ghost function Failed(s: State, order: WalkOrder, maxNumAttempt: int, failed: seq<nat>): State
    requires WalksAll(order)
  {
    var (r, tasks) := FailAll(s, order, maxNumAttempt, failed);
    if r.startAbort then r.(killed := r.killed + tasks) else Submit(r, tasks)
  }

  /** The statuses up to the first one that aborts the job: successes finish their tasks, failures are collected. */
  ghost function Sorted(s: State, order: WalkOrder, statuses: seq<Status>): (State, seq<nat>, bool)
    requires WalksAll(order)
    decreases |statuses|
  {
    if statuses == [] then (s, [], false)
    else
      var (before, failed, stop) := Sorted(s, order, statuses[..|statuses| - 1]);
      var st := statuses[|statuses| - 1];
      if stop || st.container !in before.running then (before, failed, stop)
      else match st.exit
        case Success =>
          (before.(finished := before.finished + [before.running[st.container]],
                   running := before.running - {st.container}), failed, false)
        case ExceededMemory => (Abort(before, order), failed, true)
        case OtherFailure => (before, failed + [st.container], false)
  }

  ghost function Completed(s: State, order: WalkOrder, maxNumAttempt: int, statuses: seq<Status>): State
    requires WalksAll(order)
  {
    var (r, failed, stop) := Sorted(s, order, statuses);
    if stop then r else Failed(r, order, maxNumAttempt, failed)
  }

  class ApplicationMaster {
    const maxNumAttempt: int
    const order: WalkOrder
    var startAbort: bool
    var pendingTasks: seq<Task>
    var runningTasks: map<nat, Task>
    var finishedTasks: seq<Task>
    var killedTasks: seq<Task>
    var blackList: set<nat>
    /** Requests made to the node manager. */
    var stopped: seq<nat>
    var dummies: seq<nat>

    ghost function Value(): State
      reads this
    {
      State(pendingTasks, runningTasks, finishedTasks, killedTasks, startAbort, blackList, stopped, dummies)
    }

    predicate DoneAllJobs()
      reads this
      ensures DoneAllJobs() <==> Done(Value())
    {
      |pendingTasks| == 0 && |runningTasks| == 0
    }

    method SubmitTasks(tasks: seq<Task>)
      modifies this
      ensures Value() == Submit(old(Value()), tasks) && pendingTasks == old(pendingTasks) + tasks
    {
      for i := 0 to |tasks|
        invariant Value() == Submit(old(Value()), tasks[..i])
      {
        assert tasks[..i + 1] == tasks[..i] + [tasks[i]];
        pendingTasks := pendingTasks + [tasks[i]];
      }
      assert tasks[..|tasks|] == tasks;
    }

    method LaunchTask(c: Container, task: Task)
      modifies this
      ensures Value() == old(Value()).(running := old(runningTasks)[c.id := task.(container := Some(c))])
    {
      runningTasks := runningTasks[c.id := task.(container := Some(c))];
    }

    method OnContainersAllocated(containers: seq<Container>)
      modifies this
      ensures Value() == Allocated(old(Value()), containers)
    {
      if startAbort {
        dummies := dummies + IdsOf(containers);
        return;
      }
      ghost var s := Value();
      var freeList := [];
      for i := 0 to |containers|
        invariant Value() == Assign(s, containers[..i]) && freeList == Unused(s, containers[..i])
      {
        var c := containers[i];
        assert containers[..i + 1][..i] == containers[..i];
        if c.host in blackList {
          dummies := dummies + [c.id];
        } else if pendingTasks == [] {
          freeList := freeList + [c.id];
        } else {
          var task := pendingTasks[0];
          pendingTasks := pendingTasks[1..];
          LaunchTask(c, task);
        }
      }
      assert containers[..|containers|] == containers;
      dummies := dummies + freeList;
    }

    method AbortJob()
      requires WalksAll(order)
      modifies this
      ensures Value() == Abort(old(Value()), order)
    {
      hide Stopping, Ids;
      startAbort := true;
      StoppingNothing(runningTasks);
      var walk := order(runningTasks);
      ghost var stopping := [];
      assert forall j {:trigger walk[j]} :: 0 <= j < |walk| ==> walk[j] in old(runningTasks);
      for i := 0 to |walk|
        invariant stopping == Stopping(old(runningTasks), walk[..i])
        invariant Value() == old(Value()).(startAbort := true, killed := old(killedTasks) + stopping,
                                           stopped := old(stopped) + Ids(stopping))
      {
        var r := runningTasks[walk[i]];
        StoppingNext(runningTasks, walk, i);
        if !r.abortRequested {
          if r.container.Some? {
            stopped := stopped + [r.container.value.id];
          }
          killedTasks := killedTasks + [r.(abortRequested := true)];
          stopping := stopping + [r.(abortRequested := true)];
        }
      }
      assert walk[..|walk|] == walk;
      killedTasks := killedTasks + pendingTasks;
      pendingTasks := [];
      runningTasks := map[];
    }

    method HandleFailure(failed: seq<nat>)
      requires WalksAll(order)
      modifies this
      ensures Value() == Failed(old(Value()), order, maxNumAttempt, failed)
    {
      hide Abort;
      ghost var s := Value();
      var tasks := [];
      for i := 0 to |failed|
        invariant (Value(), tasks) == FailAll(s, order, maxNumAttempt, failed[..i])
      {
        assert failed[..i + 1][..i] == failed[..i];
        if failed[i] in runningTasks {
          var t := FailTask(failed[i]);
          tasks := tasks + [t];
        }
      }
      assert failed[..|failed|] == failed;
      if startAbort {
        killedTasks := killedTasks + tasks;
      } else {
        SubmitTasks(tasks);
      }
    }

    /** The body of HandleFailure's loop for a container that runs a task. */
    method FailTask(c: nat) returns (t: Task)
      requires WalksAll(order) && c in runningTasks
      modifies this
      ensures (Value(), t) == FailOne(old(Value()), order, maxNumAttempt, c)
    {
      var r := runningTasks[c];
      runningTasks := runningTasks - {c};
      t := r.(attempts := r.attempts + 1);
      if r.container.Some? {
        stopped := stopped + [r.container.value.id];
        blackList := blackList + {r.container.value.host};
      }
      t := t.(container := None);
      assert Value() == TakenOff(old(Value()), c);
      if t.attempts >= maxNumAttempt {
        AbortJob();
      }
    }

    method OnContainersCompleted(statuses: seq<Status>)
      requires WalksAll(order)
      modifies this
      ensures Value() == Completed(old(Value()), order, maxNumAttempt, statuses)
    {
      hide Abort, Failed;
      ghost var s := Value();
      var failed := [];
      for i := 0 to |statuses|
        invariant (Value(), failed, false) == Sorted(s, order, statuses[..i])
      {
        assert statuses[..i + 1][..i] == statuses[..i];
        var c := statuses[i].container;
        if c in runningTasks {
          match statuses[i].exit {
            case Success =>
              finishedTasks := finishedTasks + [runningTasks[c]];
              runningTasks := runningTasks - {c};
            case ExceededMemory =>
              AbortJob();
              StoppedEarly(s, order, statuses, i + 1);
              return;
            case OtherFailure =>
              failed := failed + [c];
          }
        }
      }
      assert statuses[..|statuses|] == statuses;
      HandleFailure(failed);
    }
  }

  lemma {:induction false} StoppingNothing(m: map<nat, Task>)
    ensures Stopping(m, []) == [] && Ids([]) == []
  {
  }

  lemma {:induction false} StoppingNext(m: map<nat, Task>, walk: seq<nat>, i: nat)
    requires i < |walk| && forall j {:trigger walk[j]} :: 0 <= j < |walk| ==> walk[j] in m
    ensures var r := m[walk[i]]; var before := Stopping(m, walk[..i]); var after := Stopping(m, walk[..i + 1]);
            && after == (if r.abortRequested then before else before + [r.(abortRequested := true)])
            && Ids(after) == Ids(before) + if !r.abortRequested && r.container.Some? then [r.container.value.id] else []
  {
    assert walk[..i + 1][..i] == walk[..i];
    var r, before := m[walk[i]], Stopping(m, walk[..i]);
    assert (before + [r.(abortRequested := true)])[..|before|] == before;
    assert before + [] == before && Ids(before) + [] == Ids(before);
  }

  /** Statuses after the one that aborts the job are not looked at. */
  lemma {:induction false} StoppedEarly(s: State, order: WalkOrder, statuses: seq<Status>, i: nat)
    requires WalksAll(order) && i <= |statuses| && Sorted(s, order, statuses[..i]).2
    ensures Sorted(s, order, statuses) == Sorted(s, order, statuses[..i])
    decreases |statuses| - i
  {
    if i < |statuses| {
      assert statuses[..i + 1][..i] == statuses[..i];
      StoppedEarly(s, order, statuses, i + 1);
    } else {
      assert statuses[..i] == statuses;
    }
  }

  /** How often a task is in a collection. */
  ghost function Occurs(tasks: seq<Task>, k: Key): nat {
    if tasks == [] then 0
    else Occurs(tasks[..|tasks| - 1], k) + if tasks[|tasks| - 1].key == k then 1 else 0
  }

  ghost function OccursRunning(m: map<nat, Task>, k: Key): nat {
    if exists c :: c in m && m[c].key == k then 1 else 0
  }

  /** In how many places a task is, with those a handler has in hand. */
  ghost function Places(s: State, hand: seq<Task>, k: Key): nat {
    Occurs(s.pending, k) + OccursRunning(s.running, k) + Occurs(s.finished, k) + Occurs(s.killed, k) + Occurs(hand, k)
  }

  ghost predicate Few(tasks: seq<Task>, bound: int) {
    forall i {:trigger tasks[i]} :: 0 <= i < |tasks| ==> tasks[i].attempts <= bound
  }

  ghost predicate Unasked(tasks: seq<Task>) {
    forall i {:trigger tasks[i]} :: 0 <= i < |tasks| ==> !tasks[i].abortRequested
  }

  /** Running tasks are distinct, know their container, were not asked to stop, and may fail once more. */
  ghost predicate RunningOk(m: map<nat, Task>, max: int) {
    && (forall c, d {:trigger m[c], m[d]} :: c in m && d in m && c != d ==> m[c].key != m[d].key)
    && forall c {:trigger m[c]} :: c in m ==>
         !m[c].abortRequested && m[c].attempts < max && m[c].container.Some? && m[c].container.value.id == c
  }

  /** Every task submitted is in exactly one place, no attempt count exceeds the maximum, and after an abort
      nothing runs and, unless tasks were submitted later, nothing is pending. */
  ghost predicate Inv(s: State, hand: seq<Task>, all: set<Key>, max: int, late: bool) {
    && (forall k {:trigger Places(s, hand, k)} :: Places(s, hand, k) == if k in all then 1 else 0)
    && RunningOk(s.running, max)
    && Few(s.pending, max - 1) && Unasked(s.pending) && Few(s.finished, max) && Few(s.killed, max)
    && (s.startAbort ==> s.running == map[] && (!late ==> s.pending == []))
  }
}
