/** The caller of a request asleep on its waiter, and who wakes it. The countdown starts at one; the worker sets it to
    the number of parts the request is cut into, and every reply counts it down and wakes all sleepers. Setting it
    wakes nobody. */
module Waiting {

  datatype Caller = Awake | Asleep | Returned

  /** One request: the countdown, its caller, whether the worker has set the countdown, and the replies so far. */
  datatype Request = Request(numWait: int, caller: Caller, reset: bool, replies: nat)

  const START := Request(1, Awake, false, 0)

  /** An awake caller looks at the countdown and returns or falls asleep. */
  ghost predicate Looks(r: Request, r': Request) {
    r.caller == Awake && r' == r.(caller := if r.numWait > 0 then Asleep else Returned)
  }

  ghost predicate Resets(r: Request, r': Request, parts: nat) {
    !r.reset && r' == r.(reset := true, numWait := parts)
  }

  ghost predicate Notifies(r: Request, r': Request, parts: nat) {
    && r.reset && r.replies < parts
    && r' == r.(replies := r.replies + 1, numWait := r.numWait - 1,
                caller := if r.caller == Asleep then Awake else r.caller)
  }

  ghost predicate Next(r: Request, r': Request, parts: nat) {
    Looks(r, r') || Resets(r, r', parts) || Notifies(r, r', parts)
  }

  ghost predicate IsRun(run: seq<Request>, parts: nat) {
    && |run| > 0 && run[0] == START
    && forall k {:trigger run[k]} :: 0 < k < |run| ==> Next(run[k - 1], run[k], parts)
  }

  ghost predicate Final(r: Request, parts: nat) {
    forall r': Request :: !Next(r, r', parts)
  }

  /** The caller fell asleep before the countdown was set. */
  ghost predicate SleptEarly(run: seq<Request>) {
    run != [] &&
    (SleptEarly(run[..|run| - 1]) || (!run[|run| - 1].reset && run[|run| - 1].caller == Asleep))
  }

  ghost predicate Inv(r: Request, parts: nat, early: bool) {
    && r.replies <= parts
    && (if r.reset then r.numWait == parts - r.replies else r.numWait == 1 && r.replies == 0 && r.caller != Returned)
    && (r.caller == Asleep && !r.reset ==> early)
    && (r.caller == Asleep && r.reset && r.numWait <= 0 ==> early && parts == 0)
    && (early && r.reset && parts == 0 ==> r.caller == Asleep)
    && (early && !r.reset ==> r.caller == Asleep)
  }

  lemma {:induction false} NextInv(r: Request, r': Request, parts: nat, early: bool)
    requires Inv(r, parts, early) && Next(r, r', parts)
    ensures Inv(r', parts, early || (!r'.reset && r'.caller == Asleep))
  {
  }

  lemma {:induction false} RunInv(run: seq<Request>, parts: nat)
    requires IsRun(run, parts)
    ensures Inv(run[|run| - 1], parts, SleptEarly(run))
    decreases |run|
  {
    hide Inv, Next;
    var k := |run| - 1;
    if k == 0 {
      AtStart(run, parts);
    } else {
      assert forall j {:trigger run[..k][j]} :: 0 <= j < k ==> run[..k][j] == run[j];
      RunInv(run[..k], parts);
      assert Next(run[k - 1], run[k], parts);
      NextInv(run[k - 1], run[k], parts, SleptEarly(run[..k]));
    }
  }

  lemma {:induction false} AtStart(run: seq<Request>, parts: nat)
    requires run == [START]
    ensures Inv(START, parts, SleptEarly(run))
  {
    assert run[..|run| - 1] == [] && !SleptEarly([]);
  }

  lemma {:induction false} SomethingMoves(r: Request, parts: nat)
    requires !r.reset || r.replies < parts || r.caller == Awake
    ensures !Final(r, parts)
  {
    if !r.reset {
      assert Next(r, r.(reset := true, numWait := parts), parts);
    } else if r.replies < parts {
      assert Next(r, r.(replies := r.replies + 1, numWait := r.numWait - 1,
                        caller := if r.caller == Asleep then Awake else r.caller), parts);
    } else {
      assert Next(r, r.(caller := if r.numWait > 0 then Asleep else Returned), parts);
    }
  }

  /** When nothing is left to happen the caller has returned, if and only if the request has parts or the caller had not
      fallen asleep before the countdown was set. */
  lemma {:induction false} WaitReturns(run: seq<Request>, parts: nat)
    requires IsRun(run, parts) && Final(run[|run| - 1], parts)
    ensures run[|run| - 1].caller == Returned <==> parts > 0 || !SleptEarly(run)
  {
    var r := run[|run| - 1];
    RunInv(run, parts);
    if !r.reset || r.replies < parts || r.caller == Awake {
      SomethingMoves(r, parts);
    }
  }

  /** A request without parts: its caller falls asleep first, then the countdown is set to zero, and nobody is left to
      wake it. */
  lemma {:induction false} NeverWoken()
    ensures var run := [START, START.(caller := Asleep), Request(0, Asleep, true, 0)];
            IsRun(run, 0) && Final(run[2], 0) && run[2].caller == Asleep
  {
    var run := [START, START.(caller := Asleep), Request(0, Asleep, true, 0)];
    assert Next(run[0], run[1], 0) && Next(run[1], run[2], 0);
  }

  /** Every run ends: the caller looks at most once a reply and once before. */
  lemma {:induction false} RunsAreFinite(run: seq<Request>, parts: nat)
    requires IsRun(run, parts)
    ensures |run| <= 2 * parts + 3
  {
    RunLength(run, parts);
    RunInv(run, parts);
  }

  lemma {:induction false} RunLength(run: seq<Request>, parts: nat)
    requires IsRun(run, parts)
    ensures var r := run[|run| - 1];
      |run| <= 1 + (if r.reset then 1 else 0) + 2 * r.replies + if r.caller == Awake then 0 else 1
    decreases |run|
  {
    var k := |run| - 1;
    if k == 0 {
    } else {
      RunLength(run[..k], parts);
      assert Next(run[k - 1], run[k], parts);
    }
  }
}
