/** When sends complete, and whether all machines get done: messages with cells never block a protocol, while
    an empty message whose receiver does not wait for it can block its sender for ever. */
module Completion {
  import opened Network
  import opened Peers

  /** Machine w has a receive open that takes messages from s. */
  ghost predicate Listening<E>(p: Protocol<E>, net: Net<E>, w: nat, s: nat) {
    && w < p.n && Sized(p, net) && net.posted[w] == |net.hist[w]| + 1
    && p.source(w, |net.hist[w]|) == Machine(s) && p.need(w, |net.hist[w]|) > 0
  }

  /** The send machine r waits for is bound to complete: nothing was sent, or a receive has taken the message, or
      the open receive takes it because only empty messages are before it. */
  ghost predicate Taken<E>(p: Protocol<E>, net: Net<E>, r: nat) {
    && Waiting(p, net, r)
    && match p.target(r, net.done[r])
       case Nobody => true
       case Machine(w) =>
         var ch := Channel(net, r, w);
         || Skipped(p, r, net.hist[r][..net.done[r]])
         || ch == []
         || (Listening(p, net, w, r) && NonEmpty(ch[..|ch| - 1]) == [])
  }

  ghost predicate EmptySend<E>(p: Protocol<E>, net: Net<E>, r: nat) {
    Waiting(p, net, r) && p.message(r, net.hist[r][..net.done[r]]) == []
  }

  ghost predicate CanFinish<E>(p: Protocol<E>, net: Net<E>, r: nat) {
    && r < p.n && Sized(p, net) && net.posted[r] == |net.hist[r]| + 1
    && Incoming(p, net, r).Done?
  }

  /** Some machine is bound to move on; with `eager`, sends of no cells complete at once. */
  ghost predicate CanMove<E(!new)>(p: Protocol<E>, net: Net<E>, eager: bool) {
    exists r: nat :: CanPost(p, net, r) || CanFinish(p, net, r) || Taken(p, net, r) || (eager && EmptySend(p, net, r))
  }

  /** A network that completes no send before it is bound to: every send is synchronous. */
  ghost predicate SyncStep<E(!new)>(p: Protocol<E>, net: Net<E>, net': Net<E>) {
    exists r: nat ::
      Post(p, net, net', r) || Finish(p, net, net', r) || (Release(p, net, net', r) && Taken(p, net, r))
  }

  ghost predicate IsSyncRun<E(!new)>(p: Protocol<E>, run: seq<Net<E>>) {
    && |run| > 0 && Init(p, run[0])
    && forall t {:trigger run[t]} :: 0 < t < |run| ==> SyncStep(p, run[t - 1], run[t])
  }

  lemma SyncIsRun<E(!new)>(p: Protocol<E>, run: seq<Net<E>>)
    requires IsSyncRun(p, run)
    ensures IsRun(p, run)
  {
    hide Post, Finish, Release, Init;
    forall t | 0 < t < |run|
      ensures Step(p, run[t - 1], run[t])
    {
      assert SyncStep(p, run[t - 1], run[t]);
    }
  }

  // ---- the last message in a channel ----

  /** The message of the round machine r is in, once posted, is the last in its channel, if that is not empty. */
  ghost predicate LastPosted<E>(p: Protocol<E>, net: Net<E>, r: nat)
    requires Sized(p, net) && r < p.n && net.done[r] <= |net.hist[r]|
  {
    net.posted[r] == net.done[r] + 1 ==>
      match p.target(r, net.done[r])
      case Nobody => true
      case Machine(w) =>
        var ch := Channel(net, r, w);
        || Skipped(p, r, net.hist[r][..net.done[r]])
        || ch == []
        || ch[|ch| - 1] == p.message(r, net.hist[r][..net.done[r]])
  }

  lemma {:induction false} ReceiveKeepsLast<E>(ch: seq<seq<E>>, len: nat)
    requires Receive(ch, len).Done?
    ensures var rest := Receive(ch, len).rest; rest != [] ==> ch != [] && rest[|rest| - 1] == ch[|ch| - 1]
    decreases |ch|
  {
    if len == 0 || ch == [] {
    } else {
      ReceiveKeepsLast(ch[1..], len - |ch[0]|);
    }
  }

  lemma LastPostedStep<E(!new)>(p: Protocol<E>, net: Net<E>, net': Net<E>, r: nat, q: nat)
    requires Inv(p, net) && Inv(p, net') && r < p.n && q < p.n && LastPosted(p, net, r)
    requires Post(p, net, net', q) || Finish(p, net, net', q) || Release(p, net, net', q)
    ensures LastPosted(p, net', r)
  {
    hide InFlight, NonEmpty, Receive, Agreed, ChannelHolds, Fits;
    assert net.posted[r] <= net.done[r] + 1;
    if Post(p, net, net', q) {
      assert net.hist[q][..net.done[q]] == net.hist[q];
    } else if Finish(p, net, net', q) {
      match p.source(q, |net.hist[q]|)
      case Nobody =>
      case Machine(s) => ReceiveKeepsLast(Channel(net, s, q), p.need(q, |net.hist[q]|));
    }
    assert net.done[r] <= |net.hist[r]|;
    if net'.done[r] == net.done[r] {
      assert net'.hist[r][..net.done[r]] == net.hist[r][..net.done[r]];
    }
  }

  lemma {:induction false} RunLast<E(!new)>(p: Protocol<E>, run: seq<Net<E>>, r: nat)
    requires WellFormed(p) && IsRun(p, run) && r < p.n
    ensures Inv(p, run[|run| - 1]) && LastPosted(p, run[|run| - 1], r)
    decreases |run|
  {
    hide Post, Finish, Release, WellFormed, Fits, Agreed, ChannelHolds;
    RunInv(p, run);
    if |run| == 1 {
    } else {
      RunPrefix(p, run);
      RunLast(p, run[..|run| - 1], r);
      var net, net' := run[|run| - 2], run[|run| - 1];
      var q: nat :| Post(p, net, net', q) || Finish(p, net, net', q) || Release(p, net, net', q);
      hide Inv, LastPosted;
      StepMachine(p, net, net', q);
      LastPostedStep(p, net, net', r, q);
    }
  }

  lemma StepMachine<E>(p: Protocol<E>, net: Net<E>, net': Net<E>, q: nat)
    requires Post(p, net, net', q) || Finish(p, net, net', q) || Release(p, net, net', q)
    ensures q < p.n
  {
  }

  // ---- progress ----

  /** The machine furthest behind, among the first m. */
  lemma {:induction false} Slowest<E>(net: Net<E>, m: nat) returns (r: nat)
    requires 0 < m <= |net.done|
    ensures r < m && forall q {:trigger net.done[q]} :: 0 <= q < m ==> net.done[r] <= net.done[q]
  {
    if m == 1 {
      r := 0;
    } else {
      r := Slowest(net, m - 1);
      if net.done[m - 1] < net.done[r] {
        r := m - 1;
      }
    }
  }

  /** A machine no other is behind of, in its receive. */
  lemma ReceiverMoves<E(!new)>(p: Protocol<E>, net: Net<E>, r: nat)
    requires WellFormed(p) && Inv(p, net) && r < p.n && net.posted[r] == |net.hist[r]| + 1
    requires forall q {:trigger net.done[q]} :: 0 <= q < p.n ==> |net.hist[r]| <= net.done[q]
    ensures CanMove(p, net, false)
  {
    hide InFlight, NonEmpty, ChannelHolds, Receive, Agreed;
    var j := |net.hist[r]|;
    assert net.posted[r] <= p.rounds;
    assert p.source(r, j) == p.source(r, j);
    match p.source(r, j)
    case Nobody =>
      assert CanFinish(p, net, r);
    case Machine(s) =>
      WaitGetsMessage(p, net, s, r);
      assert net.done[s] <= |net.hist[s]| <= net.posted[s];
      if p.need(r, j) > 0 && net.posted[s] <= j {
        assert CanPost(p, net, s);
      } else {
        assert CanFinish(p, net, r);
      }
  }

  /** Machine r posted no cells in round j in an exchange: it also waits for a message in that round. */
  ghost predicate EmptyExchange<E>(p: Protocol<E>, r: nat, j: nat) {
    p.target(r, j).Machine? && p.source(r, j).Machine? && p.need(p.target(r, j).rank, j) == 0
  }

  /** A machine no other is behind of, waiting for its send. */
  lemma SenderMoves<E(!new)>(p: Protocol<E>, net: Net<E>, r: nat)
    requires WellFormed(p) && Inv(p, net) && Waiting(p, net, r) && LastPosted(p, net, r)
    requires forall q {:trigger net.done[q]} :: 0 <= q < p.n ==> net.done[r] <= net.done[q]
    ensures CanMove(p, net, false) || (EmptyExchange(p, r, net.done[r]) && EmptySend(p, net, r))
  {
    hide InFlight, NonEmpty, Receive, Agreed, ChannelHolds;
    var j := net.done[r];
    assert net.posted[r] <= p.rounds;
    MessageFits(p, net, r, j);
    assert p.target(r, j) == p.target(r, j);
    match p.target(r, j)
    case Nobody =>
      assert Taken(p, net, r);
    case Machine(w) =>
      var m := p.message(r, net.hist[r][..j]);
      if m == [] {
        if p.source(r, j) == Nobody {
          assert Taken(p, net, r);
        }
      } else {
        MessageMoves(p, net, r, w);
      }
  }

  lemma MessageMoves<E(!new)>(p: Protocol<E>, net: Net<E>, r: nat, w: nat)
    requires WellFormed(p) && Inv(p, net) && Waiting(p, net, r) && LastPosted(p, net, r)
    requires forall q {:trigger net.done[q]} :: 0 <= q < p.n ==> net.done[r] <= net.done[q]
    requires net.done[r] < p.rounds && p.target(r, net.done[r]) == Machine(w)
    requires p.message(r, net.hist[r][..net.done[r]]) != []
    ensures CanMove(p, net, false)
  {
    hide InFlight, NonEmpty, Receive, Agreed;
    var j, ch := net.done[r], Channel(net, r, w);
    assert p.source(w, j) == Machine(r);
    assert net.done[w] <= |net.hist[w]| <= net.posted[w] <= net.done[w] + 1;
    if |net.hist[w]| == j && net.posted[w] == j {
      assert CanPost(p, net, w);
    } else if |net.hist[w]| == j {
      WaitGetsMessage(p, net, r, w);
      assert CanFinish(p, net, w);
    } else {
      assert ChannelHolds(p, net, r, w);
      InFlightNone(p, net.hist[r], r, w, |net.hist[w]|, net.posted[r]);
      if ch != [] {
        NonEmptyLast(ch);
      }
      assert Taken(p, net, r);
    }
  }

  lemma NonEmptyLast<E>(ch: seq<seq<E>>)
    requires ch != []
    ensures NonEmpty(ch) == NonEmpty(ch[..|ch| - 1]) + if ch[|ch| - 1] == [] then [] else [ch[|ch| - 1]]
  {
    hide NonEmpty;
    assert ch == ch[..|ch| - 1] + [ch[|ch| - 1]];
    NonEmptyAppend(ch[..|ch| - 1], ch[|ch| - 1]);
  }

  /** If no machine is bound to move, some machine waits for a send of no cells to complete. */
  lemma OnlyEmptySendsBlock<E(!new)>(p: Protocol<E>, run: seq<Net<E>>) returns (r: nat)
    requires WellFormed(p) && IsRun(p, run) && !AllDone(p, run[|run| - 1])
    ensures CanMove(p, run[|run| - 1], false) ||
            (r < p.n == |run[|run| - 1].done| && run[|run| - 1].done[r] < p.rounds &&
             EmptyExchange(p, r, run[|run| - 1].done[r]) && EmptySend(p, run[|run| - 1], r))
  {
    hide InFlight, NonEmpty, ChannelHolds, Receive, WellFormed, Agreed, Fits, EmptyExchange, EmptySend, CanMove;
    var net := run[|run| - 1];
    RunInv(p, run);
    var q :| 0 <= q < p.n && net.done[q] != p.rounds;
    assert net.posted[q] <= p.rounds;
    r := Slowest(net, p.n);
    assert net.posted[r] <= net.done[r] + 1;
    if net.posted[r] == net.done[r] {
      assert CanPost(p, net, r);
      assert CanMove(p, net, false) by { PostIsMove(p, net, r); }
    } else if |net.hist[r]| == net.done[r] {
      ReceiverMoves(p, net, r);
    } else {
      RunLast(p, run, r);
      SenderMoves(p, net, r);
    }
  }

  lemma PostIsMove<E(!new)>(p: Protocol<E>, net: Net<E>, r: nat)
    requires CanPost(p, net, r)
    ensures CanMove(p, net, false)
  {
  }

  /** Whoever sends and receives in one round sends at least one cell. */
  ghost predicate Substantial<E(!new)>(p: Protocol<E>) {
    forall r: nat, j: nat {:trigger EmptyExchange(p, r, j)} :: r < p.n && j < p.rounds ==> !EmptyExchange(p, r, j)
  }

  /** No deadlock: as long as some machine is not done, some machine is bound to move, if no exchange is empty or
      empty sends complete at once. */
  lemma Progress<E(!new)>(p: Protocol<E>, run: seq<Net<E>>, eager: bool)
    requires WellFormed(p) && IsRun(p, run) && !AllDone(p, run[|run| - 1])
    requires eager || Substantial(p)
    ensures CanMove(p, run[|run| - 1], eager)
  {
    var net := run[|run| - 1];
    hide Inv, Fits, WellFormed, IsRun, EmptyExchange;
    var r := OnlyEmptySendsBlock(p, run);
    if CanMove(p, net, false) {
    } else if eager {
      assert EmptySend(p, net, r);
    }
  }

  /** A machine bound to move does so in a step of synchronous sends. */
  lemma MoveIsStep<E(!new)>(p: Protocol<E>, net: Net<E>) returns (net': Net<E>)
    requires CanMove(p, net, false)
    ensures SyncStep(p, net, net')
  {
    hide Receive, NonEmpty;
    var r: nat :| CanPost(p, net, r) || CanFinish(p, net, r) || Taken(p, net, r);
    if CanPost(p, net, r) {
      net' := net.(posted := net.posted[r := net.posted[r] + 1],
                   chan := match p.target(r, net.posted[r])
                           case Nobody => net.chan
                           case Machine(w) =>
                             if Skipped(p, r, net.hist[r]) then net.chan
                             else net.chan[(r, w) := Channel(net, r, w) + [p.message(r, net.hist[r])]]);
      assert Post(p, net, net', r);
    } else if CanFinish(p, net, r) {
      var got := Incoming(p, net, r);
      net' := net.(hist := net.hist[r := net.hist[r] + [got.data]],
                   chan := match p.source(r, |net.hist[r]|)
                           case Nobody => net.chan
                           case Machine(s) => net.chan[(s, r) := got.rest]);
      assert Finish(p, net, net', r);
    } else {
      net' := net.(done := net.done[r := net.done[r] + 1]);
      assert Release(p, net, net', r);
    }
  }

  // ---- every run ends ----

  /** Rounds posted, received and done, over the first m machines. */
  function Work<E>(net: Net<E>, m: nat): nat
    requires m <= |net.hist| && m <= |net.posted| && m <= |net.done|
  {
    if m == 0 then 0 else Work(net, m - 1) + |net.hist[m - 1]| + net.posted[m - 1] + net.done[m - 1]
  }

  lemma {:induction false} WorkGrows<E>(net: Net<E>, net': Net<E>, r: nat, m: nat)
    requires |net.hist| == |net.posted| == |net.done| == |net'.hist| == |net'.posted| == |net'.done|
    requires m <= |net.hist| && r < |net.hist|
    requires forall q :: 0 <= q < |net.hist| && q != r ==>
               net'.hist[q] == net.hist[q] && net'.posted[q] == net.posted[q] && net'.done[q] == net.done[q]
    requires |net'.hist[r]| + net'.posted[r] + net'.done[r] == |net.hist[r]| + net.posted[r] + net.done[r] + 1
    ensures Work(net', m) == Work(net, m) + if r < m then 1 else 0
  {
    if m == 0 {
    } else {
      WorkGrows(net, net', r, m - 1);
    }
  }

  lemma {:induction false} WorkBound<E(!new)>(p: Protocol<E>, net: Net<E>, m: nat)
    requires Inv(p, net) && m <= p.n
    ensures Work(net, m) <= 3 * p.rounds * m
  {
    hide Agreed, ChannelHolds, Fits;
    if m == 0 {
    } else {
      WorkBound(p, net, m - 1);
      assert net.posted[m - 1] <= p.rounds;
      assert 3 * p.rounds * m == 3 * p.rounds * (m - 1) + 3 * p.rounds;
    }
  }

  lemma StepWork<E(!new)>(p: Protocol<E>, net: Net<E>, net': Net<E>)
    requires Step(p, net, net')
    ensures Sized(p, net) && Sized(p, net') && Work(net', p.n) == Work(net, p.n) + 1
  {
    hide Incoming, Work;
    var r: nat :| Post(p, net, net', r) || Finish(p, net, net', r) || Release(p, net, net', r);
    WorkGrows(net, net', r, p.n);
  }

  lemma {:induction false} WorkZero<E>(net: Net<E>, m: nat)
    requires m <= |net.hist| == |net.posted| == |net.done|
    requires forall q :: 0 <= q < m ==> net.hist[q] == [] && net.posted[q] == 0 && net.done[q] == 0
    ensures Work(net, m) == 0
  {
    if m == 0 {
    } else {
      WorkZero(net, m - 1);
    }
  }

  lemma {:induction false} WorkIsSteps<E(!new)>(p: Protocol<E>, run: seq<Net<E>>)
    requires IsRun(p, run)
    ensures Sized(p, run[|run| - 1]) && Work(run[|run| - 1], p.n) == |run| - 1
    decreases |run|
  {
    hide Step;
    if |run| == 1 {
      WorkZero(run[0], p.n);
    } else {
      RunPrefix(p, run);
      WorkIsSteps(p, run[..|run| - 1]);
      StepWork(p, run[|run| - 2], run[|run| - 1]);
    }
  }

  /** Every run is finite: it has at most three steps a machine and round. */
  lemma RunsAreFinite<E(!new)>(p: Protocol<E>, run: seq<Net<E>>)
    requires WellFormed(p) && IsRun(p, run)
    ensures |run| - 1 <= 3 * p.rounds * p.n
  {
    RunInv(p, run);
    WorkIsSteps(p, run);
    WorkBound(p, run[|run| - 1], p.n);
  }

  /** With no empty exchange every run of synchronous sends goes on until all are done. */
  lemma {:induction false} SyncCompletes<E(!new)>(p: Protocol<E>, run: seq<Net<E>>) returns (whole: seq<Net<E>>)
    requires WellFormed(p) && Substantial(p) && IsSyncRun(p, run)
    ensures run <= whole && IsSyncRun(p, whole) && AllDone(p, whole[|whole| - 1])
    decreases 3 * p.rounds * p.n + 1 - |run|
  {
    hide WellFormed, Substantial, SyncStep, AllDone, CanMove, Init;
    SyncIsRun(p, run);
    if AllDone(p, run[|run| - 1]) {
      whole := run;
    } else {
      Progress(p, run, false);
      var next := MoveIsStep(p, run[|run| - 1]);
      var longer := run + [next];
      forall t | 0 < t < |longer|
        ensures SyncStep(p, longer[t - 1], longer[t])
      {
        assert t < |run| ==> SyncStep(p, run[t - 1], run[t]);
      }
      SyncIsRun(p, longer);
      RunsAreFinite(p, longer);
      whole := SyncCompletes(p, longer);
    }
  }

  // ---- an empty exchange blocks its sender ----

  /** Machine r sends no cells to w in round j, and w never again waits for cells from r. */
  ghost predicate NeverTaken<E>(p: Protocol<E>, r: nat, j: nat, w: nat) {
    && r < p.n && j < p.rounds && p.target(r, j) == Machine(w) && p.source(r, j).Machine? && p.need(w, j) == 0
    && forall i: nat {:trigger p.need(w, i)} :: j < i < p.rounds && p.source(w, i) == Machine(r) ==> p.need(w, i) == 0
  }

  /** Machine r is not done with round j, and once its message is posted it stays the last in the channel. */
  ghost predicate Held<E>(p: Protocol<E>, net: Net<E>, r: nat, j: nat, w: nat)
    requires Sized(p, net) && r < p.n
  {
    var ch := Channel(net, r, w);
    net.done[r] <= j && (net.posted[r] > j ==> ch != [] && ch[|ch| - 1] == [])
  }

  lemma {:induction false} EmptyLastStays<E>(ch: seq<seq<E>>, len: nat)
    requires ch != [] && ch[|ch| - 1] == [] && len > 0
    requires NonEmpty(ch) != [] && |NonEmpty(ch)[0]| == len && Receive(ch, len).Done?
    ensures Receive(ch, len).rest != []
    decreases |ch|
  {
    if ch[0] == [] {
      EmptyLastStays(ch[1..], len);
    } else {
      assert Receive(ch[1..], 0) == Done([], ch[1..]);
    }
  }

  /** A wait for cells from r in an earlier round than r has posted finds its message in the channel. */
  lemma EarlierMessage<E(!new)>(p: Protocol<E>, net: Net<E>, r: nat, w: nat)
    requires WellFormed(p) && Inv(p, net) && r < p.n && w < p.n && |net.hist[w]| < net.posted[r]
    requires p.source(w, |net.hist[w]|) == Machine(r) && p.need(w, |net.hist[w]|) > 0
    ensures NonEmpty(Channel(net, r, w)) != [] && |NonEmpty(Channel(net, r, w))[0]| == p.need(w, |net.hist[w]|)
  {
    hide NonEmpty, Agreed, Fits;
    var i := |net.hist[w]|;
    assert net.posted[r] <= p.rounds;
    assert ChannelHolds(p, net, r, w);
    assert p.target(r, i) == Machine(w);
    MessageFits(p, net, r, i);
    assert One(p, net.hist[r], r, w, i) == [p.message(r, net.hist[r][..i])];
  }

  lemma HeldPost<E(!new)>(p: Protocol<E>, net: Net<E>, net': Net<E>, r: nat, j: nat, w: nat, q: nat)
    requires WellFormed(p) && Inv(p, net) && NeverTaken(p, r, j, w) && Held(p, net, r, j, w)
    requires Post(p, net, net', q)
    ensures Sized(p, net') && Held(p, net', r, j, w)
  {
    hide Agreed, ChannelHolds;
    if q == r && net.posted[r] == j {
      assert Fits(p, r, net.hist[r]);
      assert RightLength(p, r, net.hist[r]);
    }
  }

  lemma HeldFinish<E(!new)>(p: Protocol<E>, net: Net<E>, net': Net<E>, r: nat, j: nat, w: nat, q: nat)
    requires WellFormed(p) && Inv(p, net) && NeverTaken(p, r, j, w) && Held(p, net, r, j, w)
    requires Finish(p, net, net', q)
    ensures Sized(p, net') && Held(p, net', r, j, w)
  {
    hide Agreed, ChannelHolds, NonEmpty, Receive, Fits, RightLength;
    var i := |net.hist[q]|;
    if q == w && p.source(w, i) == Machine(r) && net.posted[r] > j {
      assert net.posted[q] <= p.rounds;
      var ch := Channel(net, r, w);
      if p.need(w, i) == 0 {
        assert Receive(ch, 0) == Done([], ch) by { ReceiveNothing(ch); }
      } else {
        EarlierMessage(p, net, r, w);
        EmptyLastStays(ch, p.need(w, i));
        ReceiveKeepsLast(ch, p.need(w, i));
      }
    }
  }

  lemma ReceiveNothing<E>(ch: seq<seq<E>>)
    ensures Receive(ch, 0) == Done([], ch)
  {
  }

  lemma HeldRelease<E(!new)>(p: Protocol<E>, net: Net<E>, net': Net<E>, r: nat, j: nat, w: nat, q: nat)
    requires WellFormed(p) && Inv(p, net) && NeverTaken(p, r, j, w) && Held(p, net, r, j, w)
    requires Release(p, net, net', q) && Taken(p, net, q)
    ensures Sized(p, net') && Held(p, net', r, j, w)
  {
    hide Agreed, ChannelHolds, NonEmpty, Fits, RightLength;
    if q == r && net.done[r] == j {
      var ch := Channel(net, r, w);
      assert net.posted[w] <= p.rounds;
      EarlierMessage(p, net, r, w);
      NonEmptyLast(ch);
      assert false;
    }
  }

  /** With synchronous sends machine r never gets past a round in which it sends no cells in an exchange and its
      message is never taken. */
  lemma {:induction false} EmptyExchangeBlocks<E(!new)>(p: Protocol<E>, run: seq<Net<E>>, r: nat, j: nat, w: nat)
    requires WellFormed(p) && IsSyncRun(p, run) && NeverTaken(p, r, j, w)
    ensures Inv(p, run[|run| - 1]) && Held(p, run[|run| - 1], r, j, w) && !AllDone(p, run[|run| - 1])
    decreases |run|
  {
    hide Post, Finish, Release, Taken, WellFormed, Fits, Agreed, ChannelHolds, Init, NonEmpty;
    SyncIsRun(p, run);
    RunInv(p, run);
    if |run| == 1 {
      Unstarted(p, run[0], r);
    } else {
      var before := run[..|run| - 1];
      forall t | 0 < t < |before|
        ensures SyncStep(p, before[t - 1], before[t])
      {
        assert SyncStep(p, run[t - 1], run[t]);
      }
      EmptyExchangeBlocks(p, before, r, j, w);
      var net, net' := run[|run| - 2], run[|run| - 1];
      assert SyncStep(p, net, run[|run| - 1]);
      HeldStep(p, net, net', r, j, w);
    }
  }

  lemma Unstarted<E>(p: Protocol<E>, net: Net<E>, r: nat)
    requires Init(p, net) && r < p.n
    ensures net.done[r] == net.posted[r] == 0
  {
  }

  lemma HeldStep<E(!new)>(p: Protocol<E>, net: Net<E>, net': Net<E>, r: nat, j: nat, w: nat)
    requires WellFormed(p) && Inv(p, net) && NeverTaken(p, r, j, w) && Held(p, net, r, j, w)
    requires SyncStep(p, net, net')
    ensures Sized(p, net') && Held(p, net', r, j, w)
  {
    hide Post, Finish, Release, Taken, WellFormed, Inv, NeverTaken, Held;
    var q: nat :| Post(p, net, net', q) || Finish(p, net, net', q) || (Release(p, net, net', q) && Taken(p, net, q));
    if Post(p, net, net', q) {
      HeldPost(p, net, net', r, j, w, q);
    } else if Finish(p, net, net', q) {
      HeldFinish(p, net, net', r, j, w, q);
    } else {
      HeldRelease(p, net, net', r, j, w, q);
    }
  }
}
