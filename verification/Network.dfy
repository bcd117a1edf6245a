/** n machines exchanging messages over first-in-first-out channels, in any interleaving.

    A machine runs a fixed number of rounds. In a round it first posts its message, if it has a target,
    then waits for as many cells as it expects from its source, if it has one, and at last waits for its
    send to complete. What it posts depends on what it received in earlier rounds only. When a send
    completes is up to the network; module Completion says when it is bound to. A receive of no cells is
    never waited for, so a message of no cells, once posted, stays in its channel until a later receive
    on that channel passes over it; a machine that only sends in a round does not post it at all. */
module Network {
  import opened Peers
  import opened Sequences

  datatype Protocol<!E> = Protocol(n: nat, rounds: nat,
                                   source: (nat, nat) -> Peer, target: (nat, nat) -> Peer,
                                   need: (nat, nat) -> nat, message: (nat, seq<seq<E>>) -> seq<E>)

  /** Machine r has received, in each round so far, as many cells as it needed. */
  ghost predicate Fits<E(!new)>(p: Protocol<E>, r: nat, h: seq<seq<E>>) {
    |h| <= p.rounds && forall j {:trigger h[j]} :: 0 <= j < |h| ==> |h[j]| == p.need(r, j)
  }

  ghost predicate RightLength<E(!new)>(p: Protocol<E>, r: nat, h: seq<seq<E>>) {
    match p.target(r, |h|)
    case Nobody => true
    case Machine(w) => |p.message(r, h)| == p.need(w, |h|)
  }

  /** Sources and targets of a round match up, in ranks and in numbers of cells. */
  ghost predicate WellFormed<E(!new)>(p: Protocol<E>) {
    && (forall r: nat, j: nat {:trigger p.source(r, j)} :: r < p.n && j < p.rounds ==>
          match p.source(r, j)
          case Nobody => p.need(r, j) == 0
          case Machine(s) => s < p.n && p.target(s, j) == Machine(r))
    && (forall r: nat, j: nat {:trigger p.target(r, j)} :: r < p.n && j < p.rounds ==>
          match p.target(r, j)
          case Nobody => true
          case Machine(w) => w < p.n && p.source(w, j) == Machine(r))
    && (forall r: nat, h {:trigger RightLength(p, r, h)} :: r < p.n && |h| < p.rounds && Fits(p, r, h) ==>
          RightLength(p, r, h))
  }

  /** hist[r] is what machine r received so far, a message a round; it has posted the messages of posted[r]
      rounds, and its sends of done[r] rounds are complete; chan[(s, d)] is in flight from s to d, oldest
      message first. */
  datatype Net<!E> = Net(hist: seq<seq<seq<E>>>, posted: seq<nat>, done: seq<nat>,
                         chan: map<(nat, nat), seq<seq<E>>>)

  ghost predicate Sized<E>(p: Protocol<E>, net: Net<E>) {
    |net.hist| == |net.posted| == |net.done| == p.n
  }

  function Channel<E>(net: Net<E>, s: nat, d: nat): seq<seq<E>> {
    if (s, d) in net.chan then net.chan[(s, d)] else []
  }

  function NonEmpty<E>(ms: seq<seq<E>>): seq<seq<E>> {
    if ms == [] then [] else (if ms[0] == [] then [] else [ms[0]]) + NonEmpty(ms[1..])
  }

  /** No machine has started. The channels may hold empty messages left by what ran before. */
  ghost predicate Init<E>(p: Protocol<E>, net: Net<E>) {
    && Sized(p, net)
    && (forall r :: 0 <= r < p.n ==> net.hist[r] == [] && net.posted[r] == 0 && net.done[r] == 0)
    && forall s: nat, d: nat {:trigger Channel(net, s, d)} :: s < p.n && d < p.n ==> NonEmpty(Channel(net, s, d)) == []
  }

  /** How the receive loop ends: it takes whole messages until it has len cells; a message that does not
      fit in what is still missing is an error. */
  datatype Received<E> = Blocked | Truncated | Done(data: seq<E>, rest: seq<seq<E>>)

  function Receive<E>(ch: seq<seq<E>>, len: nat): Received<E>
    decreases |ch|
  {
    if len == 0 then Done([], ch)
    else if ch == [] then Blocked
    else if |ch[0]| > len then Truncated
    else match Receive(ch[1..], len - |ch[0]|)
      case Blocked => Blocked
      case Truncated => Truncated
      case Done(data, rest) => Done(ch[0] + data, rest)
  }

  /** A machine that only sends in a round does not send a message of no cells. */
  ghost predicate Skipped<E>(p: Protocol<E>, r: nat, h: seq<seq<E>>) {
    p.source(r, |h|) == Nobody && p.message(r, h) == []
  }

  ghost predicate CanPost<E>(p: Protocol<E>, net: Net<E>, r: nat) {
    r < p.n && Sized(p, net) && net.posted[r] == |net.hist[r]| == net.done[r] < p.rounds
  }

  ghost predicate Post<E>(p: Protocol<E>, net: Net<E>, net': Net<E>, r: nat) {
    && CanPost(p, net, r)
    && net'.hist == net.hist
    && net'.posted == net.posted[r := net.posted[r] + 1]
    && net'.done == net.done
    && net'.chan == match p.target(r, net.posted[r])
                    case Nobody => net.chan
                    case Machine(w) =>
                      if Skipped(p, r, net.hist[r]) then net.chan
                      else net.chan[(r, w) := Channel(net, r, w) + [p.message(r, net.hist[r])]]
  }

  function Incoming<E>(p: Protocol<E>, net: Net<E>, r: nat): Received<E>
    requires r < |net.hist|
  {
    match p.source(r, |net.hist[r]|)
    case Nobody => Done([], [])
    case Machine(s) => Receive(Channel(net, s, r), p.need(r, |net.hist[r]|))
  }

  ghost predicate Finish<E>(p: Protocol<E>, net: Net<E>, net': Net<E>, r: nat) {
    && r < p.n && Sized(p, net) && net.posted[r] == |net.hist[r]| + 1
    && var got := Incoming(p, net, r);
    && got.Done?
    && net'.hist == net.hist[r := net.hist[r] + [got.data]]
    && net'.posted == net.posted
    && net'.done == net.done
    && net'.chan == match p.source(r, |net.hist[r]|)
                    case Nobody => net.chan
                    case Machine(s) => net.chan[(s, r) := got.rest]
  }

  /** Machine r has posted and received in its round and waits for its send. */
  ghost predicate Waiting<E>(p: Protocol<E>, net: Net<E>, r: nat) {
    r < p.n && Sized(p, net) && net.posted[r] == |net.hist[r]| == net.done[r] + 1
  }

  ghost predicate Release<E>(p: Protocol<E>, net: Net<E>, net': Net<E>, r: nat) {
    Waiting(p, net, r) && net' == net.(done := net.done[r := net.done[r] + 1])
  }

  ghost predicate Step<E(!new)>(p: Protocol<E>, net: Net<E>, net': Net<E>) {
    exists r: nat :: Post(p, net, net', r) || Finish(p, net, net', r) || Release(p, net, net', r)
  }

  ghost predicate IsRun<E(!new)>(p: Protocol<E>, run: seq<Net<E>>) {
    && |run| > 0 && Init(p, run[0])
    && forall t {:trigger run[t]} :: 0 < t < |run| ==> Step(p, run[t - 1], run[t])
  }

  ghost predicate AllDone<E>(p: Protocol<E>, net: Net<E>) {
    Sized(p, net) && forall r {:trigger net.done[r]} :: 0 <= r < p.n ==> net.done[r] == p.rounds
  }

  /** Every machine received in every round what its source of that round posts in it. */
  ghost predicate Matched<E>(p: Protocol<E>, hist: seq<seq<seq<E>>>) {
    && |hist| == p.n
    && (forall r {:trigger hist[r]} :: 0 <= r < p.n ==> |hist[r]| == p.rounds)
    && forall r, j {:trigger p.source(r, j)} :: 0 <= r < p.n && 0 <= j < p.rounds ==>
         match p.source(r, j)
         case Nobody => hist[r][j] == []
         case Machine(s) => s < p.n && hist[r][j] == p.message(s, hist[s][..j])
  }

  // ---- what is in flight ----

  lemma {:induction false} NonEmptyAppend<E>(ms: seq<seq<E>>, m: seq<E>)
    ensures NonEmpty(ms + [m]) == NonEmpty(ms) + if m == [] then [] else [m]
  {
    if ms == [] {
      assert ms + [m] == [m];
    } else {
      NonEmptyAppend(ms[1..], m);
      assert (ms + [m])[1..] == ms[1..] + [m];
    }
  }

  /** When the oldest message with cells in it is exactly as long as the receive, the receive returns it,
      dropping any empty messages before it. */
  lemma {:induction false} ReceiveExact<E>(ch: seq<seq<E>>, len: nat)
    requires len > 0 && NonEmpty(ch) != [] && |NonEmpty(ch)[0]| == len
    ensures Receive(ch, len).Done?
    ensures Receive(ch, len).data == NonEmpty(ch)[0]
    ensures NonEmpty(Receive(ch, len).rest) == NonEmpty(ch)[1..]
  {
    if ch[0] == [] {
      ReceiveExact(ch[1..], len);
    } else {
      assert Receive(ch[1..], 0) == Done([], ch[1..]);
    }
  }

  /** With nothing but empty messages in flight a receive waits. */
  lemma {:induction false} ReceiveBlocks<E>(ch: seq<seq<E>>, len: nat)
    requires len > 0 && NonEmpty(ch) == []
    ensures Receive(ch, len) == Blocked
  {
    if ch == [] {
    } else {
      ReceiveBlocks(ch[1..], len);
    }
  }

  /** The receive loop: it returns the first message with cells in it when that is as long as it waits for, and blocks
      with only empty messages in flight. */
  method ReceiveLoop<E>(ch: seq<seq<E>>, len: nat) returns (r: Received<E>)
    ensures r == Receive(ch, len)
    ensures len > 0 && NonEmpty(ch) != [] && |NonEmpty(ch)[0]| == len ==>
              r.Done? && r.data == NonEmpty(ch)[0] && NonEmpty(r.rest) == NonEmpty(ch)[1..]
    ensures len > 0 && NonEmpty(ch) == [] ==> r.Blocked?
    ensures len == 0 ==> r == Done([], ch)
  {
    hide NonEmpty;
    if len > 0 && NonEmpty(ch) == [] {
      ReceiveBlocks(ch, len);
    } else if len > 0 && |NonEmpty(ch)[0]| == len {
      ReceiveExact(ch, len);
    }
    var readCnt, data, rest := 0, [], ch;
    while readCnt < len
      invariant readCnt <= len && readCnt == |data|
      invariant Receive(ch, len) == match Receive(rest, len - readCnt)
        case Blocked => Blocked
        case Truncated => Truncated
        case Done(d, r) => Done(data + d, r)
      decreases |rest|
    {
      if rest == [] {
        return Blocked;
      }
      if |rest[0]| > len - readCnt {
        return Truncated;
      }
      ghost var after := Receive(rest[1..], len - readCnt - |rest[0]|);
      if after.Done? {
        Append3(data, rest[0], after.data);
      }
      data := data + rest[0];
      readCnt := readCnt + |rest[0]|;
      rest := rest[1..];
    }
    r := Done(data, rest);
  }

  /** The messages with cells in them that s posts to d in rounds lo up to hi. */
  function InFlight<E>(p: Protocol<E>, h: seq<seq<E>>, s: nat, d: nat, lo: nat, hi: nat): seq<seq<E>>
    decreases hi - lo
  {
    if lo >= hi then [] else One(p, h, s, d, lo) + InFlight(p, h, s, d, lo + 1, hi)
  }

  function One<E>(p: Protocol<E>, h: seq<seq<E>>, s: nat, d: nat, j: nat): seq<seq<E>> {
    if j <= |h| && p.target(s, j) == Machine(d) && p.message(s, h[..j]) != [] then [p.message(s, h[..j])] else []
  }

  lemma {:induction false} InFlightPost<E>(p: Protocol<E>, h: seq<seq<E>>, s: nat, d: nat, lo: nat, hi: nat)
    requires lo <= hi
    ensures InFlight(p, h, s, d, lo, hi + 1) == InFlight(p, h, s, d, lo, hi) + One(p, h, s, d, hi)
    decreases hi - lo
  {
    if lo < hi {
      InFlightPost(p, h, s, d, lo + 1, hi);
    } else {
      assert InFlight(p, h, s, d, hi + 1, hi + 1) == [];
    }
  }

  /** What was posted does not depend on what is received later. */
  lemma {:induction false} InFlightGrow<E>(p: Protocol<E>, h: seq<seq<E>>, m: seq<E>, s: nat, d: nat, lo: nat, hi: nat)
    requires hi <= |h| + 1
    ensures InFlight(p, h + [m], s, d, lo, hi) == InFlight(p, h, s, d, lo, hi)
    decreases hi - lo
  {
    if lo < hi {
      InFlightGrow(p, h, m, s, d, lo + 1, hi);
      assert (h + [m])[..lo] == h[..lo];
    }
  }

  /** What r received in round j: its source's message if that is posted, and otherwise nothing. */
  ghost predicate Agreed<E>(p: Protocol<E>, net: Net<E>, r: nat, j: nat)
    requires r < |net.hist| == |net.posted| && j < |net.hist[r]|
  {
    match p.source(r, j)
    case Nobody => net.hist[r][j] == []
    case Machine(s) =>
      && s < |net.hist|
      && (if j < net.posted[s] then j <= |net.hist[s]| && net.hist[r][j] == p.message(s, net.hist[s][..j])
          else net.hist[r][j] == [])
  }

  ghost predicate ChannelHolds<E>(p: Protocol<E>, net: Net<E>, s: nat, d: nat)
    requires s < |net.hist| == |net.posted| && d < |net.hist|
  {
    NonEmpty(Channel(net, s, d)) == InFlight(p, net.hist[s], s, d, |net.hist[d]|, net.posted[s])
  }

  ghost predicate Inv<E(!new)>(p: Protocol<E>, net: Net<E>) {
    && Sized(p, net)
    && (forall r: nat {:trigger net.posted[r]} {:trigger net.done[r]} :: r < p.n ==>
          net.done[r] <= |net.hist[r]| <= net.posted[r] <= net.done[r] + 1 && net.posted[r] <= p.rounds)
    && (forall r: nat {:trigger Fits(p, r, net.hist[r])} :: r < p.n ==> Fits(p, r, net.hist[r]))
    && (forall r: nat, j: nat {:trigger Agreed(p, net, r, j)} :: r < p.n && j < |net.hist[r]| ==> Agreed(p, net, r, j))
    && (forall s: nat, d: nat {:trigger ChannelHolds(p, net, s, d)} ::
          s < p.n && d < p.n ==> ChannelHolds(p, net, s, d))
  }

  lemma InitInv<E(!new)>(p: Protocol<E>, net: Net<E>)
    requires Init(p, net)
    ensures Inv(p, net)
  {
  }

  lemma PostAgreed<E(!new)>(p: Protocol<E>, net: Net<E>, net': Net<E>, r: nat, q: nat, j: nat)
    requires WellFormed(p) && Inv(p, net) && Post(p, net, net', r)
    requires q < p.n && j < |net.hist[q]|
    ensures Agreed(p, net', q, j)
  {
    hide InFlight, ChannelHolds;
    assert Agreed(p, net, q, j);
    assert Fits(p, q, net.hist[q]) && Fits(p, r, net.hist[r]);
    assert RightLength(p, r, net.hist[r]);
    match p.source(q, j)
    case Nobody =>
    case Machine(s) =>
      if s == r && j == net.posted[r] {
        assert net.hist[r][..j] == net.hist[r];
        assert |net.hist[q][j]| == p.need(q, j) == 0;
      }
  }

  lemma PostChannel<E(!new)>(p: Protocol<E>, net: Net<E>, net': Net<E>, r: nat, s: nat, d: nat)
    requires WellFormed(p) && Inv(p, net) && Post(p, net, net', r)
    requires s < p.n && d < p.n
    ensures ChannelHolds(p, net', s, d)
  {
    hide InFlight, NonEmpty;
    assert ChannelHolds(p, net, s, d);
    var j := net.posted[r];
    var m := p.message(r, net.hist[r]);
    assert net.hist[r][..j] == net.hist[r];
    if s == r {
      NonEmptyAppend(Channel(net, r, d), m);
      if |net.hist[d]| <= j {
        InFlightPost(p, net.hist[r], r, d, |net.hist[d]|, j);
      } else {
        InFlightNone(p, net.hist[r], r, d, |net.hist[d]|, j);
        InFlightNone(p, net.hist[r], r, d, |net.hist[d]|, j + 1);
        if p.target(r, j) == Machine(d) {
          assert p.source(d, j) == Machine(r);
          assert Agreed(p, net, d, j) && Fits(p, d, net.hist[d]) && Fits(p, r, net.hist[r]);
          assert |net.hist[d][j]| == p.need(d, j);
          assert RightLength(p, r, net.hist[r]);
        }
      }
    }
  }

  lemma InFlightNone<E>(p: Protocol<E>, h: seq<seq<E>>, s: nat, d: nat, lo: nat, hi: nat)
    requires lo >= hi
    ensures InFlight(p, h, s, d, lo, hi) == []
  {
  }

  lemma PostInv<E(!new)>(p: Protocol<E>, net: Net<E>, net': Net<E>, r: nat)
    requires WellFormed(p) && Inv(p, net) && Post(p, net, net', r)
    ensures Inv(p, net')
  {
    hide InFlight, NonEmpty, Agreed, ChannelHolds;
    forall q: nat, j: nat | q < p.n && j < |net'.hist[q]|
      ensures Agreed(p, net', q, j)
    {
      PostAgreed(p, net, net', r, q, j);
    }
    forall s: nat, d: nat | s < p.n && d < p.n
      ensures ChannelHolds(p, net', s, d)
    {
      PostChannel(p, net, net', r, s, d);
    }
    forall q: nat | q < p.n
      ensures Fits(p, q, net'.hist[q])
    {
      assert Fits(p, q, net.hist[q]);
    }
  }

  /** A wait for cells ends only after the source has posted, and then with exactly its message. */
  lemma WaitGetsMessage<E(!new)>(p: Protocol<E>, net: Net<E>, s: nat, r: nat)
    requires WellFormed(p) && Inv(p, net)
    requires r < p.n && s < p.n && |net.hist[r]| < p.rounds
    requires p.source(r, |net.hist[r]|) == Machine(s)
    ensures var j, len := |net.hist[r]|, p.need(r, |net.hist[r]|);
      var got := Receive(Channel(net, s, r), len);
      && !got.Truncated?
      && (got.Done? <==> len == 0 || j < net.posted[s])
      && (got.Done? ==>
            && got.data == (if j < net.posted[s] then p.message(s, net.hist[s][..j]) else [])
            && |got.data| == len
            && NonEmpty(got.rest) == InFlight(p, net.hist[s], s, r, j + 1, net.posted[s]))
  {
    hide NonEmpty;
    var j, len, ch := |net.hist[r]|, p.need(r, |net.hist[r]|), Channel(net, s, r);
    assert ChannelHolds(p, net, s, r);
    if j < net.posted[s] {
      assert p.target(s, j) == Machine(r);
      MessageFits(p, net, s, j);
      if len > 0 {
        assert One(p, net.hist[s], s, r, j) == [p.message(s, net.hist[s][..j])];
        ReceiveExact(ch, len);
      }
    } else if len > 0 {
      ReceiveBlocks(ch, len);
    }
  }

  lemma MessageFits<E(!new)>(p: Protocol<E>, net: Net<E>, s: nat, j: nat)
    requires WellFormed(p) && Inv(p, net) && s < p.n && j < net.posted[s]
    ensures j <= |net.hist[s]| && j < p.rounds && RightLength(p, s, net.hist[s][..j])
    ensures |net.hist[s][..j]| == j
  {
    hide InFlight, NonEmpty, RightLength, ChannelHolds, Agreed;
    assert Fits(p, s, net.hist[s]);
    assert Fits(p, s, net.hist[s][..j]);
  }

  lemma FinishAgreed<E(!new)>(p: Protocol<E>, net: Net<E>, net': Net<E>, r: nat, q: nat, j: nat)
    requires WellFormed(p) && Inv(p, net) && Finish(p, net, net', r)
    requires q < p.n && j < |net'.hist[q]|
    ensures Agreed(p, net', q, j) && |net'.hist[q][j]| == p.need(q, j)
  {
    hide InFlight, NonEmpty, Receive, ChannelHolds;
    if q == r && j == |net.hist[r]| {
      assert p.source(r, j) == p.source(r, j);
      match p.source(r, j)
      case Nobody =>
      case Machine(s) => WaitGetsMessage(p, net, s, r);
    } else {
      assert Agreed(p, net, q, j);
      assert Fits(p, q, net.hist[q]);
    }
    match p.source(q, j)
    case Nobody =>
    case Machine(s) =>
      if s == r && j < net.posted[r] {
        assert net'.hist[r][..j] == net.hist[r][..j];
      }
  }

  lemma FinishChannel<E(!new)>(p: Protocol<E>, net: Net<E>, net': Net<E>, r: nat, s: nat, d: nat)
    requires WellFormed(p) && Inv(p, net) && Finish(p, net, net', r)
    requires s < p.n && d < p.n
    ensures ChannelHolds(p, net', s, d)
  {
    hide NonEmpty, Receive, Agreed;
    var j := |net.hist[r]|;
    assert ChannelHolds(p, net, s, d);
    if d == r {
      if p.source(r, j) == Machine(s) {
        WaitGetsMessage(p, net, s, r);
      } else {
        assert p.target(s, j) != Machine(r);
        assert One(p, net.hist[s], s, r, j) == [];
      }
    }
    if s == r {
      InFlightGrow(p, net.hist[r], Incoming(p, net, r).data, r, d, |net'.hist[d]|, net.posted[r]);
    }
  }

  lemma FinishInv<E(!new)>(p: Protocol<E>, net: Net<E>, net': Net<E>, r: nat)
    requires WellFormed(p) && Inv(p, net) && Finish(p, net, net', r)
    ensures Inv(p, net')
  {
    hide InFlight, NonEmpty, Receive, Agreed, ChannelHolds;
    forall q: nat, j: nat | q < p.n && j < |net'.hist[q]|
      ensures Agreed(p, net', q, j) && |net'.hist[q][j]| == p.need(q, j)
    {
      FinishAgreed(p, net, net', r, q, j);
    }
    forall s: nat, d: nat | s < p.n && d < p.n
      ensures ChannelHolds(p, net', s, d)
    {
      FinishChannel(p, net, net', r, s, d);
    }
    forall q: nat | q < p.n
      ensures Fits(p, q, net'.hist[q])
    {
      assert Fits(p, q, net.hist[q]);
    }
  }

  lemma ReleaseInv<E(!new)>(p: Protocol<E>, net: Net<E>, net': Net<E>, r: nat)
    requires Inv(p, net) && Release(p, net, net', r)
    ensures Inv(p, net')
  {
    hide InFlight, NonEmpty;
    forall q: nat, j: nat | q < p.n && j < |net'.hist[q]|
      ensures Agreed(p, net', q, j)
    {
      assert Agreed(p, net, q, j);
    }
    forall s: nat, d: nat | s < p.n && d < p.n
      ensures ChannelHolds(p, net', s, d)
    {
      assert ChannelHolds(p, net, s, d);
    }
    forall q: nat | q < p.n
      ensures Fits(p, q, net'.hist[q])
    {
      assert Fits(p, q, net.hist[q]);
    }
  }

  lemma RunPrefix<E(!new)>(p: Protocol<E>, run: seq<Net<E>>)
    requires IsRun(p, run) && |run| > 1
    ensures IsRun(p, run[..|run| - 1]) && Step(p, run[|run| - 2], run[|run| - 1])
  {
    hide Step;
    var before := run[..|run| - 1];
    forall t | 0 < t < |before|
      ensures Step(p, before[t - 1], before[t])
    {
      assert Step(p, run[t - 1], run[t]);
    }
    assert run[|run| - 1] == run[|run| - 1];
  }

  /** Every state of every run satisfies the invariant. */
  lemma {:induction false} RunInv<E(!new)>(p: Protocol<E>, run: seq<Net<E>>)
    requires WellFormed(p) && IsRun(p, run)
    ensures Inv(p, run[|run| - 1])
    decreases |run|
  {
    hide Inv, Post, Finish, Release, WellFormed;
    if |run| == 1 {
      InitInv(p, run[0]);
    } else {
      var before := run[..|run| - 1];
      RunPrefix(p, run);
      RunInv(p, before);
      var net, net' := run[|run| - 2], run[|run| - 1];
      assert Step(p, net, net');
      var r: nat :| Post(p, net, net', r) || Finish(p, net, net', r) || Release(p, net, net', r);
      if Post(p, net, net', r) {
        PostInv(p, net, net', r);
      } else if Finish(p, net, net', r) {
        FinishInv(p, net, net', r);
      } else {
        ReleaseInv(p, net, net', r);
      }
    }
  }

  /** No receive is ever cut short, whatever the interleaving. */
  lemma NeverTruncated<E(!new)>(p: Protocol<E>, run: seq<Net<E>>, r: nat)
    requires WellFormed(p) && IsRun(p, run)
    requires r < p.n == |run[|run| - 1].hist| && |run[|run| - 1].hist[r]| < p.rounds
    ensures !Incoming(p, run[|run| - 1], r).Truncated?
  {
    hide Receive;
    var net := run[|run| - 1];
    RunInv(p, run);
    assert p.source(r, |net.hist[r]|) == p.source(r, |net.hist[r]|);
    match p.source(r, |net.hist[r]|)
    case Nobody =>
    case Machine(s) => WaitGetsMessage(p, net, s, r);
  }

  /** When all are done every machine received in every round, and only empty messages are left. */
  lemma DoneState<E(!new)>(p: Protocol<E>, net: Net<E>)
    requires Inv(p, net) && AllDone(p, net)
    ensures forall r {:trigger net.hist[r]} :: 0 <= r < p.n ==> |net.hist[r]| == p.rounds
    ensures forall s: nat, d: nat {:trigger Channel(net, s, d)} ::
              s < p.n && d < p.n ==> NonEmpty(Channel(net, s, d)) == []
  {
    hide NonEmpty, Channel, InFlight, Agreed, Fits;
    forall r | 0 <= r < p.n
      ensures |net.hist[r]| == net.posted[r] == p.rounds
    {
      assert net.done[r] == p.rounds;
    }
    forall s: nat, d: nat | s < p.n && d < p.n
      ensures NonEmpty(Channel(net, s, d)) == []
    {
      assert ChannelHolds(p, net, s, d);
      InFlightNone(p, net.hist[s], s, d, |net.hist[d]|, net.posted[s]);
    }
  }

  /** Whatever the interleaving, once all machines are done their histories are matched. */
  lemma DoneIsMatched<E(!new)>(p: Protocol<E>, run: seq<Net<E>>)
    requires WellFormed(p) && IsRun(p, run) && AllDone(p, run[|run| - 1])
    ensures Matched(p, run[|run| - 1].hist)
  {
    var net := run[|run| - 1];
    hide IsRun, WellFormed, InFlight, NonEmpty, ChannelHolds, AllDone, Fits;
    RunInv(p, run);
    DoneState(p, net);
    forall r, j | 0 <= r < p.n && 0 <= j < p.rounds
      ensures match p.source(r, j)
        case Nobody => net.hist[r][j] == []
        case Machine(s) => s < p.n && net.hist[r][j] == p.message(s, net.hist[s][..j])
    {
      DoneAgreed(p, net, r, j);
    }
  }

  lemma DoneAgreed<E(!new)>(p: Protocol<E>, net: Net<E>, r: nat, j: nat)
    requires Inv(p, net) && r < p.n && j < p.rounds
    requires forall q {:trigger net.hist[q]} :: 0 <= q < p.n ==> |net.hist[q]| == p.rounds
    ensures match p.source(r, j)
      case Nobody => net.hist[r][j] == []
      case Machine(s) => s < p.n && net.hist[r][j] == p.message(s, net.hist[s][..j])
  {
    hide InFlight, NonEmpty, ChannelHolds, Fits;
    assert Agreed(p, net, r, j);
  }

  /** The channels a finished run leaves are those another protocol on the same machines may start from. */
  lemma NextMayStart<E(!new)>(p: Protocol<E>, run: seq<Net<E>>, q: Protocol<E>)
    requires WellFormed(p) && IsRun(p, run) && AllDone(p, run[|run| - 1]) && q.n == p.n
    ensures var chan := run[|run| - 1].chan;
      Init(q, Net(seq(q.n, _ => []), seq(q.n, _ => 0), seq(q.n, _ => 0), chan))
  {
    var net := run[|run| - 1];
    hide IsRun, WellFormed, NonEmpty, AllDone;
    RunInv(p, run);
    DoneState(p, net);
    var next: Net<E> := Net(seq(q.n, _ => []), seq(q.n, _ => 0), seq(q.n, _ => 0), net.chan);
    forall s: nat, d: nat | s < q.n && d < q.n
      ensures NonEmpty(Channel(next, s, d)) == []
    {
      assert Channel(next, s, d) == Channel(net, s, d);
    }
  }
}
