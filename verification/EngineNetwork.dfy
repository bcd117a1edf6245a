/** The engine of module Engine in a run of module Network: what its receive calls return and what it posts is what
    the protocol says, so the all-reduce it computes is the reduction of all machines' inputs. */
module EngineNetwork {
  import opened AllreduceNetwork
  import opened Blocks
  import opened Engine
  import opened Linkers
  import opened Peers
  import opened Reduction
  import opened Sequences
  import N = Network
  import B = BruckMap
  import H = HalvingMap
  import AG = Allgather
  import RS = ReduceScatter
  import AR = Allreduce
  import Collective
  import BlockSplit

  /** The packet machine r posts in round j, if any. */
  ghost function SentIn<E>(p: N.Protocol<E>, r: nat, h: seq<seq<E>>, j: nat): seq<Packet<E>>
    requires j <= |h|
  {
    match p.target(r, j)
    case Nobody => []
    case Machine(w) => if N.Skipped(p, r, h[..j]) then [] else [Packet(w, p.message(r, h[..j]))]
  }

  /** The packets machine r posts in the first m rounds. */
  ghost function Sent<E>(p: N.Protocol<E>, r: nat, h: seq<seq<E>>, m: nat): seq<Packet<E>>
    requires m <= |h|
  {
    if m == 0 then [] else Sent(p, r, h, m - 1) + SentIn(p, r, h, m - 1)
  }

  ghost function ReceivedIn<E>(p: N.Protocol<E>, r: nat, h: seq<seq<E>>, j: nat): seq<Packet<E>>
    requires j < |h|
  {
    match p.source(r, j)
    case Nobody => []
    case Machine(s) => [Packet(s, h[j])]
  }

  /** What the receive calls of machine r return from round j on. */
  ghost function Received<E>(p: N.Protocol<E>, r: nat, h: seq<seq<E>>, j: nat): seq<Packet<E>>
    requires j <= |h|
    decreases |h| - j
  {
    if j == |h| then [] else ReceivedIn(p, r, h, j) + Received(p, r, h, j + 1)
  }

  /** Posting in the network is sending the packets of the round. */
  lemma PostsSentPackets<E>(p: N.Protocol<E>, net: N.Net<E>, net': N.Net<E>, r: nat, d: nat)
    requires N.Post(p, net, net', r) && net.posted[r] == |net.hist[r]|
    ensures N.Channel(net', r, d) ==
            N.Channel(net, r, d) + DataFor(SentIn(p, r, net.hist[r], net.posted[r]), d)
  {
    assert net.hist[r][..net.posted[r]] == net.hist[r];
  }

  ghost function DataFor<E>(packets: seq<Packet<E>>, d: nat): seq<seq<E>> {
    if packets == [] then [] else (if packets[0].peer == d then [packets[0].data] else []) + DataFor(packets[1..], d)
  }

  // ---- the all-gather's rounds ----

  /** Round lo + i of the protocol is round i of an all-gather, machine r's own block being `own`. */
  ghost predicate GathersAt<E>(p: N.Protocol<E>, r: nat, h: seq<seq<E>>, lo: nat, lens: seq<nat>, own: seq<E>, i: nat)
    requires |lens| > 0 && lo + i <= |h|
  {
    && p.source(r, lo + i) == Machine(B.InRank(|lens|, r, i))
    && p.target(r, lo + i) == Machine(B.OutRank(|lens|, r, i))
    && p.need(r, lo + i) == AG.RecvCount(lens, r, i)
    && p.message(r, h[..lo + i]) == AG.Message(lens, r, own, h[lo..][..i], i)
  }

  ghost predicate GathersFrom<E>(p: N.Protocol<E>, r: nat, h: seq<seq<E>>, lo: nat, k: nat, lens: seq<nat>,
                                 own: seq<E>)
    requires |lens| > 0
  {
    && |h| == lo + k
    && forall i: nat {:trigger GathersAt(p, r, h, lo, lens, own, i)} :: i < k ==> GathersAt(p, r, h, lo, lens, own, i)
  }

  lemma {:induction false} GatherSends<E>(p: N.Protocol<E>, r: nat, h: seq<seq<E>>, lo: nat, k: nat, lens: seq<nat>,
                                          own: seq<E>, i: nat)
    requires |lens| > 0 && GathersFrom(p, r, h, lo, k, lens, own) && i <= k
    ensures Sent(p, r, h, lo + i) == Sent(p, r, h, lo) + GatherSent(lens, r, own, h[lo..], i)
    decreases i
  {
    hide AG.Message, B.InRank, B.OutRank, AG.RecvCount;
    if i == 0 {
      assert GatherSent(lens, r, own, h[lo..], 0) == [];
    } else {
      GatherSends(p, r, h, lo, k, lens, own, i - 1);
      var last := SentIn(p, r, h, lo + (i - 1));
      assert GathersAt(p, r, h, lo, lens, own, i - 1);
      assert GatherSent(lens, r, own, h[lo..], i) == GatherSent(lens, r, own, h[lo..], i - 1) + last;
      Append3(Sent(p, r, h, lo), GatherSent(lens, r, own, h[lo..], i - 1), last);
    }
  }

  lemma {:induction false} GatherReceives<E>(p: N.Protocol<E>, r: nat, h: seq<seq<E>>, lo: nat, k: nat, lens: seq<nat>,
                                             own: seq<E>, i: nat, m: nat)
    requires |lens| > 0 && GathersFrom(p, r, h, lo, k, lens, own) && i <= k
    ensures |Received(p, r, h, lo + i)| == k - i
    ensures i <= m < k ==> Received(p, r, h, lo + i)[m - i] == Packet(B.InRank(|lens|, r, m), h[lo + m])
    decreases k - i
  {
    hide AG.Message, B.InRank, B.OutRank, AG.RecvCount;
    if i == k {
    } else {
      GatherReceives(p, r, h, lo, k, lens, own, i + 1, m);
      assert GathersAt(p, r, h, lo, lens, own, i);
      assert Received(p, r, h, lo + i) ==
             [Packet(B.InRank(|lens|, r, i), h[lo + i])] + Received(p, r, h, lo + (i + 1));
    }
  }

  lemma GatherInboxHolds<E(!new)>(p: N.Protocol<E>, r: nat, h: seq<seq<E>>, lo: nat, k: nat, lens: seq<nat>,
                                  own: seq<E>, after: seq<Packet<E>>)
    requires |lens| > 0 && GathersFrom(p, r, h, lo, k, lens, own) && N.Fits(p, r, h)
    ensures GatherInbox(Received(p, r, h, lo) + after, k, lens, r, h[lo..])
    ensures |Received(p, r, h, lo)| == k
  {
    hide AG.Message, B.InRank, B.OutRank, AG.RecvCount, Received;
    GatherReceives(p, r, h, lo, k, lens, own, 0, 0);
    var inbox := Received(p, r, h, lo) + after;
    forall i | 0 <= i < k
      ensures inbox[i] == Packet(B.InRank(|lens|, r, i), h[lo..][i]) && |h[lo..][i]| == AG.RecvCount(lens, r, i)
    {
      GatherReceives(p, r, h, lo, k, lens, own, 0, i);
      assert GathersAt(p, r, h, lo, lens, own, i);
      assert |h[lo + i]| == p.need(r, lo + i);
    }
  }

  lemma SmallGathers<E(!new)>(k: nat, blocks: seq<seq<E>>, r: nat, h: seq<seq<E>>)
    requires r < |blocks| && |h| == k
    ensures GathersFrom(Collective.GatherProtocol(k, blocks), r, h, 0, k, Lens(blocks), blocks[r])
  {
    hide AG.Message, B.InRank, B.OutRank, AG.RecvCount;
    assert h[0..] == h;
    forall i: nat | i < k
      ensures GathersAt(Collective.GatherProtocol(k, blocks), r, h, 0, Lens(blocks), blocks[r], i)
    {
    }
  }

  lemma LargeGathers<E(!new)>(op: (E, E) -> E, plan: RS.Plan, k: nat, xs: seq<seq<E>>, r: nat, h: seq<seq<E>>)
    requires RS.Inputs(plan, xs) && r < plan.n && |h| == plan.k + 2 + k
    ensures GathersFrom(Collective.LargeProtocol(op, plan, k, xs), r, h, plan.k + 2, k, plan.lens,
                        RS.Result(op, plan, r, xs[r], h[..plan.k + 2]))
  {
    hide AG.Message, B.InRank, B.OutRank, AG.RecvCount, RS.Result, RS.Message, RS.Source, RS.Target, RS.Awaited;
    var p, lo := Collective.LargeProtocol(op, plan, k, xs), plan.k + 2;
    forall i: nat | i < k
      ensures GathersAt(p, r, h, lo, plan.lens, RS.Result(op, plan, r, xs[r], h[..lo]), i)
    {
      assert h[..lo + i][..lo] == h[..lo];
      assert h[..lo + i][lo..] == h[lo..][..i];
    }
  }

  // ---- the reduce-scatter's rounds ----

  /** A machine that sends and receives in a round is in a halving exchange, and in no other. */
  lemma ExchangeRounds(plan: RS.Plan, v: nat, j: nat)
    requires plan.Valid() && v < plan.n && RS.Target(plan, v, j).Machine?
    ensures RS.Source(plan, v, j).Machine? <==> 1 <= j <= plan.k
  {
    hide RS.Opposite;
  }

  lemma ScatterSendsIn<E(!new)>(op: (E, E) -> E, plan: RS.Plan, k: nat, xs: seq<seq<E>>, r: nat, h: seq<seq<E>>,
                                j: nat)
    requires RS.Inputs(plan, xs) && r < plan.n && |h| == plan.k + 2 + k && j < plan.k + 2
    ensures SentIn(Collective.LargeProtocol(op, plan, k, xs), r, h, j) ==
            ScatterSentAt(op, plan, r, xs[r], h[..plan.k + 2], j)
  {
    hide RS.Message, RS.Source, RS.Target, RS.Awaited;
    assert h[..plan.k + 2][..j] == h[..j];
    if RS.Target(plan, r, j).Machine? {
      ExchangeRounds(plan, r, j);
    }
  }

  lemma {:induction false} ScatterSends<E(!new)>(op: (E, E) -> E, plan: RS.Plan, k: nat, xs: seq<seq<E>>, r: nat,
                                                 h: seq<seq<E>>, j: nat)
    requires RS.Inputs(plan, xs) && r < plan.n && |h| == plan.k + 2 + k && j <= plan.k + 2
    ensures Sent(Collective.LargeProtocol(op, plan, k, xs), r, h, j) ==
            ScatterSent(op, plan, r, xs[r], h[..plan.k + 2], j)
    decreases j
  {
    hide SentIn, ScatterSentAt, Collective.LargeProtocol;
    if j == 0 {
    } else {
      ScatterSends(op, plan, k, xs, r, h, j - 1);
      ScatterSendsIn(op, plan, k, xs, r, h, j - 1);
    }
  }

  lemma ScatterReceivesIn<E(!new)>(op: (E, E) -> E, plan: RS.Plan, k: nat, xs: seq<seq<E>>, r: nat, h: seq<seq<E>>,
                                   j: nat)
    requires RS.Inputs(plan, xs) && r < plan.n && |h| == plan.k + 2 + k && j < plan.k + 2
    ensures ReceivedIn(Collective.LargeProtocol(op, plan, k, xs), r, h, j) ==
            ScatterInboxAt(plan, r, h[..plan.k + 2], j)
  {
    hide RS.Message, RS.Source, RS.Target, RS.Awaited;
  }

  lemma {:induction false} ScatterReceives<E(!new)>(op: (E, E) -> E, plan: RS.Plan, k: nat, xs: seq<seq<E>>, r: nat,
                                                    h: seq<seq<E>>, j: nat)
    requires RS.Inputs(plan, xs) && r < plan.n && |h| == plan.k + 2 + k && j <= plan.k + 2
    ensures var p, first := Collective.LargeProtocol(op, plan, k, xs), plan.k + 2;
      Received(p, r, h, j) == ScatterInbox(plan, r, h[..first], j) + Received(p, r, h, first)
    decreases plan.k + 2 - j
  {
    hide ReceivedIn, ScatterInboxAt, Collective.LargeProtocol;
    var p, first := Collective.LargeProtocol(op, plan, k, xs), plan.k + 2;
    if j == first {
    } else {
      ScatterReceives(op, plan, k, xs, r, h, j + 1);
      ScatterReceivesIn(op, plan, k, xs, r, h, j);
      Append3(ReceivedIn(p, r, h, j), ScatterInbox(plan, r, h[..first], j + 1), Received(p, r, h, first));
    }
  }

  lemma ScatterLengthsHold<E(!new)>(op: (E, E) -> E, plan: RS.Plan, k: nat, xs: seq<seq<E>>, r: nat, h: seq<seq<E>>)
    requires RS.Inputs(plan, xs) && r < plan.n && |h| == plan.k + 2 + k
    requires N.Fits(Collective.LargeProtocol(op, plan, k, xs), r, h)
    ensures ScatterLengths(plan, r, h[..plan.k + 2])
  {
    hide RS.Message, RS.Source, RS.Target, RS.Awaited;
    var p, got := Collective.LargeProtocol(op, plan, k, xs), h[..plan.k + 2];
    forall j | 0 <= j < plan.k + 2
      ensures |got[j]| == RS.Awaited(plan, r, j)
    {
      assert |h[j]| == p.need(r, j);
    }
  }

  // ---- the engine in a run ----

  lemma SmallEngine<E(!new)>(k: nat, xs: seq<seq<E>>, r: nat, h: seq<seq<E>>, after: seq<Packet<E>>)
    requires r < |xs| && |h| == k && N.Fits(Collective.GatherProtocol(k, xs), r, h)
    ensures var p := Collective.GatherProtocol(k, xs);
      && GatherInbox(Received(p, r, h, 0) + after, k, Lens(xs), r, h)
      && (Received(p, r, h, 0) + after)[k..] == after
      && Sent(p, r, h, k) == GatherSent(Lens(xs), r, xs[r], h, k)
  {
    hide Collective.GatherProtocol, Sent, Received, N.Fits, GatherSent, GatherInbox;
    var p := Collective.GatherProtocol(k, xs);
    assert h[0..] == h;
    SmallGathers(k, xs, r, h);
    GatherInboxHolds(p, r, h, 0, k, Lens(xs), xs[r], after);
    GatherSends(p, r, h, 0, k, Lens(xs), xs[r], k);
    SentNothing(p, r, h);
  }

  lemma SentNothing<E>(p: N.Protocol<E>, r: nat, h: seq<seq<E>>)
    ensures Sent(p, r, h, 0) == []
  {
  }

  lemma LargeEngine<E(!new)>(op: (E, E) -> E, plan: RS.Plan, k: nat, xs: seq<seq<E>>, r: nat, h: seq<seq<E>>,
                             first: nat, after: seq<Packet<E>>)
    requires RS.Inputs(plan, xs) && r < plan.n && first == plan.k + 2 && |h| == first + k
    requires N.Fits(Collective.LargeProtocol(op, plan, k, xs), r, h)
    ensures ScatterLengths(plan, r, h[..first])
    ensures var p := Collective.LargeProtocol(op, plan, k, xs);
      && Received(p, r, h, 0) == ScatterInbox(plan, r, h[..first], 0) + Received(p, r, h, first)
      && GatherInbox(Received(p, r, h, first) + after, k, plan.lens, r, h[first..])
      && (Received(p, r, h, first) + after)[k..] == after
      && Sent(p, r, h, |h|) ==
         ScatterSent(op, plan, r, xs[r], h[..first], first) +
         GatherSent(plan.lens, r, RS.Result(op, plan, r, xs[r], h[..first]), h[first..], k)
  {
    hide Collective.LargeProtocol, Sent, Received, N.Fits, GatherSent, GatherInbox, ScatterInbox, ScatterSent;
    hide ScatterLengths, RS.Result;
    var p, own := Collective.LargeProtocol(op, plan, k, xs), RS.Result(op, plan, r, xs[r], h[..first]);
    ScatterLengthsHold(op, plan, k, xs, r, h);
    ScatterReceives(op, plan, k, xs, r, h, 0);
    LargeGathers(op, plan, k, xs, r, h);
    GatherInboxHolds(p, r, h, first, k, plan.lens, own, after);
    ScatterSends(op, plan, k, xs, r, h, first);
    GatherSends(p, r, h, first, k, plan.lens, own, k);
  }

  lemma HistoryFits<E(!new)>(p: N.Protocol<E>, run: seq<N.Net<E>>, r: nat)
    requires N.WellFormed(p) && N.IsRun(p, run) && N.AllDone(p, run[|run| - 1]) && r < p.n
    ensures var h := run[|run| - 1].hist; |h| == p.n && |h[r]| == p.rounds && N.Fits(p, r, h[r])
  {
    hide N.WellFormed;
    N.RunInv(p, run);
    N.DoneState(p, run[|run| - 1]);
  }

  method SmallInRun<E(0, !new)>(engine: Engine<E>, op: (E, E) -> E, typeSize: nat, input: array<E>, output: array<E>,
                                ghost xs: seq<seq<E>>, ghost h: seq<seq<E>>, ghost after: seq<Packet<E>>)
    requires engine.Valid() && |xs| == engine.numMachines && typeSize > 0
    requires input != output && engine.buffer != input && engine.buffer != output
    requires input[..] == xs[engine.rank] && input.Length <= output.Length
    requires Lens(xs) == AR.Uniform(|xs|, input.Length) && AR.GathersWhole(|xs|, input.Length, typeSize)
    requires |h| == engine.bruckMap.k && N.Fits(Collective.GatherProtocol(|h|, xs), engine.rank, h)
    requires engine.linkers.inbox == Received(Collective.GatherProtocol(|h|, xs), engine.rank, h, 0) + after
    modifies engine`blockStart, engine`blockLen, engine`buffer, engine.linkers, input, output, engine.buffer
    ensures output[..input.Length] == AR.SmallResult(op, |xs|, input.Length, engine.rank, xs[engine.rank], h)
    ensures engine.linkers.sent ==
            old(engine.linkers.sent) + Sent(Collective.GatherProtocol(|h|, xs), engine.rank, h, |h|)
    ensures engine.linkers.inbox == after
  {
    hide N.Fits, Sent, Received, GatherInbox, ScatterInbox, ScatterSent, GatherSent, ScatterLengths, AR.SmallResult;
    hide AR.LargeResult, RS.Result, BlockSplit.Lens, AR.GathersWhole, B.IsMap, H.IsMap, AR.Uniform, Lens;
    hide Collective.GatherProtocol, Collective.LargeProtocol;
    SmallEngine(|h|, xs, engine.rank, h, after);
    engine.Allreduce(op, input, input.Length * typeSize, typeSize, output, h, [], [], []);
  }

  method LargeInRun<E(0, !new)>(engine: Engine<E>, op: (E, E) -> E, typeSize: nat, input: array<E>, output: array<E>,
                                ghost plan: RS.Plan, ghost xs: seq<seq<E>>, ghost h: seq<seq<E>>, ghost first: nat,
                                ghost after: seq<Packet<E>>)
    requires engine.Valid() && RS.Inputs(plan, xs) && |xs| == engine.numMachines && typeSize > 0
    requires input != output && engine.buffer != input && engine.buffer != output
    requires input[..] == xs[engine.rank] && input.Length <= output.Length
    requires plan == engine.Plan(BlockSplit.Lens(|xs|, input.Length)) && first == plan.k + 2
    requires !AR.GathersWhole(|xs|, input.Length, typeSize)
    requires |h| == first + engine.bruckMap.k
    requires N.Fits(Collective.LargeProtocol(op, plan, engine.bruckMap.k, xs), engine.rank, h)
    requires engine.linkers.inbox ==
             Received(Collective.LargeProtocol(op, plan, engine.bruckMap.k, xs), engine.rank, h, 0) + after
    modifies engine`blockStart, engine`blockLen, engine`buffer, engine.linkers, input, output, engine.buffer
    ensures output[..input.Length] ==
            AR.LargeResult(op, plan, engine.rank, xs[engine.rank], h[..first], h[first..])
    ensures engine.linkers.sent ==
            old(engine.linkers.sent) +
            Sent(Collective.LargeProtocol(op, plan, engine.bruckMap.k, xs), engine.rank, h, |h|)
    ensures engine.linkers.inbox == after
  {
    hide N.Fits, Sent, Received, GatherInbox, ScatterInbox, ScatterSent, GatherSent, ScatterLengths, AR.SmallResult;
    hide AR.LargeResult, RS.Result, BlockSplit.Lens, AR.GathersWhole, B.IsMap, H.IsMap, AR.Uniform, Lens;
    hide Collective.GatherProtocol, Collective.LargeProtocol;
    ghost var k, r, own := engine.bruckMap.k, engine.rank, xs[engine.rank];
    LargeEngine(op, plan, k, xs, r, h, first, after);
    ghost var rest, sent := Received(Collective.LargeProtocol(op, plan, k, xs), r, h, first), engine.linkers.sent;
    Append3(ScatterInbox(plan, r, h[..first], 0), rest, after);
    engine.Allreduce(op, input, input.Length * typeSize, typeSize, output, [], h[..first], h[first..], rest + after);
    Append3(sent, ScatterSent(op, plan, r, own, h[..first], first),
            GatherSent(plan.lens, r, RS.Result(op, plan, r, own, h[..first]), h[first..], k));
  }

  /** What the two methods above need of a finished run of an all-reduce, and what follows from their results. */
  lemma JobInRun<E(!new)>(ms: Machines, job: Job<E>, run: seq<N.Net<E>>, r: nat)
    requires Fitting(ms, job) && r < ms.n
    requires N.IsRun(JobProtocol(ms, job), run) && N.AllDone(JobProtocol(ms, job), run[|run| - 1])
    ensures |run[|run| - 1].hist| == ms.n == |job.xs| && |job.xs[r]| == job.Count()
    ensures var h := run[|run| - 1].hist[r];
      && N.Fits(JobProtocol(ms, job), r, h)
      && if job.Small() then
           && JobProtocol(ms, job) == Collective.GatherProtocol(ms.bruck, job.xs) && |h| == ms.bruck
           && Lens(job.xs) == AR.Uniform(ms.n, job.Count()) && AR.GathersWhole(ms.n, job.Count(), job.typeSize)
           && AR.IsReduction(job.op, job.xs, job.Count(),
                             AR.SmallResult(job.op, ms.n, job.Count(), r, job.xs[r], h))
         else
           var plan, first := PlanOf(ms, job), ms.halving + 2;
           && JobProtocol(ms, job) == Collective.LargeProtocol(job.op, plan, ms.bruck, job.xs)
           && |h| == first + ms.bruck && !AR.GathersWhole(ms.n, job.Count(), job.typeSize)
           && plan == RS.Plan(ms.n, ms.halving, BlockSplit.Lens(ms.n, job.Count()))
           && AR.IsReduction(job.op, job.xs, job.Count(),
                             AR.LargeResult(job.op, plan, r, job.xs[r], h[..first], h[first..]))
  {
    hide N.WellFormed, N.IsRun, N.AllDone, N.Fits, AR.IsReduction, AR.SmallResult, AR.LargeResult;
    hide Associative, Commutative;
    JobWellFormed(ms, job);
    HistoryFits(JobProtocol(ms, job), run, r);
    AllreduceInRun(ms, job, run, r);
  }

  /** One machine's engine in any finished run of all machines: whatever the interleaving, its output is the reduction
      of all inputs, it posts the packets the protocol says, and it receives no packet of a later call. */
  method EngineInRun<E(0, !new)>(engine: Engine<E>, input: array<E>, output: array<E>, ghost ms: Machines, job: Job<E>,
                                 ghost run: seq<N.Net<E>>, ghost after: seq<Packet<E>>)
    requires engine.Valid() && Fitting(ms, job) && job.typeSize > 0
    requires ms == Machines(engine.numMachines, engine.bruckMap.k, engine.halvingMap.k)
    requires input != output && engine.buffer != input && engine.buffer != output
    requires input[..] == job.xs[engine.rank] && input.Length <= output.Length
    requires N.IsRun(JobProtocol(ms, job), run) && N.AllDone(JobProtocol(ms, job), run[|run| - 1])
    requires engine.linkers.inbox ==
             Received(JobProtocol(ms, job), engine.rank, run[|run| - 1].hist[engine.rank], 0) + after
    modifies engine`blockStart, engine`blockLen, engine`buffer, engine.linkers, input, output, engine.buffer
    ensures job.Count() <= output.Length && AR.IsReduction(job.op, job.xs, job.Count(), output[..job.Count()])
    ensures var h := run[|run| - 1].hist[engine.rank];
            engine.linkers.sent == old(engine.linkers.sent) + Sent(JobProtocol(ms, job), engine.rank, h, |h|)
    ensures engine.linkers.inbox == after
  {
    hide N.AllDone, N.Fits, AR.IsReduction, Sent, Received, Fitting, JobProtocol, Lens, BlockSplit.Lens, AR.Uniform;
    hide B.IsMap, H.IsMap, AR.SmallResult, AR.LargeResult, Collective.GatherProtocol, Collective.LargeProtocol;
    JobInRun(ms, job, run, engine.rank);
    ghost var h := run[|run| - 1].hist[engine.rank];
    if job.Small() {
      SmallInRun(engine, job.op, job.typeSize, input, output, job.xs, h, after);
    } else {
      LargeInRun(engine, job.op, job.typeSize, input, output, PlanOf(ms, job), job.xs, h, ms.halving + 2, after);
    }
  }
}
