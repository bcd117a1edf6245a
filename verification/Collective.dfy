/** The collectives as network protocols: every interleaving of the machines gives the right result. */
module Collective {
  import opened Arith
  import opened Blocks
  import opened Peers
  import opened Reduction
  import C = Completion
  import N = Network
  import B = BruckMap
  import T = HalvingTopo
  import AG = Allgather
  import RS = ReduceScatter
  import AR = Allreduce

  // ---- all-gather ----

  /** The all-gather of the given blocks, one a machine. */
  ghost function GatherProtocol<E(!new)>(k: nat, blocks: seq<seq<E>>): (p: N.Protocol<E>)
    requires |blocks| > 0
    ensures p.n == |blocks| && p.rounds == k
  {
    var n, lens := |blocks|, Lens(blocks);
    N.Protocol(n, k,
               (r: nat, j: nat) => if r < n && j < k then Machine(B.InRank(n, r, j)) else Nobody,
               (r: nat, j: nat) => if r < n && j < k then Machine(B.OutRank(n, r, j)) else Nobody,
               (r: nat, j: nat) => if r < n && j < k then AG.RecvCount(lens, r, j) else 0,
               (r: nat, h: seq<seq<E>>) => if r < n && |h| < k then AG.Message(lens, r, blocks[r], h, |h|) else [])
  }

  /** If a machine received the counts it waited for, what it holds is as long as the ring so far. */
  lemma {:induction false} CellsAreRing<E>(k: nat, lens: seq<nat>, r: nat, own: seq<E>, h: seq<seq<E>>)
    requires r < |lens| && B.IsRounds(k, |lens|) && |h| <= k && |own| == lens[r]
    requires forall j {:trigger h[j]} :: 0 <= j < |h| ==> |h[j]| == AG.RecvCount(lens, r, j)
    ensures |AG.Cells(own, h)| == RingSum(lens, r, B.Held(|lens|, |h|))
    decreases |h|
  {
    hide RingSum, AG.Cells, Flatten;
    if h == [] {
      RingSumOne(lens, r);
      AG.CellsNone(own);
    } else {
      var i := |h| - 1;
      var held, moved := B.Held(|lens|, i), B.Moved(|lens|, i);
      CellsAreRing(k, lens, r, own, h[..i]);
      AG.HeldStep(k, |lens|, i);
      RingSumSplit(lens, r, held, moved);
      AG.CellsStep(own, h, i);
      assert h[..i + 1] == h;
      assert |h[i]| == AG.RecvCount(lens, r, i);
    }
  }

  /** A machine always has what it is due to send, and that is as much as its target waits for. */
  lemma GatherMessageLength<E>(k: nat, lens: seq<nat>, r: nat, own: seq<E>, h: seq<seq<E>>)
    requires r < |lens| && B.IsRounds(k, |lens|) && |h| < k && |own| == lens[r]
    requires forall j {:trigger h[j]} :: 0 <= j < |h| ==> |h[j]| == AG.RecvCount(lens, r, j)
    ensures var w := B.OutRank(|lens|, r, |h|);
      w < |lens| && |AG.Message(lens, r, own, h, |h|)| == AG.RecvCount(lens, w, |h|)
  {
    hide RingSum, AG.Cells, Flatten;
    var i := |h|;
    AG.HeldStep(k, |lens|, i);
    CellsAreRing(k, lens, r, own, h);
    var held, moved := B.Held(|lens|, i), B.Moved(|lens|, i);
    RingSumSplit(lens, r, moved, held - moved);
    assert moved + (held - moved) == held;
    B.CountsMatch(lens, r, i);
  }

  lemma GatherWellFormed<E(!new)>(k: nat, blocks: seq<seq<E>>)
    requires |blocks| > 0 && B.IsRounds(k, |blocks|)
    ensures N.WellFormed(GatherProtocol(k, blocks))
  {
    var p, n, lens := GatherProtocol(k, blocks), |blocks|, Lens(blocks);
    forall r: nat, j: nat | r < n && j < k
      ensures B.InRank(n, r, j) < n && B.OutRank(n, r, j) < n
      ensures B.OutRank(n, B.InRank(n, r, j), j) == r && B.InRank(n, B.OutRank(n, r, j), j) == r
    {
      AG.HeldStep(k, n, j);
      B.InOutInverse(n, r, j);
    }
    forall r: nat, h: seq<seq<E>> | r < n && |h| < k && N.Fits(p, r, h)
      ensures N.RightLength(p, r, h)
    {
      forall j | 0 <= j < |h|
        ensures |h[j]| == AG.RecvCount(lens, r, j)
      {
        assert |h[j]| == p.need(r, j);
      }
      GatherMessageLength(k, lens, r, blocks[r], h);
    }
  }

  lemma GatherMatched<E(!new)>(k: nat, blocks: seq<seq<E>>, hist: seq<seq<seq<E>>>)
    requires |blocks| > 0 && B.IsRounds(k, |blocks|)
    requires N.Matched(GatherProtocol(k, blocks), hist)
    ensures AG.Matched(k, blocks, hist)
  {
    hide AG.Message, B.InRank;
    var p := GatherProtocol(k, blocks);
    forall r, i | 0 <= r < |hist| && 0 <= i < k
      ensures B.InRank(|blocks|, r, i) < |hist| && AG.Delivered(blocks, hist, r, i)
    {
      assert p.source(r, i) == Machine(B.InRank(|blocks|, r, i));
      AG.HeldStep(k, |blocks|, i);
      B.InOutInverse(|blocks|, r, i);
    }
  }

  /** However the machines interleave, once all are done every one holds all blocks in order. */
  lemma AllgatherOverNetwork<E(!new)>(k: nat, blocks: seq<seq<E>>, run: seq<N.Net<E>>, r: nat)
    requires r < |blocks| && B.IsRounds(k, |blocks|)
    requires N.IsRun(GatherProtocol(k, blocks), run) && N.AllDone(GatherProtocol(k, blocks), run[|run| - 1])
    ensures r < |run[|run| - 1].hist|
    ensures AG.Gathered(Lens(blocks), r, blocks[r], run[|run| - 1].hist[r]) == Flatten(blocks)
  {
    hide N.WellFormed, AG.Gathered, AG.Delivered;
    var p, hist := GatherProtocol(k, blocks), run[|run| - 1].hist;
    GatherWellFormed(k, blocks);
    N.DoneIsMatched(p, run);
    GatherMatched(k, blocks, hist);
    AG.AllgatherCorrect(k, blocks, hist, r);
  }

  lemma GatherCountPositive(k: nat, lens: seq<nat>, r: nat, j: nat)
    requires |lens| > 0 && B.IsRounds(k, |lens|) && j < k && Positive(lens)
    ensures AG.RecvCount(lens, r, j) > 0
  {
    Pow2Mono(j, k - 1);
    RingSumPositive(lens, (r + B.Held(|lens|, j)) % |lens|, B.Moved(|lens|, j));
  }

  /** The machine of an empty block sends it in the first round, to a machine that meets it in no later round. */
  lemma EmptyBlockNeverTaken(k: nat, lens: seq<nat>, b: nat)
    requires B.IsRounds(k, |lens|) && |lens| > 1 && b < |lens| && lens[b] == 0
    ensures k > 0
    ensures var w := B.OutRank(|lens|, b, 0);
      && w < |lens| && B.InRank(|lens|, w, 0) == b && AG.RecvCount(lens, w, 0) == 0
      && forall i {:trigger B.InRank(|lens|, w, i)} :: 0 < i < k ==> B.InRank(|lens|, w, i) != b
  {
    var n := |lens|;
    var w := B.OutRank(n, b, 0);
    assert Pow2(0) == 1;
    AG.HeldStep(k, n, 0);
    B.InOutInverse(n, b, 0);
    B.CountsMatch(lens, b, 0);
    RingSumOne(lens, b);
    assert B.Moved(n, 0) == 1;
    forall i | 0 < i < k
      ensures B.InRank(n, w, i) != b
    {
      AG.HeldStep(k, n, i);
      B.PeersDistinct(n, w, 0, i);
    }
  }

  lemma GatherSubstantial<E(!new)>(k: nat, blocks: seq<seq<E>>)
    requires |blocks| > 0 && B.IsRounds(k, |blocks|) && (|blocks| == 1 || Positive(Lens(blocks)))
    ensures C.Substantial(GatherProtocol(k, blocks))
  {
    hide AG.RecvCount, B.InRank, B.OutRank;
    var p := GatherProtocol(k, blocks);
    assert |blocks| == 1 ==> k == 0;
    forall r: nat, j: nat | r < p.n && j < p.rounds
      ensures !C.EmptyExchange(p, r, j)
    {
      AG.HeldStep(k, |blocks|, j);
      B.InOutInverse(|blocks|, r, j);
      GatherCountPositive(k, Lens(blocks), B.OutRank(|blocks|, r, j), j);
    }
  }

  lemma GatherNeverTaken<E(!new)>(k: nat, blocks: seq<seq<E>>) returns (b: nat, w: nat)
    requires |blocks| > 1 && B.IsRounds(k, |blocks|) && !Positive(Lens(blocks))
    ensures C.NeverTaken(GatherProtocol(k, blocks), b, 0, w)
  {
    hide AG.RecvCount, B.InRank, B.OutRank;
    b :| 0 <= b < |blocks| && Lens(blocks)[b] == 0;
    w := B.OutRank(|blocks|, b, 0);
    EmptyBlockNeverTaken(k, Lens(blocks), b);
  }

  /** With synchronous sends an all-gather of several blocks completes exactly when no block is empty. */
  lemma GatherCompletesIfSync<E(!new)>(k: nat, blocks: seq<seq<E>>, run: seq<N.Net<E>>)
    requires |blocks| > 0 && B.IsRounds(k, |blocks|)
    requires C.IsSyncRun(GatherProtocol(k, blocks), run)
    ensures var p, net := GatherProtocol(k, blocks), run[|run| - 1];
      if |blocks| == 1 || Positive(Lens(blocks)) then N.AllDone(p, net) || C.CanMove(p, net, false)
      else !N.AllDone(p, net)
  {
    hide N.WellFormed, C.CanMove, N.AllDone, C.Substantial, C.SyncStep, AG.RecvCount, B.InRank, B.OutRank;
    var p := GatherProtocol(k, blocks);
    GatherWellFormed(k, blocks);
    if |blocks| == 1 || Positive(Lens(blocks)) {
      GatherSubstantial(k, blocks);
      C.SyncIsRun(p, run);
      if !N.AllDone(p, run[|run| - 1]) {
        C.Progress(p, run, false);
      }
    } else {
      var b, w := GatherNeverTaken(k, blocks);
      C.EmptyExchangeBlocks(p, run, b, 0, w);
    }
  }

  // ---- reduce-scatter followed by all-gather ----

  /** A machine that is done with its reduce-scatter goes on to the all-gather at once, whatever the others
      are doing, and on the same channels. */
  ghost function LargeProtocol<E(!new)>(op: (E, E) -> E, plan: RS.Plan, k: nat, xs: seq<seq<E>>): (p: N.Protocol<E>)
    requires RS.Inputs(plan, xs) && plan.n > 0
    ensures p.n == plan.n && p.rounds == plan.k + 2 + k
  {
    var first := plan.k + 2;
    N.Protocol(plan.n, first + k,
               (r: nat, j: nat) => if r >= plan.n || j >= first + k then Nobody
                                   else if j < first then RS.Source(plan, r, j)
                                   else Machine(B.InRank(plan.n, r, j - first)),
               (r: nat, j: nat) => if r >= plan.n || j >= first + k then Nobody
                                   else if j < first then RS.Target(plan, r, j)
                                   else Machine(B.OutRank(plan.n, r, j - first)),
               (r: nat, j: nat) => if r >= plan.n || j >= first + k then 0
                                   else if j < first then RS.Awaited(plan, r, j)
                                   else AG.RecvCount(plan.lens, r, j - first),
               (r: nat, h: seq<seq<E>>) => if r >= plan.n || |h| >= first + k then []
                                           else LargeMessage(op, plan, r, xs[r], h))
  }

  ghost function LargeMessage<E>(op: (E, E) -> E, plan: RS.Plan, r: nat, own: seq<E>, h: seq<seq<E>>): seq<E>
    requires plan.Valid() && r < plan.n && |own| == plan.Cells()
  {
    var first := plan.k + 2;
    if |h| < first then RS.Message(op, plan, r, own, h, |h|)
    else AG.Message(plan.lens, r, RS.Result(op, plan, r, own, h[..first]), h[first..], |h| - first)
  }

  /** A machine that got what it waited for ends its reduce-scatter with a block of the right length. */
  lemma ResultLength<E>(op: (E, E) -> E, plan: RS.Plan, r: nat, own: seq<E>, got: seq<seq<E>>)
    requires plan.Valid() && r < plan.n && |own| == plan.Cells() && |got| == plan.k + 2
    requires |got[plan.k + 1]| == RS.Awaited(plan, r, plan.k + 1)
    ensures |RS.Result(op, plan, r, own, got)| == plan.lens[r]
  {
    hide RS.Buffer, RS.Opposite, RS.RunCell, RS.RunEnd;
    T.NodesAndGroups(plan.n, plan.k, r);
  }

  lemma LargeMessageLength<E(!new)>(op: (E, E) -> E, plan: RS.Plan, k: nat, xs: seq<seq<E>>, r: nat, h: seq<seq<E>>)
    requires RS.Inputs(plan, xs) && B.IsRounds(k, plan.n)
    requires r < plan.n && |h| < plan.k + 2 + k && N.Fits(LargeProtocol(op, plan, k, xs), r, h)
    ensures N.RightLength(LargeProtocol(op, plan, k, xs), r, h)
  {
    hide RS.Message, RS.Result, RS.Awaited, RS.Target, RS.Source, AG.Message, AG.RecvCount;
    var p, first := LargeProtocol(op, plan, k, xs), plan.k + 2;
    if |h| < first {
      RS.MessageLength(op, plan, r, xs[r], h, |h|);
    } else {
      assert |h[plan.k + 1]| == p.need(r, plan.k + 1);
      ResultLength(op, plan, r, xs[r], h[..first]);
      forall j | 0 <= j < |h[first..]|
        ensures |h[first..][j]| == AG.RecvCount(plan.lens, r, j)
      {
        assert |h[first + j]| == p.need(r, first + j);
      }
      GatherMessageLength(k, plan.lens, r, RS.Result(op, plan, r, xs[r], h[..first]), h[first..]);
    }
  }

  lemma LargeWellFormed<E(!new)>(op: (E, E) -> E, plan: RS.Plan, k: nat, xs: seq<seq<E>>)
    requires RS.Inputs(plan, xs) && B.IsRounds(k, plan.n)
    ensures N.WellFormed(LargeProtocol(op, plan, k, xs))
  {
    hide RS.Message, RS.Source, RS.Target, LargeMessage, N.RightLength, AG.RecvCount, B.InRank, B.OutRank;
    var p, n, first := LargeProtocol(op, plan, k, xs), plan.n, plan.k + 2;
    forall r: nat, j: nat | r < n && j < first + k
      ensures match p.source(r, j)
        case Nobody => p.need(r, j) == 0
        case Machine(s) => s < n && p.target(s, j) == Machine(r)
      ensures match p.target(r, j)
        case Nobody => true
        case Machine(w) => w < n && p.source(w, j) == Machine(r)
    {
      if j < first {
        ScatterPeers(plan, r, j);
      } else {
        AG.HeldStep(k, n, j - first);
        B.InOutInverse(n, r, j - first);
      }
    }
    forall r: nat, h: seq<seq<E>> | r < n && |h| < first + k && N.Fits(p, r, h)
      ensures N.RightLength(p, r, h)
    {
      LargeMessageLength(op, plan, k, xs, r, h);
    }
  }

  lemma ScatterPeers(plan: RS.Plan, r: nat, j: nat)
    requires plan.Valid() && r < plan.n
    ensures match RS.Source(plan, r, j)
      case Nobody => RS.Awaited(plan, r, j) == 0
      case Machine(s) => s < plan.n && RS.Target(plan, s, j) == Machine(r)
    ensures match RS.Target(plan, r, j)
      case Nobody => true
      case Machine(w) => w < plan.n && RS.Source(plan, w, j) == Machine(r)
  {
    hide RS.Opposite;
    match RS.Source(plan, r, j) {
      case Nobody =>
      case Machine(s) => RS.SourcesAreTargets(plan, r, s, j);
    }
    match RS.Target(plan, r, j) {
      case Nobody =>
      case Machine(w) => RS.SourcesAreTargets(plan, w, r, j);
    }
  }

  /** The two phases of every machine's history. */
  ghost function FirstPhase<E>(plan: RS.Plan, hist: seq<seq<seq<E>>>): (h: seq<seq<seq<E>>>)
    requires forall r {:trigger hist[r]} :: 0 <= r < |hist| ==> |hist[r]| >= plan.k + 2
    ensures |h| == |hist| && forall r {:trigger h[r]} :: 0 <= r < |hist| ==> h[r] == hist[r][..plan.k + 2]
  {
    seq(|hist|, r requires 0 <= r < |hist| => hist[r][..plan.k + 2])
  }

  ghost function SecondPhase<E>(plan: RS.Plan, hist: seq<seq<seq<E>>>): (h: seq<seq<seq<E>>>)
    requires forall r {:trigger hist[r]} :: 0 <= r < |hist| ==> |hist[r]| >= plan.k + 2
    ensures |h| == |hist| && forall r {:trigger h[r]} :: 0 <= r < |hist| ==> h[r] == hist[r][plan.k + 2..]
  {
    seq(|hist|, r requires 0 <= r < |hist| => hist[r][plan.k + 2..])
  }

  lemma FirstPhaseMatched<E(!new)>(op: (E, E) -> E, plan: RS.Plan, k: nat, xs: seq<seq<E>>, hist: seq<seq<seq<E>>>)
    requires RS.Inputs(plan, xs) && B.IsRounds(k, plan.n)
    requires N.Matched(LargeProtocol(op, plan, k, xs), hist)
    ensures RS.Matched(op, plan, xs, FirstPhase(plan, hist))
  {
    hide RS.Message, RS.Source, RS.Target;
    var p, got := LargeProtocol(op, plan, k, xs), FirstPhase(plan, hist);
    forall v, j | 0 <= v < plan.n && 0 <= j <= plan.k + 1
      ensures RS.Delivered(op, plan, xs, got, v, j)
    {
      assert p.source(v, j) == RS.Source(plan, v, j);
      match RS.Source(plan, v, j)
      case Nobody =>
      case Machine(s) =>
        assert hist[s][..j] == got[s][..j];
    }
  }

  lemma SecondPhaseMatched<E(!new)>(op: (E, E) -> E, plan: RS.Plan, k: nat, xs: seq<seq<E>>, hist: seq<seq<seq<E>>>)
    requires Associative(op) && Commutative(op)
    requires RS.Inputs(plan, xs) && B.IsRounds(k, plan.n)
    requires N.Matched(LargeProtocol(op, plan, k, xs), hist)
    requires RS.Matched(op, plan, xs, FirstPhase(plan, hist))
    ensures AG.Matched(k, AR.Scattered(op, plan, xs, FirstPhase(plan, hist)), SecondPhase(plan, hist))
  {
    hide RS.Message, RS.Result, RS.Delivered, AG.Message, B.InRank;
    var p, first := LargeProtocol(op, plan, k, xs), plan.k + 2;
    var blocks, got := AR.Scattered(op, plan, xs, FirstPhase(plan, hist)), SecondPhase(plan, hist);
    AR.ScatteredBlocks(op, plan, xs, FirstPhase(plan, hist));
    forall r, i | 0 <= r < plan.n && 0 <= i < k
      ensures B.InRank(plan.n, r, i) < plan.n && AG.Delivered(blocks, got, r, i)
    {
      AG.HeldStep(k, plan.n, i);
      B.InOutInverse(plan.n, r, i);
      var s := B.InRank(plan.n, r, i);
      assert p.source(r, first + i) == Machine(s);
      assert hist[s][..first + i][..first] == FirstPhase(plan, hist)[s];
      assert hist[s][..first + i][first..] == got[s][..i];
    }
  }

  /** However the machines interleave, once all are done every one holds the reduction of all inputs. */
  lemma AllreduceOverNetwork<E(!new)>(op: (E, E) -> E, plan: RS.Plan, k: nat, xs: seq<seq<E>>, run: seq<N.Net<E>>,
                                      r: nat)
    requires Associative(op) && Commutative(op)
    requires RS.Inputs(plan, xs) && B.IsRounds(k, plan.n) && r < plan.n
    requires N.IsRun(LargeProtocol(op, plan, k, xs), run) && N.AllDone(LargeProtocol(op, plan, k, xs), run[|run| - 1])
    ensures var h := run[|run| - 1].hist;
      && r < |h| && |h[r]| == plan.k + 2 + k
      && AR.IsReduction(op, xs, plan.Cells(),
                        AR.LargeResult(op, plan, r, xs[r], h[r][..plan.k + 2], h[r][plan.k + 2..]))
  {
    hide LargeProtocol, N.WellFormed, AR.LargeResult, AR.IsReduction;
    LargeWellFormed(op, plan, k, xs);
    N.DoneIsMatched(LargeProtocol(op, plan, k, xs), run);
    LargeReduction(op, plan, k, xs, run[|run| - 1].hist, r);
  }

  lemma LargeReduction<E(!new)>(op: (E, E) -> E, plan: RS.Plan, k: nat, xs: seq<seq<E>>, hist: seq<seq<seq<E>>>,
                                r: nat)
    requires Associative(op) && Commutative(op)
    requires RS.Inputs(plan, xs) && B.IsRounds(k, plan.n) && r < plan.n
    requires N.Matched(LargeProtocol(op, plan, k, xs), hist)
    ensures |hist| == plan.n && |hist[r]| == plan.k + 2 + k
    ensures AR.IsReduction(op, xs, plan.Cells(),
                           AR.LargeResult(op, plan, r, xs[r], hist[r][..plan.k + 2], hist[r][plan.k + 2..]))
  {
    hide LargeProtocol, RS.Delivered, AG.Delivered, AR.LargeResult, AR.IsReduction;
    FirstPhaseMatched(op, plan, k, xs, hist);
    SecondPhaseMatched(op, plan, k, xs, hist);
    AR.LargeCorrect(op, plan, k, xs, FirstPhase(plan, hist), SecondPhase(plan, hist), r);
  }

  /** A machine that sends and receives in a round of the reduce-scatter sends cells in it. */
  lemma ScatterCountPositive(plan: RS.Plan, r: nat, j: nat)
    requires plan.Valid() && r < plan.n && Positive(plan.lens)
    requires RS.Source(plan, r, j).Machine? && RS.Target(plan, r, j).Machine?
    ensures RS.Awaited(plan, RS.Target(plan, r, j).rank, j) > 0
  {
    hide RS.Opposite, RS.RunCell, RS.RunEnd;
    var w := RS.Target(plan, r, j).rank;
    RS.SourcesAreTargets(plan, w, r, j);
    assert 1 <= j <= plan.k;
    RS.RunCells(plan, w, j);
    var d := T.Distance(plan.k, j - 1);
    var s := T.RunStart(T.GroupOf(plan.n, plan.k, w), d);
    SumGrows(plan.lens, T.NodeOf(plan.n, plan.k, s), T.NodeOf(plan.n, plan.k, s + d));
  }

  lemma LargeSubstantial<E(!new)>(op: (E, E) -> E, plan: RS.Plan, k: nat, xs: seq<seq<E>>)
    requires RS.Inputs(plan, xs) && B.IsRounds(k, plan.n) && (plan.n == 1 || Positive(plan.lens))
    ensures C.Substantial(LargeProtocol(op, plan, k, xs))
  {
    hide RS.Source, RS.Target, RS.Awaited, LargeMessage, AG.RecvCount, B.InRank, B.OutRank;
    var p, first := LargeProtocol(op, plan, k, xs), plan.k + 2;
    forall r: nat, j: nat | r < p.n && j < p.rounds
      ensures !C.EmptyExchange(p, r, j)
    {
      if plan.n == 1 {
        assert k == 0;
        LoneMachine(plan, j);
      } else if j < first {
        if p.source(r, j).Machine? && p.target(r, j).Machine? {
          ScatterCountPositive(plan, r, j);
        }
      } else {
        AG.HeldStep(k, plan.n, j - first);
        B.InOutInverse(plan.n, r, j - first);
        GatherCountPositive(k, plan.lens, B.OutRank(plan.n, r, j - first), j - first);
      }
    }
  }

  lemma LoneMachine(plan: RS.Plan, j: nat)
    requires plan.Valid() && plan.n == 1
    ensures RS.Source(plan, 0, j) == Nobody
  {
    assert plan.k == 0;
    assert T.TypeOf(1, 0, 0) == T.Normal;
  }

  lemma LargeNeverTaken<E(!new)>(op: (E, E) -> E, plan: RS.Plan, k: nat, xs: seq<seq<E>>) returns (b: nat, w: nat)
    requires RS.Inputs(plan, xs) && B.IsRounds(k, plan.n) && plan.n > 1 && !Positive(plan.lens)
    ensures C.NeverTaken(LargeProtocol(op, plan, k, xs), b, plan.k + 2, w)
  {
    hide RS.Source, RS.Target, RS.Awaited, LargeMessage, AG.RecvCount, B.InRank, B.OutRank;
    b :| 0 <= b < plan.n && plan.lens[b] == 0;
    w := B.OutRank(plan.n, b, 0);
    EmptyBlockNeverTaken(k, plan.lens, b);
  }

  /** With synchronous sends the large path on several machines completes exactly when no block is empty. */
  lemma LargeCompletesIfSync<E(!new)>(op: (E, E) -> E, plan: RS.Plan, k: nat, xs: seq<seq<E>>, run: seq<N.Net<E>>)
    requires RS.Inputs(plan, xs) && B.IsRounds(k, plan.n)
    requires C.IsSyncRun(LargeProtocol(op, plan, k, xs), run)
    ensures var p, net := LargeProtocol(op, plan, k, xs), run[|run| - 1];
      if plan.n == 1 || Positive(plan.lens) then N.AllDone(p, net) || C.CanMove(p, net, false)
      else !N.AllDone(p, net)
  {
    hide N.WellFormed, C.CanMove, N.AllDone, C.Substantial, C.SyncStep, AG.RecvCount, B.InRank, B.OutRank;
    hide RS.Source, RS.Target, RS.Awaited, LargeMessage;
    var p := LargeProtocol(op, plan, k, xs);
    LargeWellFormed(op, plan, k, xs);
    if plan.n == 1 || Positive(plan.lens) {
      LargeSubstantial(op, plan, k, xs);
      C.SyncIsRun(p, run);
      if !N.AllDone(p, run[|run| - 1]) {
        C.Progress(p, run, false);
      }
    } else {
      var b, w := LargeNeverTaken(op, plan, k, xs);
      C.EmptyExchangeBlocks(p, run, b, plan.k + 2, w);
    }
  }
}
