/** All-reduces of any sizes over the network, one or many in a row: every interleaving gives every machine the
    reduction of all inputs, and the block sizes decide whether synchronous sends complete. */
module AllreduceNetwork {
  import opened Arith
  import opened Blocks
  import opened Reduction
  import N = Network
  import C = Completion
  import S = Successive
  import B = BruckMap
  import T = HalvingTopo
  import RS = ReduceScatter
  import AR = Allreduce
  import Collective
  import BlockSplit

  /** n machines, with the numbers of rounds their maps have. */
  datatype Machines = Machines(n: nat, bruck: nat, halving: nat) {
    ghost predicate Valid() {
      n > 0 && B.IsRounds(bruck, n) && T.IsGrouping(n, halving)
    }
  }

  /** One all-reduce: the inputs of all machines, of equal size. */
  datatype Job<!E> = Job(op: (E, E) -> E, typeSize: nat, xs: seq<seq<E>>) {
    function Count(): nat {
      if xs == [] then 0 else |xs[0]|
    }

    predicate Small() {
      AR.GathersWhole(|xs|, Count(), typeSize)
    }
  }

  ghost predicate Fitting<E(!new)>(ms: Machines, job: Job<E>) {
    && ms.Valid() && |job.xs| == ms.n
    && (forall v {:trigger job.xs[v]} :: 0 <= v < ms.n ==> |job.xs[v]| == job.Count())
    && (job.Small() || (Associative(job.op) && Commutative(job.op)))
  }

  ghost function PlanOf<E(!new)>(ms: Machines, job: Job<E>): (plan: RS.Plan)
    requires Fitting(ms, job)
    ensures RS.Inputs(plan, job.xs) && plan.n == ms.n && plan.k == ms.halving && plan.Cells() == job.Count()
  {
    BlockSplit.SplitCovers(ms.n, job.Count());
    RS.Plan(ms.n, ms.halving, BlockSplit.Lens(ms.n, job.Count()))
  }

  ghost function JobProtocol<E(!new)>(ms: Machines, job: Job<E>): (p: N.Protocol<E>)
    requires Fitting(ms, job)
    ensures p.n == ms.n
  {
    if job.Small() then Collective.GatherProtocol(ms.bruck, job.xs)
    else Collective.LargeProtocol(job.op, PlanOf(ms, job), ms.bruck, job.xs)
  }

  /** What machine r ends with, from what it received. */
  ghost function JobResult<E(!new)>(ms: Machines, job: Job<E>, r: nat, got: seq<seq<E>>): seq<E>
    requires Fitting(ms, job) && r < ms.n && |got| == JobProtocol(ms, job).rounds
  {
    if job.Small() then AR.SmallResult(job.op, ms.n, job.Count(), r, job.xs[r], got)
    else
      var first := ms.halving + 2;
      AR.LargeResult(job.op, PlanOf(ms, job), r, job.xs[r], got[..first], got[first..])
  }

  lemma JobWellFormed<E(!new)>(ms: Machines, job: Job<E>)
    requires Fitting(ms, job)
    ensures N.WellFormed(JobProtocol(ms, job))
  {
    hide N.WellFormed, Collective.GatherProtocol, Collective.LargeProtocol;
    if job.Small() {
      Collective.GatherWellFormed(ms.bruck, job.xs);
    } else {
      Collective.LargeWellFormed(job.op, PlanOf(ms, job), ms.bruck, job.xs);
    }
  }

  lemma JobReduction<E(!new)>(ms: Machines, job: Job<E>, hist: seq<seq<seq<E>>>, r: nat)
    requires Fitting(ms, job) && r < ms.n && N.Matched(JobProtocol(ms, job), hist)
    ensures |hist| == ms.n && |hist[r]| == JobProtocol(ms, job).rounds
    ensures AR.IsReduction(job.op, job.xs, job.Count(), JobResult(ms, job, r, hist[r]))
  {
    hide AR.IsReduction, AR.SmallResult, AR.LargeResult, Associative, Commutative;
    if job.Small() {
      Collective.GatherMatched(ms.bruck, job.xs, hist);
      AR.SmallCorrect(job.op, ms.bruck, job.xs, job.Count(), hist, r);
    } else {
      Collective.LargeReduction(job.op, PlanOf(ms, job), ms.bruck, job.xs, hist, r);
    }
  }

  /** However the machines interleave, once all are done every one holds the reduction, whatever the size. */
  lemma AllreduceInRun<E(!new)>(ms: Machines, job: Job<E>, run: seq<N.Net<E>>, r: nat)
    requires Fitting(ms, job) && r < ms.n
    requires N.IsRun(JobProtocol(ms, job), run) && N.AllDone(JobProtocol(ms, job), run[|run| - 1])
    ensures |run[|run| - 1].hist| == ms.n && |run[|run| - 1].hist[r]| == JobProtocol(ms, job).rounds
    ensures AR.IsReduction(job.op, job.xs, job.Count(), JobResult(ms, job, r, run[|run| - 1].hist[r]))
  {
    hide N.WellFormed, JobProtocol, JobResult, AR.IsReduction;
    JobWellFormed(ms, job);
    N.DoneIsMatched(JobProtocol(ms, job), run);
    JobReduction(ms, job, run[|run| - 1].hist, r);
  }

  // ---- many all-reduces in a row ----

  ghost function Protocols<E(!new)>(ms: Machines, jobs: seq<Job<E>>): (ps: seq<N.Protocol<E>>)
    requires forall i {:trigger jobs[i]} :: 0 <= i < |jobs| ==> Fitting(ms, jobs[i])
    ensures |ps| == |jobs|
    ensures forall i {:trigger ps[i]} :: 0 <= i < |ps| ==> ps[i] == JobProtocol(ms, jobs[i]) && ps[i].n == ms.n
  {
    seq(|jobs|, i requires 0 <= i < |jobs| => JobProtocol(ms, jobs[i]))
  }

  /** All-reduces one after the other, without waiting for each other in between: each machine ends each with the
      reduction of that one's inputs. */
  lemma AllreducesInARow<E(!new)>(ms: Machines, jobs: seq<Job<E>>, run: seq<N.Net<E>>, i: nat, r: nat)
    requires (forall m {:trigger jobs[m]} :: 0 <= m < |jobs| ==> Fitting(ms, jobs[m])) && i < |jobs| && r < ms.n
    requires var p := S.Row(ms.n, Protocols(ms, jobs)); N.IsRun(p, run) && N.AllDone(p, run[|run| - 1])
    ensures var lo, h := S.StartOf(ms.n, Protocols(ms, jobs), i), run[|run| - 1].hist;
      var hi := lo + JobProtocol(ms, jobs[i]).rounds;
      && |h| == ms.n && hi <= |h[r]|
      && AR.IsReduction(jobs[i].op, jobs[i].xs, jobs[i].Count(), JobResult(ms, jobs[i], r, h[r][lo..hi]))
  {
    hide N.WellFormed, N.Matched, JobProtocol, JobResult, AR.IsReduction, S.Row, Fitting;
    var ps, hist := Protocols(ms, jobs), run[|run| - 1].hist;
    var p := S.Row(ms.n, ps);
    RowWellFormed(ms, jobs);
    N.DoneIsMatched(p, run);
    S.MatchedLengths(p, hist);
    S.EachMatched(ms.n, ps, hist, i);
    var lo := S.StartOf(ms.n, ps, i);
    JobReduction(ms, jobs[i], S.Slice(hist, lo, lo + ps[i].rounds), r);
  }

  lemma RowWellFormed<E(!new)>(ms: Machines, jobs: seq<Job<E>>)
    requires forall i {:trigger jobs[i]} :: 0 <= i < |jobs| ==> Fitting(ms, jobs[i])
    ensures N.WellFormed(S.Row(ms.n, Protocols(ms, jobs)))
  {
    hide N.WellFormed, JobProtocol, Fitting;
    var ps := Protocols(ms, jobs);
    forall i | 0 <= i < |ps|
      ensures ps[i].n == ms.n && N.WellFormed(ps[i])
    {
      JobWellFormed(ms, jobs[i]);
    }
    S.RowWellFormed(ms.n, ps);
  }

  // ---- completion ----

  /** No block the machines exchange is empty. */
  ghost predicate Filled<E>(ms: Machines, job: Job<E>)
    requires ms.n > 0
  {
    || ms.n == 1
    || if job.Small() then job.Count() > 0 else (ms.n - 1) * ((job.Count() + ms.n - 1) / ms.n) < job.Count()
  }

  lemma FilledBlocks<E(!new)>(ms: Machines, job: Job<E>)
    requires Fitting(ms, job)
    ensures Filled(ms, job) <==>
              ms.n == 1 || Positive(if job.Small() then Lens(job.xs) else PlanOf(ms, job).lens)
  {
    hide Associative, Commutative;
    if job.Small() {
      assert forall b {:trigger Lens(job.xs)[b]} :: 0 <= b < ms.n ==> Lens(job.xs)[b] == |job.xs[b]| == job.Count();
      assert Lens(job.xs)[0] == job.Count();
    } else {
      BlockSplit.NoBlockEmpty(ms.n, job.Count());
    }
  }

  /** With synchronous sends an all-reduce completes exactly when none of its blocks is empty: its runs can then
      always go on until all machines are done, and otherwise no run gets there. */
  lemma CompletesIfSync<E(!new)>(ms: Machines, job: Job<E>, run: seq<N.Net<E>>)
    requires Fitting(ms, job) && C.IsSyncRun(JobProtocol(ms, job), run)
    ensures var p, net := JobProtocol(ms, job), run[|run| - 1];
      if Filled(ms, job) then N.AllDone(p, net) || C.CanMove(p, net, false) else !N.AllDone(p, net)
  {
    hide N.AllDone, C.CanMove, C.IsSyncRun, Positive, Filled, Collective.GatherProtocol, Collective.LargeProtocol;
    hide Associative, Commutative;
    FilledBlocks(ms, job);
    if job.Small() {
      Collective.GatherCompletesIfSync(ms.bruck, job.xs, run);
    } else {
      Collective.LargeCompletesIfSync(job.op, PlanOf(ms, job), ms.bruck, job.xs, run);
    }
  }

  /** Inputs of 4096 bytes and more take the large path if they have an element for every machine, and some block is
      empty if and only if no block size lets n of them, but not n - 1, hold the elements. */
  lemma SizesDecide<E(!new)>(ms: Machines, job: Job<E>, m: nat)
    requires Fitting(ms, job)
    ensures job.Small() <==> |job.xs[0]| < ms.n || |job.xs[0]| * job.typeSize <= 4095
    ensures job.Small() && ms.n > 1 ==> (Filled(ms, job) <==> |job.xs[0]| > 0)
    ensures !job.Small() && (ms.n - 1) * m < |job.xs[0]| <= ms.n * m ==> Filled(ms, job)
    ensures var c := |job.xs[0]|; var up := (c + ms.n - 1) / ms.n;
            !job.Small() && Filled(ms, job) ==> (ms.n - 1) * up < c <= ms.n * up
  {
    hide Associative, Commutative;
    BlockSplit.StepReaches(ms.n, job.Count());
    if (ms.n - 1) * m < job.Count() <= ms.n * m {
      UpIsEnough(ms.n, job.Count(), m);
    }
  }

  lemma UpIsEnough(n: nat, count: nat, m: nat)
    requires n > 0 && (n - 1) * m < count <= n * m
    ensures (n - 1) * ((count + n - 1) / n) < count
  {
    BlockSplit.StepIsLeast(n, count, m);
    MulLe((count + n - 1) / n, m, n - 1);
  }

  /** A thousand floats and 24 over two machines are scattered; one fewer are gathered whole. */
  lemma FourKilobytes<E(!new)>(ms: Machines, job: Job<E>)
    requires Fitting(ms, job) && ms.n == 2 && job.typeSize == 4 && 1023 <= |job.xs[0]| <= 1024
    ensures JobProtocol(ms, job) ==
            if |job.xs[0]| == 1023 then Collective.GatherProtocol(ms.bruck, job.xs)
            else Collective.LargeProtocol(job.op, PlanOf(ms, job), ms.bruck, job.xs)
  {
    hide Collective.GatherProtocol, Collective.LargeProtocol;
  }

  /** Eight elements of 1024 bytes over four machines make blocks of two and complete. */
  lemma EightOverFour<E(!new)>(ms: Machines, job: Job<E>, run: seq<N.Net<E>>)
    requires Fitting(ms, job) && ms.n == 4 && job.Count() == 8 && job.typeSize == 1024
    requires C.IsSyncRun(JobProtocol(ms, job), run)
    ensures !job.Small() && PlanOf(ms, job).lens == [2, 2, 2, 2]
    ensures var p, net := JobProtocol(ms, job), run[|run| - 1]; N.AllDone(p, net) || C.CanMove(p, net, false)
  {
    hide C.IsSyncRun, N.AllDone, C.CanMove, JobProtocol, Associative, Commutative;
    BlockSplit.LastBlockEmpty();
    CompletesIfSync(ms, job, run);
  }

  /** Five elements of 1024 bytes over four machines take the large path and leave the last block empty. */
  lemma FiveOverFour<E(!new)>(ms: Machines, job: Job<E>, run: seq<N.Net<E>>)
    requires Fitting(ms, job) && ms.n == 4 && job.Count() == 5 && job.typeSize == 1024
    requires C.IsSyncRun(JobProtocol(ms, job), run)
    ensures !job.Small() && PlanOf(ms, job).lens == [2, 2, 1, 0] && !N.AllDone(JobProtocol(ms, job), run[|run| - 1])
  {
    hide C.IsSyncRun, N.AllDone, JobProtocol, Associative, Commutative;
    BlockSplit.LastBlockEmpty();
    CompletesIfSync(ms, job, run);
  }

  lemma JobSubstantial<E(!new)>(ms: Machines, job: Job<E>)
    requires Fitting(ms, job) && Filled(ms, job)
    ensures C.Substantial(JobProtocol(ms, job))
  {
    hide C.Substantial, Positive, Filled, Collective.GatherProtocol, Collective.LargeProtocol, Associative, Commutative;
    FilledBlocks(ms, job);
    if job.Small() {
      Collective.GatherSubstantial(ms.bruck, job.xs);
    } else {
      Collective.LargeSubstantial(job.op, PlanOf(ms, job), ms.bruck, job.xs);
    }
  }

  /** No interleaving of all-reduces in a row goes on forever or deadlocks, if sends of no cells complete at once or
      no block is empty. */
  lemma RowCompletes<E(!new)>(ms: Machines, jobs: seq<Job<E>>, run: seq<N.Net<E>>, eager: bool)
    requires ms.Valid() && forall i {:trigger jobs[i]} :: 0 <= i < |jobs| ==> Fitting(ms, jobs[i])
    requires eager || forall i {:trigger jobs[i]} :: 0 <= i < |jobs| ==> Filled(ms, jobs[i])
    requires N.IsRun(S.Row(ms.n, Protocols(ms, jobs)), run)
    ensures var p := S.Row(ms.n, Protocols(ms, jobs));
      && |run| - 1 <= 3 * p.rounds * ms.n
      && (N.AllDone(p, run[|run| - 1]) || C.CanMove(p, run[|run| - 1], eager))
  {
    hide N.WellFormed, N.AllDone, C.CanMove, C.Substantial, JobProtocol, Fitting, Filled, S.Row;
    var ps := Protocols(ms, jobs);
    var p := S.Row(ms.n, ps);
    RowWellFormed(ms, jobs);
    C.RunsAreFinite(p, run);
    if !eager {
      forall i | 0 <= i < |ps|
        ensures ps[i].n == ms.n && C.Substantial(ps[i])
      {
        JobSubstantial(ms, jobs[i]);
      }
      S.RowSubstantial(ms.n, ps);
    }
    if !N.AllDone(p, run[|run| - 1]) {
      C.Progress(p, run, eager);
    }
  }

  /** With synchronous sends a row whose last all-reduce has an empty block never completes. */
  lemma RowHangs<E(!new)>(ms: Machines, jobs: seq<Job<E>>, run: seq<N.Net<E>>)
    requires ms.Valid() && jobs != [] && forall i {:trigger jobs[i]} :: 0 <= i < |jobs| ==> Fitting(ms, jobs[i])
    requires !Filled(ms, jobs[|jobs| - 1]) && C.IsSyncRun(S.Row(ms.n, Protocols(ms, jobs)), run)
    ensures !N.AllDone(S.Row(ms.n, Protocols(ms, jobs)), run[|run| - 1])
  {
    hide N.WellFormed, C.NeverTaken, C.Held, JobProtocol, Fitting, Filled, S.Then, N.AllDone, N.Inv;
    var last, ps := |jobs| - 1, Protocols(ms, jobs);
    RowWellFormed(ms, jobs);
    var r, j, w := JobNeverTaken(ms, jobs[last]);
    var before := S.Row(ms.n, ps[..last]);
    S.ThenNeverTaken(before, ps[last], r, j, w);
    C.EmptyExchangeBlocks(S.Row(ms.n, ps), run, r, before.rounds + j, w);
  }

  lemma JobNeverTaken<E(!new)>(ms: Machines, job: Job<E>) returns (r: nat, j: nat, w: nat)
    requires Fitting(ms, job) && !Filled(ms, job)
    ensures C.NeverTaken(JobProtocol(ms, job), r, j, w)
  {
    hide C.NeverTaken, Positive, Filled, Collective.GatherProtocol, Collective.LargeProtocol, Associative, Commutative;
    FilledBlocks(ms, job);
    if job.Small() {
      j := 0;
      r, w := Collective.GatherNeverTaken(ms.bruck, job.xs);
    } else {
      j := ms.halving + 2;
      r, w := Collective.LargeNeverTaken(job.op, PlanOf(ms, job), ms.bruck, job.xs);
    }
  }

  /** Nor is any receive cut short. */
  lemma RowNeverTruncated<E(!new)>(ms: Machines, jobs: seq<Job<E>>, run: seq<N.Net<E>>, r: nat)
    requires ms.Valid() && forall i {:trigger jobs[i]} :: 0 <= i < |jobs| ==> Fitting(ms, jobs[i])
    requires N.IsRun(S.Row(ms.n, Protocols(ms, jobs)), run) && r < ms.n == |run[|run| - 1].hist|
    requires |run[|run| - 1].hist[r]| < S.Row(ms.n, Protocols(ms, jobs)).rounds
    ensures !N.Incoming(S.Row(ms.n, Protocols(ms, jobs)), run[|run| - 1], r).Truncated?
  {
    hide N.WellFormed, JobProtocol, Fitting, S.Row, N.Incoming;
    RowWellFormed(ms, jobs);
    N.NeverTruncated(S.Row(ms.n, Protocols(ms, jobs)), run, r);
  }
}
