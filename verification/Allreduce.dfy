/** All-reduce over both of its paths: the block split, the small path that gathers everything and folds
    it, the large path that reduce-scatters and gathers, and why both leave every rank with the left
    fold of all inputs in rank order. */
module Allreduce {
  import opened Blocks
  import opened Reduction
  import B = BruckMap
  import T = HalvingTopo
  import AG = Allgather
  import RS = ReduceScatter
  import BlockSplit

  /** n blocks of count cells each. */
  function Uniform(n: nat, count: nat): (lens: seq<nat>)
    ensures |lens| == n
  {
    seq(n, _ => count)
  }

  lemma {:induction false} UniformSum(n: nat, count: nat, m: nat)
    requires m <= n
    ensures Sum(Uniform(n, count), m) == m * count
  {
    if m == 0 {
    } else {
      UniformSum(n, count, m - 1);
    }
  }

  /** Blocks 1, 2, ... m - 1 reduced into block 0, one after the other. */
  function FoldBlocks<E>(op: (E, E) -> E, cells: seq<E>, lens: seq<nat>, m: nat): (f: seq<E>)
    requires 1 <= m <= |lens| && Sum(lens, |lens|) <= |cells|
    ensures |f| == lens[0]
  {
    SumMono(lens, m, |lens|);
    SumMono(lens, m - 1, m);
    if m == 1 then cells[..lens[0]]
    else Combine(op, FoldBlocks(op, cells, lens, m - 1), 0, cells[Sum(lens, m - 1)..Sum(lens, m)])
  }

  /** The reduction of all inputs in rank order, cell by cell. */
  ghost predicate IsReduction<E>(op: (E, E) -> E, xs: seq<seq<E>>, count: nat, result: seq<E>)
    requires |xs| > 0 && forall v :: 0 <= v < |xs| ==> |xs[v]| == count
  {
    && |result| == count
    && forall e {:trigger result[e]} :: 0 <= e < count ==> result[e] == Fold(op, Column(xs, e), Ranks(|xs|))
  }

  lemma {:induction false} FlattenSlice<E>(parts: seq<seq<E>>, i: nat)
    requires i < |parts|
    ensures |Flatten(parts)| == Sum(Lens(parts), |parts|)
    ensures Sum(Lens(parts), i) + |parts[i]| == Sum(Lens(parts), i + 1) <= |Flatten(parts)|
    ensures Flatten(parts)[Sum(Lens(parts), i)..Sum(Lens(parts), i + 1)] == parts[i]
  {
    var last := |parts| - 1;
    FlattenLength(parts);
    if i < last {
      var front := parts[..last];
      FlattenSlice(front, i);
      SumPrefix(Lens(front), Lens(parts), i);
      SumPrefix(Lens(front), Lens(parts), i + 1);
    } else {
      FlattenLength(parts[..last]);
      SumPrefix(Lens(parts[..last]), Lens(parts), last);
    }
  }

  lemma {:induction false} FlattenLength<E>(parts: seq<seq<E>>)
    ensures |Flatten(parts)| == Sum(Lens(parts), |parts|)
  {
    if parts == [] {
    } else {
      FlattenLength(parts[..|parts| - 1]);
      SumPrefix(Lens(parts[..|parts| - 1]), Lens(parts), |parts| - 1);
    }
  }

  lemma {:induction false} SumPrefix(a: seq<nat>, b: seq<nat>, m: nat)
    requires m <= |a| <= |b| && forall i :: 0 <= i < |a| ==> a[i] == b[i]
    ensures Sum(a, m) == Sum(b, m)
  {
    if m == 0 {
    } else {
      SumPrefix(a, b, m - 1);
    }
  }

  lemma SumZero(lens: seq<nat>)
    ensures Sum(lens, 0) == 0
  {
  }

  lemma RanksPrefix(m: nat)
    requires m > 0
    ensures Ranks(m)[..m - 1] == Ranks(m - 1) && Ranks(m)[m - 1] == m - 1
  {
  }

  /** Folding the blocks of the gathered buffer is folding the inputs. */
  lemma {:induction false} FoldBlocksIsFold<E>(op: (E, E) -> E, xs: seq<seq<E>>, count: nat, m: nat, e: nat)
    requires 1 <= m <= |xs| && e < count
    requires forall v :: 0 <= v < |xs| ==> |xs[v]| == count
    ensures Lens(xs) == Uniform(|xs|, count)
    ensures |Flatten(xs)| == Sum(Lens(xs), |xs|)
    ensures FoldBlocks(op, Flatten(xs), Lens(xs), m)[e] == Fold(op, Column(xs, e), Ranks(m))
  {
    hide Flatten, Sum;
    FlattenSlice(xs, m - 1);
    assert Lens(xs) == Uniform(|xs|, count);
    if m == 1 {
      assert Sum(Lens(xs), 0) == 0 by { SumZero(Lens(xs)); }
      FoldOne(op, Column(xs, e), 0);
      assert Ranks(1) == [0];
    } else {
      FoldBlocksIsFold(op, xs, count, m - 1, e);
      RanksPrefix(m);
    }
  }

  /** The small path: what a rank with the given history ends with. */
  function SmallResult<E>(op: (E, E) -> E, n: nat, count: nat, rank: nat, own: seq<E>, got: seq<seq<E>>): seq<E>
    requires rank < n
  {
    var cells := AG.Gathered(Uniform(n, count), rank, own, got);
    if Sum(Uniform(n, count), n) <= |cells| then FoldBlocks(op, cells, Uniform(n, count), n) else []
  }

  /** On the small path every rank ends with the left fold of the inputs, for any reducer at all. */
  lemma SmallCorrect<E>(op: (E, E) -> E, k: nat, xs: seq<seq<E>>, count: nat, got: seq<seq<seq<E>>>, r: nat)
    requires r < |xs| && B.IsRounds(k, |xs|) && AG.Matched(k, xs, got)
    requires forall v :: 0 <= v < |xs| ==> |xs[v]| == count
    ensures IsReduction(op, xs, count, SmallResult(op, |xs|, count, r, xs[r], got[r]))
  {
    AG.AllgatherCorrect(k, xs, got, r);
    FlattenLength(xs);
    assert Lens(xs) == Uniform(|xs|, count);
    forall e | 0 <= e < count
      ensures SmallResult(op, |xs|, count, r, xs[r], got[r])[e] == Fold(op, Column(xs, e), Ranks(|xs|))
    {
      FoldBlocksIsFold(op, xs, count, |xs|, e);
    }
  }

  /** The large path: reduce-scatter, then all-gather of the blocks it left. */
  function LargeResult<E>(op: (E, E) -> E, plan: RS.Plan, rank: nat, own: seq<E>, scatter: seq<seq<E>>,
                          gather: seq<seq<E>>): seq<E>
    requires plan.Valid() && rank < plan.n && |own| == plan.Cells() && |scatter| == plan.k + 2
  {
    AG.Gathered(plan.lens, rank, RS.Result(op, plan, rank, own, scatter), gather)
  }

  /** The blocks that the reduce-scatter leaves, one a rank. */
  ghost function Scattered<E(!new)>(op: (E, E) -> E, plan: RS.Plan, xs: seq<seq<E>>,
                             scatter: seq<seq<seq<E>>>): (b: seq<seq<E>>)
    requires RS.Matched(op, plan, xs, scatter)
    ensures |b| == plan.n
  {
    seq(plan.n, v requires 0 <= v < plan.n => RS.Result(op, plan, v, xs[v], scatter[v]))
  }

  /** On the large path every rank ends with the same left fold, for an associative and commutative
      reducer and any block lengths. */
  lemma LargeCorrect<E(!new)>(op: (E, E) -> E, plan: RS.Plan, k: nat, xs: seq<seq<E>>,
                              scatter: seq<seq<seq<E>>>, gather: seq<seq<seq<E>>>, r: nat)
    requires Associative(op) && Commutative(op) && RS.Matched(op, plan, xs, scatter)
    requires r < plan.n && B.IsRounds(k, plan.n)
    requires AG.Matched(k, Scattered(op, plan, xs, scatter), gather)
    ensures IsReduction(op, xs, plan.Cells(), LargeResult(op, plan, r, xs[r], scatter[r], gather[r]))
  {
    hide Flatten, RS.Result, RS.Delivered, AG.Delivered;
    var blocks := Scattered(op, plan, xs, scatter);
    ScatteredBlocks(op, plan, xs, scatter);
    AG.AllgatherCorrect(k, blocks, gather, r);
    FlattenLength(blocks);
    forall e | 0 <= e < plan.Cells()
      ensures Flatten(blocks)[e] == RS.Total(op, plan, xs, e)
    {
      ScatteredCell(op, plan, xs, scatter, e);
    }
  }

  lemma ScatteredCell<E(!new)>(op: (E, E) -> E, plan: RS.Plan, xs: seq<seq<E>>, scatter: seq<seq<seq<E>>>, e: nat)
    requires Associative(op) && Commutative(op) && RS.Matched(op, plan, xs, scatter) && e < plan.Cells()
    ensures var blocks := Scattered(op, plan, xs, scatter);
      e < |Flatten(blocks)| && Flatten(blocks)[e] == RS.Total(op, plan, xs, e)
  {
    hide Flatten, Sum, RS.Result, RS.Total, RS.Delivered;
    var blocks := Scattered(op, plan, xs, scatter);
    var v := BlockOf(plan.lens, plan.n, e);
    ScatteredBlocks(op, plan, xs, scatter);
    FlattenSlice(blocks, v);
    RS.ReduceScatterCorrect(op, plan, xs, scatter, v);
    var c := e - Sum(plan.lens, v);
    assert Flatten(blocks)[e] == blocks[v][c];
    assert RS.Result(op, plan, v, xs[v], scatter[v])[c] == RS.Total(op, plan, xs, e);
  }

  lemma ScatteredBlocks<E(!new)>(op: (E, E) -> E, plan: RS.Plan, xs: seq<seq<E>>, scatter: seq<seq<seq<E>>>)
    requires Associative(op) && Commutative(op) && RS.Matched(op, plan, xs, scatter)
    ensures Lens(Scattered(op, plan, xs, scatter)) == plan.lens
  {
    forall v | 0 <= v < plan.n
      ensures |Scattered(op, plan, xs, scatter)[v]| == plan.lens[v]
    {
      RS.ReduceScatterCorrect(op, plan, xs, scatter, v);
    }
  }

  /** The block that cell e belongs to. */
  lemma {:induction false} BlockOf(lens: seq<nat>, m: nat, e: nat) returns (v: nat)
    requires m <= |lens| && e < Sum(lens, m)
    ensures v < m && Sum(lens, v) <= e < Sum(lens, v + 1)
  {
    if e < Sum(lens, m - 1) {
      v := BlockOf(lens, m - 1, e);
    } else {
      v := m - 1;
    }
  }

  /** Both paths agree: what rank r has by one is what rank w has by the other, however the blocks were split. */
  lemma PathsAgree<E(!new)>(op: (E, E) -> E, plan: RS.Plan, k: nat, xs: seq<seq<E>>, small: seq<seq<seq<E>>>,
                            scatter: seq<seq<seq<E>>>, gather: seq<seq<seq<E>>>, r: nat, w: nat)
    requires Associative(op) && Commutative(op) && RS.Matched(op, plan, xs, scatter)
    requires r < plan.n && w < plan.n && B.IsRounds(k, plan.n)
    requires AG.Matched(k, Scattered(op, plan, xs, scatter), gather) && AG.Matched(k, xs, small)
    ensures SmallResult(op, plan.n, plan.Cells(), r, xs[r], small[r])
         == LargeResult(op, plan, w, xs[w], scatter[w], gather[w])
  {
    hide SmallResult, LargeResult, Fold;
    SmallCorrect(op, k, xs, plan.Cells(), small, r);
    LargeCorrect(op, plan, k, xs, scatter, gather, w);
  }

  /** Whether an all-reduce of count elements takes the small path. */
  predicate GathersWhole(n: nat, count: nat, typeSize: nat) {
    count < n || count * typeSize < 4096
  }

  /** Every rank ends with the same result, the left fold of all inputs in rank order, on whichever
      path the size selects. */
  lemma AllreduceCorrect<E(!new)>(op: (E, E) -> E, n: nat, k: nat, h: nat, typeSize: nat, count: nat, xs: seq<seq<E>>,
                                  small: seq<seq<seq<E>>>, scatter: seq<seq<seq<E>>>, gather: seq<seq<seq<E>>>, r: nat)
    requires Associative(op) && Commutative(op)
    requires r < n == |xs| && B.IsRounds(k, n) && T.IsGrouping(n, h)
    requires forall v :: 0 <= v < n ==> |xs[v]| == count
    requires GathersWhole(n, count, typeSize) ==> AG.Matched(k, xs, small)
    requires !GathersWhole(n, count, typeSize) ==>
               var plan := RS.Plan(n, h, BlockSplit.Lens(n, count));
               RS.Matched(op, plan, xs, scatter) && AG.Matched(k, Scattered(op, plan, xs, scatter), gather)
    ensures GathersWhole(n, count, typeSize) ==>
              IsReduction(op, xs, count, SmallResult(op, n, count, r, xs[r], small[r]))
    ensures !GathersWhole(n, count, typeSize) ==>
              var plan := RS.Plan(n, h, BlockSplit.Lens(n, count));
              && plan.Cells() == count
              && IsReduction(op, xs, count, LargeResult(op, plan, r, xs[r], scatter[r], gather[r]))
  {
    if GathersWhole(n, count, typeSize) {
      SmallCorrect(op, k, xs, count, small, r);
    } else {
      BlockSplit.SplitCovers(n, count);
      LargeCorrect(op, RS.Plan(n, h, BlockSplit.Lens(n, count)), k, xs, scatter, gather, r);
    }
  }
}
