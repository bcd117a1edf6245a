/** What the recursive-halving reduce-scatter sends and holds, and why rank v ends with block v of the
    reduction of all inputs, each input counted exactly once.

    Rounds are numbered 0 .. k+1. In round 0 the second machine of a pair hands its whole input to the
    leader, rounds 1 .. k are the halving exchanges among the group leaders and lone machines, and in
    round k+1 a leader hands the second machine its block. `got[j]` is what a machine received in
    round j, empty when it received nothing. */
module ReduceScatter {
  import opened Arith
  import opened Blocks
  import opened HalvingTopo
  import opened Peers
  import opened Reduction

  /** The layout of n blocks over 2^k groups. */
  datatype Plan = Plan(n: nat, k: nat, lens: seq<nat>) {
    ghost predicate Valid() {
      IsGrouping(n, k) && |lens| == n
    }

    function Cells(): nat
      requires |lens| == n
    {
      Sum(lens, n)
    }

    /** The first cell of block b. */
    function BlockCell(b: nat): (c: nat)
      requires |lens| == n && b <= n
      ensures c <= Cells()
    {
      SumMono(lens, b, n);
      Sum(lens, b)
    }

    /** The first cell of group g's blocks. */
    function GroupCell(g: nat): (c: nat)
      requires Valid() && g <= Pow2(k)
      ensures c <= Cells()
    {
      NodeOfMono(n, k, g, Pow2(k));
      BlockCell(NodeOf(n, k, g))
    }

    lemma GroupCellMono(a: nat, b: nat)
      requires Valid() && a <= b <= Pow2(k)
      ensures GroupCell(a) <= GroupCell(b)
    {
      NodeOfMono(n, k, a, b);
      NodeOfMono(n, k, b, Pow2(k));
      SumMono(lens, NodeOf(n, k, a), NodeOf(n, k, b));
    }
  }

  /** The contributions merged into the buffer of group g after i halving rounds, in the order the
      reducer met them. */
  function Contributors(n: nat, k: nat, g: nat, i: nat): (c: seq<nat>)
    requires n <= 2 * Pow2(k) && i <= k
    ensures |c| > 0
    decreases i
  {
    if i == 0 then
      if g < Base(n, k) then [NodeOf(n, k, g)] else [NodeOf(n, k, g), NodeOf(n, k, g) + 1]
    else
      Contributors(n, k, g, i - 1) + Contributors(n, k, Partner(g, Distance(k, i - 1)), i - 1)
  }

  /** 1 if machine v exists and its group agrees with g modulo d. */
  function Once(n: nat, k: nat, v: nat, g: nat, d: nat): (c: nat)
    requires n <= 2 * Pow2(k) && d >= 1
  {
    if v < n && GroupOf(n, k, v) % d == g % d then 1 else 0
  }

  /** Which machines have been merged into group g after i rounds, each exactly once. */
  lemma {:induction false} ContributorsOnce(n: nat, k: nat, g: nat, i: nat, v: nat)
    requires IsGrouping(n, k) && i <= k && g < Pow2(k)
    ensures multiset(Contributors(n, k, g, i))[v] ==
            Once(n, k, v, g, Pow2(k - i))
    decreases i
  {
    hide Once, Partner, GroupOf, NodeOf, Base;
    if i == 0 {
      GroupOnce(n, k, g, v);
    } else {
      var d := Distance(k, i - 1);
      var p := Partner(g, d);
      PartnerInvolution(k, i - 1, g);
      ContributorsOnce(n, k, g, i - 1, v);
      ContributorsOnce(n, k, p, i - 1, v);
      MergeOnce(n, k, g, i - 1, v, Pow2(k - (i - 1)), Contributors(n, k, g, i - 1), Contributors(n, k, p, i - 1));
    }
  }

  lemma MergeOnce(n: nat, k: nat, g: nat, i: nat, v: nat, big: nat, mine: seq<nat>, theirs: seq<nat>)
    requires IsGrouping(n, k) && i < k && g < Pow2(k) && big == 2 * Distance(k, i)
    requires multiset(mine)[v] == Once(n, k, v, g, big)
    requires multiset(theirs)[v] == Once(n, k, v, Partner(g, Distance(k, i)), big)
    ensures multiset(mine + theirs)[v] == Once(n, k, v, g, Distance(k, i))
  {
    assert multiset(mine + theirs) == multiset(mine) + multiset(theirs);
    if v < n {
      ResiduesSplit(k, i, g, GroupOf(n, k, v));
    }
  }

  lemma GroupOnce(n: nat, k: nat, g: nat, v: nat)
    requires IsGrouping(n, k) && g < Pow2(k)
    ensures multiset(Contributors(n, k, g, 0))[v] ==
            Once(n, k, v, g, Pow2(k))
  {
    GroupsAndNodes(n, k, g);
    SmallModulo(g, Pow2(k));
    if v < n {
      NodesAndGroups(n, k, v);
      SmallModulo(GroupOf(n, k, v), Pow2(k));
    }
  }

  lemma SmallModulo(x: nat, m: nat)
    requires x < m
    ensures x % m == x
  {
  }

  /** After the last round every machine has contributed exactly once to every group. */
  lemma ContributorsAll(n: nat, k: nat, g: nat)
    requires IsGrouping(n, k) && g < Pow2(k)
    ensures multiset(Contributors(n, k, g, k)) == multiset(Ranks(n))
    ensures InRange(Contributors(n, k, g, k), n)
  {
    var c := Contributors(n, k, g, k);
    forall v: nat
      ensures multiset(c)[v] == multiset(Ranks(n))[v]
    {
      ContributorsOnce(n, k, g, k, v);
      RanksOnce(n, v);
    }
    forall j | 0 <= j < |c|
      ensures c[j] < n
    {
      assert c[j] in multiset(c);
    }
  }

  lemma {:induction false} RanksOnce(n: nat, v: nat)
    ensures multiset(Ranks(n))[v] == if v < n then 1 else 0
  {
    if n == 0 {
    } else {
      RanksOnce(n - 1, v);
      assert Ranks(n) == Ranks(n - 1) + [n - 1];
    }
  }

  /** The buffer of a lone machine or leader after it received `before`: round 0 and the halving rounds
      so far. */
  function Buffer<E>(op: (E, E) -> E, plan: Plan, v: nat, own: seq<E>, before: seq<seq<E>>): (b: seq<E>)
    requires plan.Valid() && v < plan.n
    requires 1 <= |before| <= plan.k + 1
    ensures |b| == |own|
  {
    var i := |before| - 1;
    if i == 0 then
      if TypeOf(plan.n, plan.k, v) == GroupLeader then Combine(op, own, 0, before[0]) else own
    else
      Combine(op, Buffer(op, plan, v, own, before[..i]), RunCell(plan, v, i), before[i])
  }

  /** The cells a machine keeps in halving round i: from RunCell up to RunEnd. */
  function RunCell(plan: Plan, v: nat, i: nat): (c: nat)
    requires plan.Valid() && v < plan.n && 1 <= i <= plan.k
  {
    NodesAndGroups(plan.n, plan.k, v);
    PartnerQuotient(plan.k, i - 1, GroupOf(plan.n, plan.k, v));
    plan.GroupCell(RunStart(GroupOf(plan.n, plan.k, v), Distance(plan.k, i - 1)))
  }

  function RunEnd(plan: Plan, v: nat, i: nat): (c: nat)
    requires plan.Valid() && v < plan.n && 1 <= i <= plan.k
    ensures RunCell(plan, v, i) <= c <= plan.Cells()
  {
    NodesAndGroups(plan.n, plan.k, v);
    PartnerQuotient(plan.k, i - 1, GroupOf(plan.n, plan.k, v));
    var s, d := RunStart(GroupOf(plan.n, plan.k, v), Distance(plan.k, i - 1)), Distance(plan.k, i - 1);
    plan.GroupCellMono(s, s + d);
    plan.GroupCell(s + d)
  }

  /** The machine met in halving round j. */
  function Opposite(plan: Plan, v: nat, j: nat): (p: nat)
    requires plan.Valid() && v < plan.n && 1 <= j <= plan.k
    ensures p < plan.n && TypeOf(plan.n, plan.k, p) != Other
  {
    var g := GroupOf(plan.n, plan.k, v);
    NodesAndGroups(plan.n, plan.k, v);
    PartnerInvolution(plan.k, j - 1, g);
    GroupsAndNodes(plan.n, plan.k, Partner(g, Distance(plan.k, j - 1)));
    NodeOf(plan.n, plan.k, Partner(g, Distance(plan.k, j - 1)))
  }

  function Source(plan: Plan, v: nat, j: nat): (p: Peer)
    requires plan.Valid() && v < plan.n
    ensures p.Machine? ==> p.rank < plan.n
  {
    var t := TypeOf(plan.n, plan.k, v);
    NodesAndGroups(plan.n, plan.k, v);
    if j == 0 then (if t == GroupLeader then Machine(v + 1) else Nobody)
    else if j <= plan.k then (if t != Other then Machine(Opposite(plan, v, j)) else Nobody)
    else if j == plan.k + 1 && t == Other then Machine(v - 1)
    else Nobody
  }

  function Target(plan: Plan, v: nat, j: nat): (p: Peer)
    requires plan.Valid() && v < plan.n
    ensures p.Machine? ==> p.rank < plan.n
  {
    var t := TypeOf(plan.n, plan.k, v);
    NodesAndGroups(plan.n, plan.k, v);
    if j == 0 then (if t == Other then Machine(v - 1) else Nobody)
    else if j <= plan.k then (if t != Other then Machine(Opposite(plan, v, j)) else Nobody)
    else if j == plan.k + 1 && t == GroupLeader then Machine(v + 1)
    else Nobody
  }

  /** What machine v sends in round j, from its input and what it received before. */
  function Message<E>(op: (E, E) -> E, plan: Plan, v: nat, own: seq<E>, before: seq<seq<E>>, j: nat): (m: seq<E>)
    requires plan.Valid() && v < plan.n && |own| == plan.Cells() && |before| == j
  {
    var t := TypeOf(plan.n, plan.k, v);
    if Target(plan, v, j) == Nobody then []
    else if j == 0 then own
    else
      var buf := Buffer(op, plan, v, own, before);
      if j <= plan.k then
        var w := Opposite(plan, v, j);
        buf[RunCell(plan, w, j)..RunEnd(plan, w, j)]
      else
        NodesAndGroups(plan.n, plan.k, v);
        SumMono(plan.lens, v + 1, v + 2);
        buf[plan.BlockCell(v + 1)..plan.BlockCell(v + 2)]
  }

  /** What rank v received in round j is what its peer of that round sent. */
  ghost predicate Delivered<E(!new)>(op: (E, E) -> E, plan: Plan, xs: seq<seq<E>>, got: seq<seq<seq<E>>>, v: nat,
                              j: nat)
    requires Inputs(plan, xs) && Histories(plan, got) && v < plan.n && j <= plan.k + 1
  {
    match Source(plan, v, j)
    case Nobody => got[v][j] == []
    case Machine(p) => got[v][j] == Message(op, plan, p, xs[p], got[p][..j], j)
  }

  ghost predicate Inputs<E>(plan: Plan, xs: seq<seq<E>>) {
    && plan.Valid() && |xs| == plan.n
    && forall v {:trigger xs[v]} :: 0 <= v < plan.n ==> |xs[v]| == plan.Cells()
  }

  ghost predicate Histories<E>(plan: Plan, got: seq<seq<seq<E>>>) {
    |got| == plan.n && forall v {:trigger got[v]} :: 0 <= v < plan.n ==> |got[v]| == plan.k + 2
  }

  ghost predicate Matched<E(!new)>(op: (E, E) -> E, plan: Plan, xs: seq<seq<E>>, got: seq<seq<seq<E>>>) {
    && Inputs(plan, xs) && Histories(plan, got)
    && forall v, j {:trigger Delivered(op, plan, xs, got, v, j)} :: 0 <= v < plan.n && 0 <= j <= plan.k + 1 ==>
         Delivered(op, plan, xs, got, v, j)
  }

  /** The block a machine ends with. */
  function Result<E>(op: (E, E) -> E, plan: Plan, v: nat, own: seq<E>, got: seq<seq<E>>): seq<E>
    requires plan.Valid() && v < plan.n && |own| == plan.Cells() && |got| == plan.k + 2
  {
    if TypeOf(plan.n, plan.k, v) == Other then got[plan.k + 1]
    else
      SumMono(plan.lens, v, v + 1);
      Buffer(op, plan, v, own, got[..plan.k + 1])[plan.BlockCell(v)..plan.BlockCell(v + 1)]
  }

  /** The reduction, over all machines in rank order, of their values at cell e. */
  function Total<E>(op: (E, E) -> E, plan: Plan, xs: seq<seq<E>>, e: nat): E
    requires Inputs(plan, xs) && e < plan.Cells()
    requires plan.n > 0
  {
    Fold(op, Column(xs, e), Ranks(plan.n))
  }

  /** Cell e lies in the aligned run of `size` groups around group g. */
  ghost predicate InRun(plan: Plan, g: nat, size: nat, e: nat)
    requires plan.Valid() && g < Pow2(plan.k) && size >= 1
  {
    var s := RunStart(g, size);
    s + size <= Pow2(plan.k) && plan.GroupCell(s) <= e < plan.GroupCell(s + size)
  }

  lemma RunShrinks(plan: Plan, g: nat, i: nat, big: nat, e: nat)
    requires plan.Valid() && g < Pow2(plan.k) && i < plan.k
    requires big == 2 * Distance(plan.k, i) && InRun(plan, g, Distance(plan.k, i), e)
    ensures Partner(g, Distance(plan.k, i)) < Pow2(plan.k)
    ensures InRun(plan, g, big, e) && InRun(plan, Partner(g, Distance(plan.k, i)), big, e)
  {
    var d := Distance(plan.k, i);
    PartnerInvolution(plan.k, i, g);
    RunsTile(plan.k, i, g);
    RunsTile(plan.k, i, Partner(g, d));
    RunGrows(plan, g, d, e);
    assert RunStart(g, big) == RunStart(Partner(g, d), big);
  }

  lemma RunGrows(plan: Plan, g: nat, d: nat, e: nat)
    requires plan.Valid() && g < Pow2(plan.k) && d >= 1
    requires RunStart(g, 2 * d) <= RunStart(g, d) <= RunStart(g, 2 * d) + d
    requires RunStart(g, 2 * d) + 2 * d <= Pow2(plan.k)
    requires InRun(plan, g, d, e)
    ensures InRun(plan, g, 2 * d, e)
  {
    var whole, part := RunStart(g, 2 * d), RunStart(g, d);
    plan.GroupCellMono(whole, part);
    plan.GroupCellMono(part + d, whole + 2 * d);
  }

  /** Before the halving rounds a lone machine holds its input and a leader the pair's two inputs reduced. */
  lemma HoldsOwn<E(!new)>(op: (E, E) -> E, plan: Plan, xs: seq<seq<E>>, got: seq<seq<seq<E>>>, g: nat, e: nat)
    requires Matched(op, plan, xs, got)
    requires g < Pow2(plan.k) && e < plan.Cells()
    ensures var v := NodeOf(plan.n, plan.k, g);
      var c := Contributors(plan.n, plan.k, g, 0);
      && v < plan.n && InRange(c, plan.n)
      && Buffer(op, plan, v, xs[v], got[v][..1])[e] == Fold(op, Column(xs, e), c)
  {
    var v := NodeOf(plan.n, plan.k, g);
    GroupsAndNodes(plan.n, plan.k, g);
    NodesAndGroups(plan.n, plan.k, v);
    assert Delivered(op, plan, xs, got, v, 0);
    var x := Column(xs, e);
    FoldOne(op, x, v);
    if TypeOf(plan.n, plan.k, v) == GroupLeader {
      assert [v, v + 1] == [v] + [v + 1];
      assert [v, v + 1][..1] == [v];
    }
  }

  lemma BufferStep<E>(op: (E, E) -> E, plan: Plan, v: nat, own: seq<E>, got: seq<seq<E>>, j: nat)
    requires plan.Valid() && v < plan.n && 1 <= j <= plan.k && j < |got|
    ensures Buffer(op, plan, v, own, got[..j + 1]) ==
            Combine(op, Buffer(op, plan, v, own, got[..j]), RunCell(plan, v, j), got[j])
  {
    assert got[..j + 1][..j] == got[..j];
  }

  /** What a group receives in a halving round is the part of its partner's buffer over its own run. */
  lemma RoundMessage<E(!new)>(op: (E, E) -> E, plan: Plan, xs: seq<seq<E>>, got: seq<seq<seq<E>>>, v: nat, j: nat)
    requires Matched(op, plan, xs, got)
    requires v < plan.n && TypeOf(plan.n, plan.k, v) != Other && 1 <= j <= plan.k
    ensures var w := Opposite(plan, v, j);
      got[v][j] == Buffer(op, plan, w, xs[w], got[w][..j])[RunCell(plan, v, j)..RunEnd(plan, v, j)]
  {
    assert Delivered(op, plan, xs, got, v, j);
    OppositeInverse(plan, v, j);
  }

  lemma InRunCells(plan: Plan, g: nat, j: nat, e: nat)
    requires plan.Valid() && g < Pow2(plan.k) && 1 <= j <= plan.k && InRun(plan, g, Distance(plan.k, j - 1), e)
    ensures var v := NodeOf(plan.n, plan.k, g);
      && v < plan.n && TypeOf(plan.n, plan.k, v) != Other
      && RunCell(plan, v, j) <= e < RunEnd(plan, v, j)
      && Partner(g, Distance(plan.k, j - 1)) < Pow2(plan.k)
      && Opposite(plan, v, j) == NodeOf(plan.n, plan.k, Partner(g, Distance(plan.k, j - 1)))
  {
    GroupsAndNodes(plan.n, plan.k, g);
    PartnerInvolution(plan.k, j - 1, g);
  }

  /** One halving round at a cell the machine keeps: its value meets its partner's. */
  lemma RoundAt<E(!new)>(op: (E, E) -> E, plan: Plan, xs: seq<seq<E>>, got: seq<seq<seq<E>>>, g: nat, j: nat, e: nat)
    requires Matched(op, plan, xs, got)
    requires g < Pow2(plan.k) && 1 <= j <= plan.k && InRun(plan, g, Distance(plan.k, j - 1), e)
    ensures var p := Partner(g, Distance(plan.k, j - 1));
      && p < Pow2(plan.k)
      && ValueAt(op, plan, xs, got, g, j, e) ==
         op(ValueAt(op, plan, xs, got, g, j - 1, e), ValueAt(op, plan, xs, got, p, j - 1, e))
  {
    InRunCells(plan, g, j, e);
    var v := NodeOf(plan.n, plan.k, g);
    RoundMessage(op, plan, xs, got, v, j);
    BufferStep(op, plan, v, xs[v], got[v], j);
  }

  /** The value at cell e of the buffer of group g's leader after j halving rounds. */
  ghost function ValueAt<E(!new)>(op: (E, E) -> E, plan: Plan, xs: seq<seq<E>>, got: seq<seq<seq<E>>>,
                                  g: nat, j: nat, e: nat): E
    requires Inputs(plan, xs) && Histories(plan, got)
    requires g < Pow2(plan.k) && j <= plan.k && e < plan.Cells()
  {
    GroupsAndNodes(plan.n, plan.k, g);
    var v := NodeOf(plan.n, plan.k, g);
    Buffer(op, plan, v, xs[v], got[v][..j + 1])[e]
  }

  ghost predicate IsPartial<E(!new)>(op: (E, E) -> E, plan: Plan, xs: seq<seq<E>>, got: seq<seq<seq<E>>>,
                                     g: nat, i: nat, e: nat)
    requires Inputs(plan, xs) && Histories(plan, got)
    requires g < Pow2(plan.k) && i <= plan.k && e < plan.Cells()
  {
    var c := Contributors(plan.n, plan.k, g, i);
    InRange(c, plan.n) && ValueAt(op, plan, xs, got, g, i, e) == Fold(op, Column(xs, e), c)
  }

  lemma PartialStep<E(!new)>(op: (E, E) -> E, plan: Plan, xs: seq<seq<E>>, got: seq<seq<seq<E>>>, g: nat, j: nat,
                      e: nat)
    requires Associative(op) && Matched(op, plan, xs, got)
    requires g < Pow2(plan.k) && 1 <= j <= plan.k && InRun(plan, g, Distance(plan.k, j - 1), e)
    requires Partner(g, Distance(plan.k, j - 1)) < Pow2(plan.k)
    requires IsPartial(op, plan, xs, got, g, j - 1, e)
    requires IsPartial(op, plan, xs, got, Partner(g, Distance(plan.k, j - 1)), j - 1, e)
    ensures IsPartial(op, plan, xs, got, g, j, e)
  {
    RoundAt(op, plan, xs, got, g, j, e);
    var p := Partner(g, Distance(plan.k, j - 1));
    FoldConcat(op, Column(xs, e), Contributors(plan.n, plan.k, g, j - 1), Contributors(plan.n, plan.k, p, j - 1));
  }

  lemma OwnIsPartial<E(!new)>(op: (E, E) -> E, plan: Plan, xs: seq<seq<E>>, got: seq<seq<seq<E>>>, g: nat, e: nat)
    requires Matched(op, plan, xs, got) && g < Pow2(plan.k) && e < plan.Cells()
    ensures IsPartial(op, plan, xs, got, g, 0, e)
  {
    HoldsOwn(op, plan, xs, got, g, e);
  }

  /** After i rounds group g's buffer holds, at every cell of its run, the reduction of exactly the
      machines merged into it. */
  lemma {:induction false} HoldsPartial<E(!new)>(op: (E, E) -> E, plan: Plan, xs: seq<seq<E>>,
                                           got: seq<seq<seq<E>>>, g: nat, i: nat, size: nat, e: nat)
    requires Associative(op) && Matched(op, plan, xs, got)
    requires g < Pow2(plan.k) && i <= plan.k && e < plan.Cells()
    requires size == Pow2(plan.k - i) && InRun(plan, g, size, e)
    ensures IsPartial(op, plan, xs, got, g, i, e)
    decreases i
  {
    hide IsPartial, InRun, Partner;
    if i == 0 {
      OwnIsPartial(op, plan, xs, got, g, e);
    } else {
      var big, p := Pow2(plan.k - (i - 1)), Partner(g, Distance(plan.k, i - 1));
      RunShrinks(plan, g, i - 1, big, e);
      HoldsPartial(op, plan, xs, got, g, i - 1, big, e);
      HoldsPartial(op, plan, xs, got, p, i - 1, big, e);
      PartialStep(op, plan, xs, got, g, i, e);
    }
  }

  /** At the end group g's buffer holds, at every cell of its blocks, the reduction of all inputs. */
  lemma HoldsTotal<E(!new)>(op: (E, E) -> E, plan: Plan, xs: seq<seq<E>>, got: seq<seq<seq<E>>>, g: nat, e: nat)
    requires Associative(op) && Commutative(op) && Matched(op, plan, xs, got)
    requires g < Pow2(plan.k) && plan.GroupCell(g) <= e < plan.GroupCell(g + 1)
    ensures ValueAt(op, plan, xs, got, g, plan.k, e) == Total(op, plan, xs, e)
  {
    assert RunStart(g, 1) == g;
    HoldsPartial(op, plan, xs, got, g, plan.k, 1, e);
    ContributorsAll(plan.n, plan.k, g);
    FoldPermutation(op, Column(xs, e), Contributors(plan.n, plan.k, g, plan.k), Ranks(plan.n));
  }

  /** The block of the leading machine is part of its group's buffer; that of the second machine of a
      pair is what its leader hands over. */
  lemma ResultIsBuffer<E(!new)>(op: (E, E) -> E, plan: Plan, xs: seq<seq<E>>, got: seq<seq<seq<E>>>, v: nat)
    requires Matched(op, plan, xs, got) && v < plan.n
    ensures var g := GroupOf(plan.n, plan.k, v);
      && g < Pow2(plan.k)
      && var lead := NodeOf(plan.n, plan.k, g);
      && lead < plan.n
      && plan.GroupCell(g) <= plan.BlockCell(v) <= plan.BlockCell(v + 1) <= plan.GroupCell(g + 1)
      && Result(op, plan, v, xs[v], got[v]) ==
         Buffer(op, plan, lead, xs[lead], got[lead][..plan.k + 1])[plan.BlockCell(v)..plan.BlockCell(v + 1)]
  {
    hide GroupOf, NodeOf, TypeOf, Base, Buffer, Opposite, RunCell, RunEnd, Sum;
    BlockInGroup(plan, v);
    NodesAndGroups(plan.n, plan.k, v);
    if TypeOf(plan.n, plan.k, v) == Other {
      assert Delivered(op, plan, xs, got, v, plan.k + 1);
      assert Source(plan, v, plan.k + 1) == Machine(v - 1);
    }
  }

  /** The cells of a machine's block lie among those of its group. */
  lemma BlockInGroup(plan: Plan, v: nat)
    requires plan.Valid() && v < plan.n
    ensures var g := GroupOf(plan.n, plan.k, v);
      && g < Pow2(plan.k) && NodeOf(plan.n, plan.k, g) < plan.n
      && plan.GroupCell(g) <= plan.BlockCell(v) <= plan.BlockCell(v + 1) <= plan.GroupCell(g + 1)
  {
    hide GroupOf, NodeOf, TypeOf, Base, Sum;
    var g := GroupOf(plan.n, plan.k, v);
    NodesAndGroups(plan.n, plan.k, v);
    GroupsAndNodes(plan.n, plan.k, g);
    SumMono(plan.lens, NodeOf(plan.n, plan.k, g), v);
    SumMono(plan.lens, v, v + 1);
    SumMono(plan.lens, v + 1, NodeOf(plan.n, plan.k, g + 1));
  }

  /** For every machine count, every list of block lengths and every associative and commutative
      reducer: rank v ends with block v of the reduction of all inputs. */
  lemma ReduceScatterCorrect<E(!new)>(op: (E, E) -> E, plan: Plan, xs: seq<seq<E>>, got: seq<seq<seq<E>>>, v: nat)
    requires Associative(op) && Commutative(op) && Matched(op, plan, xs, got)
    requires v < plan.n
    ensures |Result(op, plan, v, xs[v], got[v])| == plan.lens[v]
    ensures plan.BlockCell(v) + plan.lens[v] == plan.BlockCell(v + 1)
    ensures forall c {:trigger Result(op, plan, v, xs[v], got[v])[c]} :: 0 <= c < plan.lens[v] ==>
              Result(op, plan, v, xs[v], got[v])[c] == Total(op, plan, xs, plan.BlockCell(v) + c)
  {
    hide Buffer, Delivered, Total, Message, Source, Contributors;
    ResultIsBuffer(op, plan, xs, got, v);
    var r := Result(op, plan, v, xs[v], got[v]);
    forall c | 0 <= c < plan.lens[v]
      ensures r[c] == Total(op, plan, xs, plan.BlockCell(v) + c)
    {
      HoldsTotal(op, plan, xs, got, GroupOf(plan.n, plan.k, v), plan.BlockCell(v) + c);
    }
  }

  /** In every round the source and target relations are inverse: whoever waits for a machine is sent to
      by it in that round, and the other way round. */
  lemma SourcesAreTargets(plan: Plan, v: nat, w: nat, j: nat)
    requires plan.Valid() && v < plan.n && w < plan.n
    ensures Source(plan, v, j) == Machine(w) <==> Target(plan, w, j) == Machine(v)
    ensures Source(plan, v, j) != Machine(v)
  {
    NodesAndGroups(plan.n, plan.k, v);
    NodesAndGroups(plan.n, plan.k, w);
    if 1 <= j <= plan.k {
      OppositeInverse(plan, v, j);
      OppositeInverse(plan, w, j);
    }
  }

  lemma OppositeInverse(plan: Plan, v: nat, j: nat)
    requires plan.Valid() && v < plan.n && 1 <= j <= plan.k
    ensures TypeOf(plan.n, plan.k, v) != Other ==>
              Opposite(plan, v, j) != v && Opposite(plan, Opposite(plan, v, j), j) == v
  {
    var g := GroupOf(plan.n, plan.k, v);
    NodesAndGroups(plan.n, plan.k, v);
    PartnerInvolution(plan.k, j - 1, g);
    GroupsAndNodes(plan.n, plan.k, Partner(g, Distance(plan.k, j - 1)));
  }

  /** Cells machine v waits for in round j. */
  function Awaited(plan: Plan, v: nat, j: nat): (c: nat)
    requires plan.Valid() && v < plan.n
  {
    match Source(plan, v, j)
    case Nobody => 0
    case Machine(_) =>
      if j == 0 then plan.Cells()
      else if j <= plan.k then RunEnd(plan, v, j) - RunCell(plan, v, j)
      else plan.lens[v]
  }

  /** The cells sent to a machine in a round are as many as it waits for, whatever was received before. */
  lemma MessageLength<E>(op: (E, E) -> E, plan: Plan, v: nat, own: seq<E>, before: seq<seq<E>>, j: nat)
    requires plan.Valid() && v < plan.n && |own| == plan.Cells() && |before| == j
    ensures match Target(plan, v, j)
      case Nobody => true
      case Machine(w) => |Message(op, plan, v, own, before, j)| == Awaited(plan, w, j)
  {
    match Target(plan, v, j)
    case Nobody =>
    case Machine(w) =>
      SourcesAreTargets(plan, w, v, j);
      if 1 <= j <= plan.k {
        OppositeInverse(plan, v, j);
      } else if j == plan.k + 1 {
        assert plan.BlockCell(v + 2) == plan.BlockCell(v + 1) + plan.lens[v + 1];
      }
  }

  /** The cells a machine keeps in a round, from the block numbers of its group's run. */
  lemma RunCells(plan: Plan, v: nat, j: nat)
    requires plan.Valid() && v < plan.n && 1 <= j <= plan.k
    ensures var d := Distance(plan.k, j - 1);
      var s := RunStart(GroupOf(plan.n, plan.k, v), d);
      && NodeOf(plan.n, plan.k, s) < NodeOf(plan.n, plan.k, s + d) <= plan.n
      && Sum(plan.lens, NodeOf(plan.n, plan.k, s)) == RunCell(plan, v, j)
      && Sum(plan.lens, NodeOf(plan.n, plan.k, s + d)) == RunEnd(plan, v, j)
  {
    hide Partner, RunStart, GroupOf, TypeOf, Sum;
    var g, d := GroupOf(plan.n, plan.k, v), Distance(plan.k, j - 1);
    NodesAndGroups(plan.n, plan.k, v);
    PartnerQuotient(plan.k, j - 1, g);
    NodeOfEnd(plan.n, plan.k);
    NodeOfMono(plan.n, plan.k, RunStart(g, d) + d, Pow2(plan.k));
  }
}
