/** The communication schedule of the Bruck all-gather. */
module BruckMap {
  import opened Arith
  import opened Blocks

  datatype Map = Map(k: nat, inRanks: seq<nat>, outRanks: seq<nat>)

  /** k rounds reach n machines, and k - 1 do not. */
  ghost predicate IsRounds(k: nat, n: nat)
  {
    n <= Pow2(k) && (k > 0 ==> Pow2(k - 1) < n)
  }

  function InRank(n: nat, rank: nat, i: nat): (p: nat)
    requires n > 0
  {
    (rank + Pow2(i)) % n
  }

  /** In the rounds that are run, Pow2(i) < n, so the operand of % is not negative. */
  function OutRank(n: nat, rank: nat, i: nat): (p: nat)
    requires n > 0
  {
    (rank - Pow2(i) + n) % n
  }

  ghost predicate IsMap(m: Map, n: nat, rank: nat)
    requires n > 0
  {
    && IsRounds(m.k, n)
    && |m.inRanks| == |m.outRanks| == m.k
    && (forall j :: 0 <= j < m.k ==> m.inRanks[j] == InRank(n, rank, j) && m.outRanks[j] == OutRank(n, rank, j))
  }

  method Construct(rank: nat, numMachines: nat) returns (m: Map)
    requires rank < numMachines
    ensures IsMap(m, numMachines, rank)
  {
    var distance: seq<nat> := [];
    var k := 0;
    while Pow2(k) < numMachines
      invariant |distance| == k
      invariant forall j {:trigger distance[j]} :: 0 <= j < k ==> distance[j] == Pow2(j)
      invariant k > 0 ==> Pow2(k - 1) < numMachines
    {
      distance := distance + [Pow2(k)];
      k := k + 1;
    }
    var inRanks, outRanks := [], [];
    for j := 0 to k
      invariant |inRanks| == |outRanks| == j
      invariant forall i {:trigger inRanks[i]} :: 0 <= i < j ==> inRanks[i] == InRank(numMachines, rank, i)
      invariant forall i {:trigger outRanks[i]} :: 0 <= i < j ==> outRanks[i] == OutRank(numMachines, rank, i)
    {
      Pow2Mono(j, k - 1);
      var inRank := (rank + distance[j]) % numMachines;
      var outRank := (rank - distance[j] + numMachines) % numMachines;
      assert inRank == InRank(numMachines, rank, j);
      assert outRank == OutRank(numMachines, rank, j);
      inRanks, outRanks := inRanks + [inRank], outRanks + [outRank];
    }
    m := Map(k, inRanks, outRanks);
  }

  /** Blocks held at the start of round i. */
  function Held(n: nat, i: nat): nat
  {
    if Pow2(i) < n then Pow2(i) else n
  }

  /** Blocks moved in round i. */
  function Moved(n: nat, i: nat): nat
  {
    Held(n, i + 1) - Held(n, i)
  }

  /** The rank a machine receives from in a round sends to that machine in that round, and the
      other way round: in each round the two relations are inverse permutations of the ranks. */
  lemma InOutInverse(n: nat, r: nat, i: nat)
    requires r < n && Pow2(i) < n
    ensures InRank(n, r, i) < n && OutRank(n, r, i) < n
    ensures InRank(n, r, i) != r
    ensures OutRank(n, InRank(n, r, i), i) == r
    ensures InRank(n, OutRank(n, r, i), i) == r
  {
    WrapOnce(r + Pow2(i), n);
    WrapOnce(r + n - Pow2(i), n);
    WrapOnce(InRank(n, r, i) + n - Pow2(i), n);
    WrapOnce(OutRank(n, r, i) + Pow2(i), n);
  }

  /** A machine never meets the same peer twice in one direction. */
  lemma PeersDistinct(n: nat, r: nat, i: nat, j: nat)
    requires r < n && i < j && Pow2(j) < n
    ensures InRank(n, r, i) != InRank(n, r, j)
  {
    Pow2Mono(i, j);
    WrapOnce(r + Pow2(i), n);
    WrapOnce(r + Pow2(j), n);
  }

  /** The cells sent to a peer in round i are as many as that peer waits for. */
  lemma CountsMatch(lens: seq<nat>, r: nat, i: nat)
    requires r < |lens| && Pow2(i) < |lens|
    ensures var n := |lens|;
      var p := OutRank(n, r, i);
      && p < n
      && RingSum(lens, r, Moved(n, i)) == RingSum(lens, (p + Held(n, i)) % n, Moved(n, i))
  {
    InOutInverse(|lens|, r, i);
  }
}
