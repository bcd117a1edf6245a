/** Construction of one machine's recursive-halving map, and the duality of the maps of all machines. */
module HalvingMap {
  import opened Arith
  import opened HalvingTopo

  /** One exchange: with whom, and the block ranges given away and kept. */
  datatype Round = Round(rank: nat, sendStart: nat, sendLen: nat, recvStart: nat, recvLen: nat)

  datatype Map = Map(k: nat, nodeType: NodeType, neighbor: int, rounds: seq<Round>)

  /** Round i of the machine leading group g, in closed form. */
  ghost predicate IsRound(rd: Round, n: nat, k: nat, g: nat, i: nat)
    requires IsGrouping(n, k) && i < k
  {
    var d := Distance(k, i);
    var p := Partner(g, d);
    && rd.rank == NodeOf(n, k, p)
    && rd.recvStart == NodeOf(n, k, RunStart(g, d))
    && rd.recvStart + rd.recvLen == NodeOf(n, k, RunStart(g, d) + d)
    && rd.sendStart == NodeOf(n, k, RunStart(p, d))
    && rd.sendStart + rd.sendLen == NodeOf(n, k, RunStart(p, d) + d)
  }

  ghost predicate AreRounds(rounds: seq<Round>, n: nat, k: nat, g: nat)
    requires IsGrouping(n, k) && |rounds| <= k
  {
    forall i {:trigger rounds[i]} :: 0 <= i < |rounds| ==> IsRound(rounds[i], n, k, g, i)
  }

  ghost predicate IsMap(m: Map, n: nat, rank: nat)
  {
    && IsGrouping(n, m.k) && rank < n
    && m.nodeType == TypeOf(n, m.k, rank)
    && (m.nodeType == GroupLeader ==> m.neighbor == rank + 1)
    && (m.nodeType == Other ==> m.neighbor == rank - 1)
    && (m.nodeType != Other ==> |m.rounds| == m.k && AreRounds(m.rounds, n, m.k, GroupOf(n, m.k, rank)))
  }

  method Distances(numMachines: nat) returns (k: nat, distance: seq<nat>)
    requires numMachines > 0
    ensures IsGrouping(numMachines, k)
    ensures |distance| == k
    ensures forall i {:trigger distance[i]} :: 0 <= i < k ==> distance[i] == Distance(k, i)
  {
    k := 0;
    while Pow2(k) <= numMachines
      invariant k > 0 ==> Pow2(k - 1) <= numMachines
      decreases numMachines + 1 - Pow2(k)
    {
      k := k + 1;
    }
    k := k - 1;
    distance := [];
    for i := 0 to k
      invariant |distance| == i
      invariant forall j {:trigger distance[j]} :: 0 <= j < i ==> distance[j] == Distance(k, j)
    {
      distance := distance + [Pow2(k - 1 - i)];
    }
  }

  /** The tables of the grouped case: machines to groups and back, and the groups' blocks. */
  datatype Tables = Tables(nodeType: seq<NodeType>, groupToNode: seq<nat>, nodeToGroup: seq<nat>,
                           groupBlockStart: seq<nat>, groupBlockLen: seq<nat>)

  ghost predicate IsTables(t: Tables, n: nat, k: nat)
  {
    && IsGrouping(n, k)
    && |t.nodeType| == |t.nodeToGroup| == n
    && |t.groupToNode| == |t.groupBlockStart| == |t.groupBlockLen| == Pow2(k)
    && (forall v {:trigger t.nodeType[v]} :: 0 <= v < n ==> t.nodeType[v] == TypeOf(n, k, v))
    && (forall v {:trigger t.nodeToGroup[v]} :: 0 <= v < n ==> t.nodeToGroup[v] == GroupOf(n, k, v))
    && (forall g {:trigger t.groupToNode[g]} :: 0 <= g < Pow2(k) ==> t.groupToNode[g] == NodeOf(n, k, g))
    && (forall g {:trigger t.groupBlockStart[g]} :: 0 <= g < Pow2(k) ==> t.groupBlockStart[g] == NodeOf(n, k, g))
    && (forall g {:trigger t.groupBlockLen[g]} :: 0 <= g < Pow2(k) ==>
          t.groupBlockLen[g] == NodeOf(n, k, g + 1) - NodeOf(n, k, g))
  }

  method NodeTypes(n: nat, k: nat) returns (nodeType: seq<NodeType>)
    requires IsGrouping(n, k)
    ensures |nodeType| == n
    ensures forall v {:trigger nodeType[v]} :: 0 <= v < n ==> nodeType[v] == TypeOf(n, k, v)
  {
    var rest := n - Pow2(k);
    nodeType := seq(n, _ => Normal);
    for i := 0 to rest
      invariant |nodeType| == n
      invariant forall v {:trigger nodeType[v]} :: 0 <= v < n - 2 * i ==> nodeType[v] == Normal
      invariant forall v {:trigger nodeType[v]} :: n - 2 * i <= v < n ==> nodeType[v] == TypeOf(n, k, v)
    {
      var right, left := n - i * 2 - 1, n - i * 2 - 2;
      nodeType := nodeType[left := GroupLeader];
      nodeType := nodeType[right := Other];
    }
  }

  /** Groups met when the first i machines have been scanned. */
  function GroupsSeen(n: nat, k: nat, i: nat): nat
    requires n <= 2 * Pow2(k)
  {
    if i <= Base(n, k) then i else Base(n, k) + (i - Base(n, k) + 1) / 2
  }

  function LenSeen(n: nat, k: nat, i: nat, g: nat): int
    requires n <= 2 * Pow2(k)
  {
    if g >= GroupsSeen(n, k, i) then 0
    else (if NodeOf(n, k, g + 1) <= i then NodeOf(n, k, g + 1) else i) - NodeOf(n, k, g)
  }

  /** Scanning machine i opens a group unless the machine is led by the one before, and adds a block
      to the last open group. */
  lemma ScanStep(n: nat, k: nat, i: nat)
    requires IsGrouping(n, k) && i < n
    ensures GroupsSeen(n, k, i + 1) == GroupsSeen(n, k, i) + if TypeOf(n, k, i) == Other then 0 else 1
    ensures GroupOf(n, k, i) == GroupsSeen(n, k, i + 1) - 1 < Pow2(k)
    ensures TypeOf(n, k, i) != Other ==> NodeOf(n, k, GroupsSeen(n, k, i)) == i
    ensures forall g {:trigger LenSeen(n, k, i + 1, g)} :: 0 <= g < Pow2(k) ==>
              LenSeen(n, k, i + 1, g) == LenSeen(n, k, i, g) + if g == GroupOf(n, k, i) then 1 else 0
  {
  }

  /** Before the scan no machine is seen, after it every group and all its machines are. */
  lemma ScanEnds(n: nat, k: nat)
    requires IsGrouping(n, k)
    ensures GroupsSeen(n, k, 0) == 0 && GroupsSeen(n, k, n) == Pow2(k)
    ensures forall g {:trigger LenSeen(n, k, 0, g)} :: 0 <= g < Pow2(k) ==> LenSeen(n, k, 0, g) == 0
    ensures forall g {:trigger LenSeen(n, k, n, g)} :: 0 <= g < Pow2(k) ==>
              LenSeen(n, k, n, g) == NodeOf(n, k, g + 1) - NodeOf(n, k, g)
  {
  }

  method ScanMachines(n: nat, k: nat, nodeType: seq<NodeType>)
    returns (groupToNode: seq<nat>, nodeToGroup: seq<nat>, groupBlockLen: seq<nat>)
    requires IsGrouping(n, k)
    requires |nodeType| == n
    requires forall v {:trigger nodeType[v]} :: 0 <= v < n ==> nodeType[v] == TypeOf(n, k, v)
    ensures |nodeToGroup| == n && |groupToNode| == |groupBlockLen| == Pow2(k)
    ensures forall v {:trigger nodeToGroup[v]} :: 0 <= v < n ==> nodeToGroup[v] == GroupOf(n, k, v)
    ensures forall g {:trigger groupToNode[g]} :: 0 <= g < Pow2(k) ==> groupToNode[g] == NodeOf(n, k, g)
    ensures forall g {:trigger groupBlockLen[g]} :: 0 <= g < Pow2(k) ==>
              groupBlockLen[g] == NodeOf(n, k, g + 1) - NodeOf(n, k, g)
  {
    hide GroupOf, NodeOf, TypeOf, GroupsSeen, LenSeen;
    ScanEnds(n, k);
    var groupCnt := 0;
    groupBlockLen := seq(Pow2(k), _ => 0);
    groupToNode := seq(Pow2(k), _ => 0);
    nodeToGroup := seq(n, _ => 0);
    for i := 0 to n
      invariant groupCnt == GroupsSeen(n, k, i) <= Pow2(k)
      invariant |nodeToGroup| == n && |groupToNode| == |groupBlockLen| == Pow2(k)
      invariant forall v {:trigger nodeToGroup[v]} :: 0 <= v < i ==> nodeToGroup[v] == GroupOf(n, k, v)
      invariant forall g {:trigger groupToNode[g]} :: 0 <= g < groupCnt ==> groupToNode[g] == NodeOf(n, k, g)
      invariant forall g {:trigger groupBlockLen[g]} :: 0 <= g < Pow2(k) ==> groupBlockLen[g] == LenSeen(n, k, i, g)
    {
      ScanStep(n, k, i);
      if nodeType[i] == Normal || nodeType[i] == GroupLeader {
        groupToNode := groupToNode[groupCnt := i];
        groupCnt := groupCnt + 1;
      }
      nodeToGroup := nodeToGroup[i := groupCnt - 1];
      groupBlockLen := groupBlockLen[groupCnt - 1 := groupBlockLen[groupCnt - 1] + 1];
    }
  }

  method BuildTables(n: nat, k: nat) returns (t: Tables)
    requires IsGrouping(n, k)
    ensures IsTables(t, n, k)
  {
    var nodeType := NodeTypes(n, k);
    var groupToNode, nodeToGroup, groupBlockLen := ScanMachines(n, k, nodeType);
    var groupBlockStart := [0];
    for i := 1 to Pow2(k)
      invariant |groupBlockStart| == i
      invariant forall g {:trigger groupBlockStart[g]} :: 0 <= g < i ==> groupBlockStart[g] == NodeOf(n, k, g)
    {
      groupBlockStart := groupBlockStart + [groupBlockStart[i - 1] + groupBlockLen[i - 1]];
    }
    t := Tables(nodeType, groupToNode, nodeToGroup, groupBlockStart, groupBlockLen);
  }

  /** Adds up the block counts of d groups from group s on. */
  method RunLength(t: Tables, ghost n: nat, ghost k: nat, s: nat, d: nat) returns (len: nat)
    requires IsTables(t, n, k) && s + d <= Pow2(k)
    ensures NodeOf(n, k, s) + len == NodeOf(n, k, s + d)
  {
    len := 0;
    for j := 0 to d
      invariant NodeOf(n, k, s) + len == NodeOf(n, k, s + j)
    {
      len := len + t.groupBlockLen[s + j];
    }
  }

  method Construct(rank: nat, numMachines: nat) returns (m: Map)
    requires rank < numMachines
    ensures IsMap(m, numMachines, rank)
  {
    var k, distance := Distances(numMachines);
    if Pow2(k) == numMachines {
      m := ConstructUngrouped(rank, k, distance);
    } else {
      m := ConstructGrouped(rank, numMachines, k, distance);
    }
  }

  method ConstructUngrouped(rank: nat, k: nat, distance: seq<nat>) returns (m: Map)
    requires rank < Pow2(k) && |distance| == k
    requires forall i {:trigger distance[i]} :: 0 <= i < k ==> distance[i] == Distance(k, i)
    ensures IsMap(m, Pow2(k), rank)
  {
    var rounds: seq<Round> := [];
    for i := 0 to k
      invariant |rounds| == i
      invariant AreRounds(rounds, Pow2(k), k, rank)
    {
      var d := distance[i];
      PartnerQuotient(k, i, rank);
      var dir: int := if (rank / d) % 2 == 0 then 1 else -1;
      var next := rank + dir * d;
      var recvBlockStart, sendBlockStart := (rank / d) * d, (next / d) * d;
      assert recvBlockStart == RunStart(rank, d) && sendBlockStart == RunStart(next, d);
      var rd := Round(next, sendBlockStart, d, recvBlockStart, d);
      assert IsRound(rd, Pow2(k), k, rank, i);
      rounds := rounds + [rd];
    }
    m := Map(k, Normal, -1, rounds);
  }

  method GroupRound(t: Tables, ghost n: nat, ghost k: nat, g: nat, ghost i: nat, d: nat) returns (rd: Round)
    requires IsTables(t, n, k) && g < Pow2(k) && i < k && d == Distance(k, i)
    ensures IsRound(rd, n, k, g, i)
  {
    PartnerQuotient(k, i, g);
    var dir: int := if (g / d) % 2 == 0 then 1 else -1;
    var next := g + dir * d;
    assert next == Partner(g, d);
    var recvBlockStart, sendBlockStart := (g / d) * d, (next / d) * d;
    assert recvBlockStart == RunStart(g, d) && sendBlockStart == RunStart(next, d);
    var recvLen := RunLength(t, n, k, recvBlockStart, d);
    var sendLen := RunLength(t, n, k, sendBlockStart, d);
    rd := Round(t.groupToNode[next], t.groupBlockStart[sendBlockStart], sendLen,
                t.groupBlockStart[recvBlockStart], recvLen);
  }

  method ConstructGrouped(rank: nat, n: nat, k: nat, distance: seq<nat>) returns (m: Map)
    requires rank < n && IsGrouping(n, k) && |distance| == k
    requires forall i {:trigger distance[i]} :: 0 <= i < k ==> distance[i] == Distance(k, i)
    ensures IsMap(m, n, rank)
  {
    var t := BuildTables(n, k);
    NodesAndGroups(n, k, rank);
    if t.nodeType[rank] == Other {
      return Map(k, Other, rank - 1, []);
    }
    var neighbor := if t.nodeType[rank] == GroupLeader then rank + 1 else -1;
    var g := t.nodeToGroup[rank];
    var rounds: seq<Round> := [];
    for i := 0 to k
      invariant |rounds| == i
      invariant AreRounds(rounds, n, k, g)
    {
      var rd := GroupRound(t, n, k, g, i, distance[i]);
      rounds := rounds + [rd];
    }
    m := Map(k, t.nodeType[rank], neighbor, rounds);
  }

  /** The map of the machine a non-Other machine meets in round i mirrors its own: it leads another
      group, it meets this machine in the same round, and what one gives away the other keeps. */
  lemma MapsMirror(n: nat, v: nat, mine: Map, theirs: Map, i: nat)
    requires IsMap(mine, n, v) && mine.nodeType != Other && i < mine.k
    requires IsMap(theirs, n, mine.rounds[i].rank)
    ensures mine.rounds[i].rank != v
    ensures theirs.k == mine.k && theirs.nodeType != Other
    ensures theirs.rounds[i].rank == v
    ensures theirs.rounds[i].recvStart == mine.rounds[i].sendStart && theirs.rounds[i].recvLen == mine.rounds[i].sendLen
    ensures theirs.rounds[i].sendStart == mine.rounds[i].recvStart && theirs.rounds[i].sendLen == mine.rounds[i].recvLen
  {
    var k, g := mine.k, GroupOf(n, mine.k, v);
    var p := Partner(g, Distance(k, i));
    GroupingUnique(n, k, theirs.k);
    NodesAndGroups(n, k, v);
    PartnerInvolution(k, i, g);
    assert IsRound(mine.rounds[i], n, k, g, i);
    GroupsAndNodes(n, k, p);
    assert IsRound(theirs.rounds[i], n, k, p, i);
  }

  /** The ranges sent and kept in a round are adjacent, and together they are the range kept so far. */
  lemma RangesTile(n: nat, v: nat, m: Map, i: nat)
    requires IsMap(m, n, v) && m.nodeType != Other && i < m.k
    ensures var rd := m.rounds[i];
      && (rd.sendStart + rd.sendLen == rd.recvStart || rd.recvStart + rd.recvLen == rd.sendStart)
      && (i == 0 ==> rd.sendLen + rd.recvLen == n && (rd.sendStart == 0 || rd.recvStart == 0))
      && (i > 0 ==>
            var before := m.rounds[i - 1];
            && before.recvLen == rd.sendLen + rd.recvLen
            && before.recvStart == if rd.sendStart < rd.recvStart then rd.sendStart else rd.recvStart)
  {
    var k, g := m.k, GroupOf(n, m.k, v);
    NodesAndGroups(n, k, v);
    RunsTile(k, i, g);
    var d := Distance(k, i);
    var a, b, whole := RunStart(g, d), RunStart(Partner(g, d), d), RunStart(g, 2 * d);
    assert IsRound(m.rounds[i], n, k, g, i);
    if i == 0 {
      assert whole == 0;
    } else {
      assert Distance(k, i - 1) == 2 * d;
      assert IsRound(m.rounds[i - 1], n, k, g, i - 1);
    }
  }
}
