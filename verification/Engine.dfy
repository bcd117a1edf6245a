/** One machine's all-reduce engine: the loops over its buffers, proved to send and leave what modules
    Allgather and ReduceScatter say, for any messages the network may bring. */
module Engine {
  import opened Arith
  import opened Bits
  import opened Blocks
  import opened Reduction
  import opened Linkers
  import opened Sequences
  import B = BruckMap
  import T = HalvingTopo
  import H = HalvingMap
  import AG = Allgather
  import RS = ReduceScatter
  import AR = Allreduce
  import BlockSplit

  /** Packets a machine gets in an all-gather, in program order. */
  ghost predicate GatherInbox<E>(inbox: seq<Packet<E>>, k: nat, lens: seq<nat>, rank: nat, got: seq<seq<E>>)
    requires |lens| > 0
  {
    && |got| == k <= |inbox|
    && forall i {:trigger inbox[i]} {:trigger got[i]} :: 0 <= i < k ==>
         inbox[i] == Packet(B.InRank(|lens|, rank, i), got[i]) && |got[i]| == AG.RecvCount(lens, rank, i)
  }

  /** Packets a machine sends in the first m rounds of an all-gather. */
  function GatherSent<E>(lens: seq<nat>, rank: nat, own: seq<E>, got: seq<seq<E>>, m: nat): (p: seq<Packet<E>>)
    requires |lens| > 0 && m <= |got|
    ensures |p| == m
  {
    seq(m, i requires 0 <= i < m => Packet(B.OutRank(|lens|, rank, i), AG.Message(lens, rank, own, got[..i], i)))
  }

  /** What one round does to the lengths and logs, with the number of blocks it moves. */
  lemma GatherStep<E>(k: nat, lens: seq<nat>, rank: nat, own: seq<E>, got: seq<seq<E>>, i: nat, moved: nat)
    requires rank < |lens| && B.IsRounds(k, |lens|) && i < k == |got|
    requires moved == B.Moved(|lens|, i)
    requires |AG.Cells(own, got[..i])| == RingSum(lens, rank, B.Held(|lens|, i))
    requires |got[i]| == AG.RecvCount(lens, rank, i)
    ensures AG.Cells(own, got[..i + 1]) == AG.Cells(own, got[..i]) + got[i]
    ensures |AG.Cells(own, got[..i + 1])| == RingSum(lens, rank, B.Held(|lens|, i + 1)) <= Sum(lens, |lens|)
    ensures RingSum(lens, rank, moved) <= |AG.Cells(own, got[..i])|
    ensures GatherSent(lens, rank, own, got, i + 1) ==
            GatherSent(lens, rank, own, got, i) +
            [Packet(B.OutRank(|lens|, rank, i), AG.Cells(own, got[..i])[..RingSum(lens, rank, moved)])]
  {
    var held := B.Held(|lens|, i);
    AG.CellsStep(own, got, i);
    AG.HeldStep(k, |lens|, i);
    RingSumSplit(lens, rank, held, moved);
    RingSumSplit(lens, rank, moved, held - moved);
    assert moved + (held - moved) == held;
    RingSumBound(lens, rank, B.Held(|lens|, i + 1));
  }

  lemma RingSumBound(lens: seq<nat>, rank: nat, m: nat)
    requires rank < |lens| && m <= |lens|
    ensures RingSum(lens, rank, m) <= Sum(lens, |lens|)
  {
    var n := |lens|;
    RingSumSplit(lens, rank, m, n - m);
    RingSumSplit(lens, rank, n - rank, rank);
    RingSumSplit(lens, 0, rank, n - rank);
    WrapOnce(n, n);
    WrapOnce(rank, n);
    RingSumFromZero(lens, n);
    assert m + (n - m) == n && (n - rank) + rank == n && rank + (n - rank) == n;
  }

  /** Packets a machine gets in a reduce-scatter from round j on, in program order. */
  function ScatterInbox<E>(plan: RS.Plan, v: nat, got: seq<seq<E>>, j: nat): seq<Packet<E>>
    requires plan.Valid() && v < plan.n && |got| == plan.k + 2
    decreases plan.k + 2 - j
  {
    if j >= plan.k + 2 then []
    else ScatterInboxAt(plan, v, got, j) + ScatterInbox(plan, v, got, j + 1)
  }

  function ScatterInboxAt<E>(plan: RS.Plan, v: nat, got: seq<seq<E>>, j: nat): seq<Packet<E>>
    requires plan.Valid() && v < plan.n && j < |got|
  {
    match RS.Source(plan, v, j)
    case Nobody => []
    case Machine(p) => [Packet(p, got[j])]
  }

  /** Packets a machine sends in the first j rounds. The exchanges of the halving rounds are sent even
      when they are empty; the hand-overs of the first and last round are not. */
  function ScatterSent<E>(op: (E, E) -> E, plan: RS.Plan, v: nat, own: seq<E>, got: seq<seq<E>>, j: nat): seq<Packet<E>>
    requires plan.Valid() && v < plan.n && |own| == plan.Cells() && j <= |got| == plan.k + 2
  {
    if j == 0 then [] else ScatterSent(op, plan, v, own, got, j - 1) + ScatterSentAt(op, plan, v, own, got, j - 1)
  }

  function ScatterSentAt<E>(op: (E, E) -> E, plan: RS.Plan, v: nat, own: seq<E>, got: seq<seq<E>>,
                            j: nat): seq<Packet<E>>
    requires plan.Valid() && v < plan.n && |own| == plan.Cells() && j < |got|
  {
    match RS.Target(plan, v, j)
    case Nobody => []
    case Machine(p) =>
      var m := RS.Message(op, plan, v, own, got[..j], j);
      if 1 <= j <= plan.k then [Packet(p, m)] else Posted(p, m)
  }

  ghost predicate ScatterLengths<E>(plan: RS.Plan, v: nat, got: seq<seq<E>>)
    requires plan.Valid() && v < plan.n
  {
    && |got| == plan.k + 2
    && forall j {:trigger got[j]} :: 0 <= j < plan.k + 2 ==> |got[j]| == RS.Awaited(plan, v, j)
  }

  lemma Joined<E>(a: array<E>, lo: nat, hi: nat)
    requires lo <= hi <= a.Length
    ensures a[..hi] == a[..lo] + a[lo..hi]
  {
  }

  /** The constructed map of a machine, read as cell ranges of a plan. */
  lemma RoundCells(m: H.Map, plan: RS.Plan, v: nat, i: nat)
    requires plan.Valid() && H.IsMap(m, plan.n, v) && m.k == plan.k && m.nodeType != T.Other && i < m.k
    ensures var rd := m.rounds[i];
      var w := RS.Opposite(plan, v, i + 1);
      && rd.rank == w
      && rd.recvStart < rd.recvStart + rd.recvLen <= plan.n && rd.sendStart < rd.sendStart + rd.sendLen <= plan.n
      && Sum(plan.lens, rd.recvStart) == RS.RunCell(plan, v, i + 1)
      && Sum(plan.lens, rd.recvStart + rd.recvLen) == RS.RunEnd(plan, v, i + 1)
      && Sum(plan.lens, rd.sendStart) == RS.RunCell(plan, w, i + 1)
      && Sum(plan.lens, rd.sendStart + rd.sendLen) == RS.RunEnd(plan, w, i + 1)
  {
    hide T.Partner, T.RunStart, T.GroupOf, T.TypeOf, T.NodeOf, T.Base, Sum, RS.RunCell, RS.RunEnd;
    var k, g := plan.k, T.GroupOf(plan.n, plan.k, v);
    var p := T.Partner(g, T.Distance(k, i));
    T.NodesAndGroups(plan.n, k, v);
    T.PartnerInvolution(k, i, g);
    T.GroupsAndNodes(plan.n, k, p);
    assert H.IsRound(m.rounds[i], plan.n, k, g, i);
    RS.RunCells(plan, v, i + 1);
    RS.RunCells(plan, RS.Opposite(plan, v, i + 1), i + 1);
  }

  class Engine<E(0)> {
    const numMachines: nat
    const rank: nat
    const linkers: Link<E>
    const bruckMap: B.Map
    const halvingMap: H.Map
    var blockStart: seq<nat>
    var blockLen: seq<nat>
    var buffer: array<E>

    ghost predicate Valid() {
      && rank < numMachines
      && B.IsMap(bruckMap, numMachines, rank)
      && H.IsMap(halvingMap, numMachines, rank)
    }

    constructor Init(linkers: Link<E>, rank: nat, size: nat)
      requires rank < size
      ensures Valid() && this.linkers == linkers && this.rank == rank && numMachines == size
      ensures fresh(buffer)
    {
      var bruck := B.Construct(rank, size);
      var halving := H.Construct(rank, size);
      this.linkers, this.rank, numMachines := linkers, rank, size;
      bruckMap, halvingMap := bruck, halving;
      blockStart, blockLen := seq(size, _ => 0), seq(size, _ => 0);
      buffer := new E[1024 * 1024];
    }

    /** Adds up m block lengths around the ring from block s on. */
    method RingCells(len: seq<nat>, s: nat, m: nat) returns (cells: nat)
      requires |len| == numMachines > 0
      ensures cells == RingSum(len, s, m)
    {
      cells := 0;
      for j := 0 to m
        invariant cells == RingSum(len, s, j)
      {
        cells := cells + len[(s + j) % numMachines];
      }
    }

    lemma BruckRounds()
      requires Valid()
      ensures B.IsRounds(bruckMap.k, numMachines)
    {
    }

    /** How many blocks move in round i, and how many cells that is out and in. */
    method RoundCounts(i: nat, accumulated: nat, blockLen: seq<nat>) returns (cur: nat, sendLen: nat, needRecvCnt: nat)
      requires Valid() && |blockLen| == numMachines && i < bruckMap.k && accumulated == B.Held(numMachines, i)
      ensures cur == B.Moved(numMachines, i) && accumulated + cur == B.Held(numMachines, i + 1)
      ensures sendLen == RingSum(blockLen, rank, cur)
      ensures needRecvCnt == AG.RecvCount(blockLen, rank, i)
    {
      hide RingSum, B.IsMap, H.IsMap;
      assert B.IsRounds(bruckMap.k, numMachines) by { BruckRounds(); }
      AG.HeldStep(bruckMap.k, numMachines, i);
      cur := if Pow2(i) < numMachines - accumulated then Pow2(i) else numMachines - accumulated;
      assert cur == B.Moved(numMachines, i);
      sendLen := RingCells(blockLen, rank, cur);
      needRecvCnt := RingCells(blockLen, rank + accumulated, cur);
      RingSumShift(blockLen, rank + accumulated, cur);
    }

    ghost predicate GatherState(linkers: Link<E>, writePtr: nat, accumulated: nat, lens: seq<nat>, output: array<E>,
                                own: seq<E>, got: seq<seq<E>>, inbox: seq<Packet<E>>, sent: seq<Packet<E>>, i: nat)
      requires Valid() && |lens| == numMachines && i <= |got|
      reads linkers, output
    {
      && i <= |inbox|
      && accumulated == B.Held(numMachines, i)
      && writePtr == |AG.Cells(own, got[..i])| == RingSum(lens, rank, accumulated) <= output.Length
      && output[..writePtr] == AG.Cells(own, got[..i])
      && linkers.inbox == inbox[i..]
      && linkers.sent == sent + GatherSent(lens, rank, own, got, i)
    }

    /** One Bruck round: the held blocks go out, up to as many as are missing, and as many come in. */
    method GatherRound(i: nat, writePtr: nat, accumulated: nat, blockLen: seq<nat>, output: array<E>,
                       ghost own: seq<E>, ghost got: seq<seq<E>>, ghost inbox: seq<Packet<E>>,
                       ghost sent: seq<Packet<E>>)
      returns (writePtr': nat, accumulated': nat)
      requires Valid() && |blockLen| == numMachines && i < bruckMap.k
      requires Sum(blockLen, numMachines) <= output.Length
      requires GatherInbox(inbox, bruckMap.k, blockLen, rank, got)
      requires GatherState(linkers, writePtr, accumulated, blockLen, output, own, got, inbox, sent, i)
      modifies linkers, output
      ensures GatherState(linkers, writePtr', accumulated', blockLen, output, own, got, inbox, sent, i + 1)
      ensures output[Sum(blockLen, numMachines)..] == old(output[Sum(blockLen, numMachines)..])
    {
      hide AG.Cells, AG.Message, B.InRank, B.OutRank, B.Held, B.Moved, RingSum, Sum, GatherSent, AG.RecvCount;
      var cur, sendLen, needRecvCnt := RoundCounts(i, accumulated, blockLen);
      assert inbox[i] == Packet(B.InRank(numMachines, rank, i), got[i]);
      GatherStep(bruckMap.k, blockLen, rank, own, got, i, cur);
      ghost var cells := AG.Cells(own, got[..i]);
      assert output[..sendLen] == cells[..sendLen];
      ghost var packet := Packet(B.OutRank(numMachines, rank, i), cells[..sendLen]);
      linkers.SendRecv(bruckMap.outRanks[i], output, 0, sendLen,
                       bruckMap.inRanks[i], output, writePtr, needRecvCnt);
      writePtr' := writePtr + needRecvCnt;
      Joined(output, writePtr, writePtr');
      Append3(sent, GatherSent(blockLen, rank, own, got, i), [packet]);
      accumulated' := accumulated + cur;
    }

    /** All-gather of blocks of any lengths; input may be output. */
    method Allgather(input: array<E>, allSize: nat, blockStart: seq<nat>, blockLen: seq<nat>, output: array<E>,
                     ghost got: seq<seq<E>>)
      requires Valid() && |blockLen| == numMachines && IsLayout(blockStart, blockLen)
      requires allSize == Sum(blockLen, numMachines) <= output.Length && blockLen[rank] <= input.Length
      requires GatherInbox(linkers.inbox, bruckMap.k, blockLen, rank, got)
      modifies linkers, output
      ensures output[..allSize] == AG.Gathered(blockLen, rank, old(input[..blockLen[rank]]), got)
      ensures output[allSize..] == old(output[allSize..])
      ensures linkers.inbox == old(linkers.inbox[bruckMap.k..])
      ensures linkers.sent ==
              old(linkers.sent) + GatherSent(blockLen, rank, old(input[..blockLen[rank]]), got, bruckMap.k)
    {
      ghost var own, inbox, sent := input[..blockLen[rank]], linkers.inbox, linkers.sent;
      SumMono(blockLen, rank + 1, numMachines);
      SumMono(blockLen, rank, numMachines);
      CopyPrefix(input, 0, output, blockLen[rank]);
      var writePtr, accumulated := blockLen[rank], 1;
      RingSumOne(blockLen, rank);
      for i := 0 to bruckMap.k
        invariant GatherState(linkers, writePtr, accumulated, blockLen, output, own, got, inbox, sent, i)
        invariant output[allSize..] == old(output[allSize..])
      {
        writePtr, accumulated := GatherRound(i, writePtr, accumulated, blockLen, output, own, got, inbox, sent);
      }
      ghost var cells := AG.Cells(own, got);
      AllCells(bruckMap.k, blockLen, rank, own, got);
      assert output[..allSize] == cells;
      RotateRight(output, allSize, blockStart[rank]);
    }

    lemma AllCells(k: nat, lens: seq<nat>, rank: nat, own: seq<E>, got: seq<seq<E>>)
      requires rank < |lens| && B.IsRounds(k, |lens|) && |got| == k
      ensures got[..k] == got && RingSum(lens, rank, B.Held(|lens|, k)) == Sum(lens, |lens|)
    {
      var n := |lens|;
      assert B.Held(n, k) == n;
      RingSumSplit(lens, rank, n - rank, rank);
      RingSumSplit(lens, 0, rank, n - rank);
      WrapOnce(n, n);
      WrapOnce(rank, n);
      RingSumFromZero(lens, n);
      assert (n - rank) + rank == n && rank + (n - rank) == n;
    }

    /** Three reversals bring the last `head` of the first `all` cells to the front. */
    method RotateRight(output: array<E>, all: nat, head: nat)
      requires head <= all <= output.Length
      modifies output
      ensures output[..all] == Rotated(old(output[..all]), head)
      ensures output[all..] == old(output[all..])
    {
      ghost var before := output[..];
      ReverseRange(output, 0, all);
      ReverseRange(output, 0, head);
      ReverseRange(output, head, all);
      ThreeReversals(before, all, head);
      assert before[..all] == old(output[..all]) && before[all..] == old(output[all..]);
    }

    /** Cells in m blocks from block s on. */
    method BlockCells(len: seq<nat>, s: nat, m: nat) returns (cells: nat)
      requires s + m <= |len|
      ensures Sum(len, s) + cells == Sum(len, s + m)
    {
      cells := 0;
      for j := 0 to m
        invariant Sum(len, s) + cells == Sum(len, s + j)
      {
        cells := cells + len[s + j];
      }
    }

    /** The plan this machine follows for blocks of the given lengths. */
    function Plan(lens: seq<nat>): RS.Plan {
      RS.Plan(numMachines, halvingMap.k, lens)
    }

    /** Between rounds j - 1 and j of a reduce-scatter, at a lone machine or leader. */
    ghost predicate ScatterState(op: (E, E) -> E, lens: seq<nat>, input: array<E>, own: seq<E>, got: seq<seq<E>>,
                                 rest: seq<Packet<E>>, sent: seq<Packet<E>>, j: nat)
      requires Valid() && |lens| == numMachines
      requires Plan(lens).Cells() == |own| && |got| == halvingMap.k + 2 && 1 <= j <= halvingMap.k + 1
      reads linkers, input
    {
      && input[..] == RS.Buffer(op, Plan(lens), rank, own, got[..j])
      && linkers.inbox == ScatterInbox(Plan(lens), rank, got, j) + rest
      && linkers.sent == sent + ScatterSent(op, Plan(lens), rank, own, got, j)
    }

    /** The leader of a pair reduces the other's whole input into its own. */
    method FirstRound(op: (E, E) -> E, input: array<E>, lens: seq<nat>, output: array<E>,
                      ghost got: seq<seq<E>>, ghost rest: seq<Packet<E>>)
      requires Valid() && |lens| == numMachines && halvingMap.nodeType == T.GroupLeader
      requires input != output && Plan(lens).Cells() == input.Length <= output.Length
      requires ScatterLengths(Plan(lens), rank, got)
      requires linkers.inbox == ScatterInbox(Plan(lens), rank, got, 0) + rest
      modifies linkers, input, output
      ensures ScatterState(op, lens, input, old(input[..]), got, rest, old(linkers.sent), 1)
      ensures linkers.sent == old(linkers.sent)
    {
      hide RS.Buffer, RS.Opposite, RS.RunCell, RS.RunEnd, ScatterInbox, ScatterSent;
      ghost var plan, own := Plan(lens), input[..];
      FirstStep(op, plan, rank, own, got);
      linkers.RecvFrom(halvingMap.neighbor, output, 0, input.Length);
      Reduce(op, output, 0, input, 0, input.Length);
    }

    lemma FirstStep(op: (E, E) -> E, plan: RS.Plan, v: nat, own: seq<E>, got: seq<seq<E>>)
      requires plan.Valid() && v < plan.n && T.TypeOf(plan.n, plan.k, v) == T.GroupLeader
      requires |own| == plan.Cells() && ScatterLengths(plan, v, got)
      ensures ScatterInbox(plan, v, got, 0) == [Packet(v + 1, got[0])] + ScatterInbox(plan, v, got, 1)
      ensures |got[0]| == plan.Cells()
      ensures ScatterSent(op, plan, v, own, got, 1) == []
      ensures RS.Buffer(op, plan, v, own, got[..1]) == Combine(op, own, 0, got[0])
    {
      hide RS.Opposite, RS.RunCell, RS.RunEnd, RS.Message;
      T.NodesAndGroups(plan.n, plan.k, v);
      assert |got[0]| == RS.Awaited(plan, v, 0);
      assert got[..1][0] == got[0];
      assert ScatterInboxAt(plan, v, got, 0) == [Packet(v + 1, got[0])];
      assert ScatterSentAt(op, plan, v, own, got, 0) == [];
    }

    /** One halving round: the opposite machine's range goes out, and its share of the range kept here
        comes in and is reduced in place. */
    method HalvingRound(op: (E, E) -> E, i: nat, input: array<E>, blockStart: seq<nat>, lens: seq<nat>,
                        output: array<E>, ghost own: seq<E>, ghost got: seq<seq<E>>,
                        ghost rest: seq<Packet<E>>, ghost sent: seq<Packet<E>>)
      requires Valid() && |lens| == numMachines && IsLayout(blockStart, lens)
      requires halvingMap.nodeType != T.Other && i < halvingMap.k
      requires input != output && Plan(lens).Cells() == |own| == input.Length <= output.Length
      requires ScatterLengths(Plan(lens), rank, got)
      requires ScatterState(op, lens, input, own, got, rest, sent, i + 1)
      modifies linkers, input, output
      ensures ScatterState(op, lens, input, own, got, rest, sent, i + 2)
    {
      hide RS.Buffer, RS.Opposite, RS.RunCell, RS.RunEnd, ScatterInbox, ScatterSent;
      ghost var plan, j := Plan(lens), i + 1;
      var peer, sendLo, sendSize, recvLo, needRecvCnt := RoundRanges(i, blockStart, lens);
      HalvingStep(op, plan, rank, own, got, j);
      ghost var packet := Packet(peer, input[sendLo..sendLo + sendSize]);
      ExchangeAndReduce(op, peer, input, sendLo, sendSize, recvLo, output, needRecvCnt,
                        got[j], ScatterInbox(plan, rank, got, j + 1) + rest);
      Append3(sent, ScatterSent(op, plan, rank, own, got, j), [packet]);
    }

    /** The cells of round i: where the opposite machine's range and the kept range are. */
    method RoundRanges(i: nat, blockStart: seq<nat>, lens: seq<nat>)
      returns (peer: nat, sendLo: nat, sendSize: nat, recvLo: nat, needRecvCnt: nat)
      requires Valid() && |lens| == numMachines && IsLayout(blockStart, lens)
      requires halvingMap.nodeType != T.Other && i < halvingMap.k
      ensures peer == RS.Opposite(Plan(lens), rank, i + 1)
      ensures sendLo == RS.RunCell(Plan(lens), peer, i + 1) && sendLo + sendSize == RS.RunEnd(Plan(lens), peer, i + 1)
      ensures recvLo == RS.RunCell(Plan(lens), rank, i + 1)
      ensures recvLo + needRecvCnt == RS.RunEnd(Plan(lens), rank, i + 1)
      ensures needRecvCnt == RS.Awaited(Plan(lens), rank, i + 1)
    {
      hide RS.RunCell, RS.RunEnd, RS.Opposite, Sum;
      var rd := halvingMap.rounds[i];
      RoundCells(halvingMap, Plan(lens), rank, i);
      sendSize := BlockCells(lens, rd.sendStart, rd.sendLen);
      needRecvCnt := BlockCells(lens, rd.recvStart, rd.recvLen);
      peer, sendLo, recvLo := rd.rank, blockStart[rd.sendStart], blockStart[rd.recvStart];
    }

    method ExchangeAndReduce(op: (E, E) -> E, peer: nat, input: array<E>, sendLo: nat, sendSize: nat, recvLo: nat,
                             output: array<E>, needRecvCnt: nat, ghost message: seq<E>, ghost rest: seq<Packet<E>>)
      requires input != output && needRecvCnt <= output.Length
      requires sendLo + sendSize <= input.Length && recvLo + needRecvCnt <= input.Length
      requires linkers.inbox == [Packet(peer, message)] + rest && |message| == needRecvCnt
      modifies linkers, input, output
      ensures input[..] == Combine(op, old(input[..]), recvLo, message)
      ensures linkers.inbox == rest
      ensures linkers.sent == old(linkers.sent) + [Packet(peer, old(input[sendLo..sendLo + sendSize]))]
    {
      linkers.SendRecv(peer, input, sendLo, sendSize, peer, output, 0, needRecvCnt);
      Reduce(op, output, 0, input, recvLo, needRecvCnt);
    }

    lemma HalvingStep(op: (E, E) -> E, plan: RS.Plan, v: nat, own: seq<E>, got: seq<seq<E>>, j: nat)
      requires plan.Valid() && v < plan.n && T.TypeOf(plan.n, plan.k, v) != T.Other
      requires 1 <= j <= plan.k && |own| == plan.Cells() && |got| == plan.k + 2
      ensures var w := RS.Opposite(plan, v, j);
        var buf := RS.Buffer(op, plan, v, own, got[..j]);
        && ScatterInbox(plan, v, got, j) == [Packet(w, got[j])] + ScatterInbox(plan, v, got, j + 1)
        && RS.RunCell(plan, w, j) <= RS.RunEnd(plan, w, j) <= |buf|
        && ScatterSent(op, plan, v, own, got, j + 1) ==
           ScatterSent(op, plan, v, own, got, j) + [Packet(w, buf[RS.RunCell(plan, w, j)..RS.RunEnd(plan, w, j)])]
        && RS.Buffer(op, plan, v, own, got[..j + 1]) == Combine(op, buf, RS.RunCell(plan, v, j), got[j])
    {
      hide RS.Buffer, RS.RunCell, T.GroupOf;
      assert ScatterInboxAt(plan, v, got, j) == [Packet(RS.Opposite(plan, v, j), got[j])];
      RS.BufferStep(op, plan, v, own, got, j);
    }

    /** The block of the second machine of a pair goes out; this machine's own block goes to the output. */
    method LastRound(op: (E, E) -> E, input: array<E>, blockStart: seq<nat>, lens: seq<nat>, output: array<E>,
                     ghost own: seq<E>, ghost got: seq<seq<E>>, ghost rest: seq<Packet<E>>, ghost sent: seq<Packet<E>>)
      requires Valid() && |lens| == numMachines && IsLayout(blockStart, lens)
      requires halvingMap.nodeType != T.Other
      requires input != output && Plan(lens).Cells() == |own| == input.Length <= output.Length
      requires ScatterLengths(Plan(lens), rank, got)
      requires ScatterState(op, lens, input, own, got, rest, sent, halvingMap.k + 1)
      modifies linkers, output
      ensures lens[rank] <= output.Length && output[..lens[rank]] == RS.Result(op, Plan(lens), rank, own, got)
      ensures linkers.inbox == rest
      ensures linkers.sent == sent + ScatterSent(op, Plan(lens), rank, own, got, halvingMap.k + 2)
    {
      hide RS.Buffer, RS.Awaited, RS.Source, RS.Target, RS.Message, ScatterSent, ScatterSentAt, ScatterInbox;
      ghost var plan, k := Plan(lens), halvingMap.k;
      LastStep(op, plan, rank, own, got);
      HandOver(op, input, blockStart, lens, own, got);
      Append3(sent, ScatterSent(op, plan, rank, own, got, k + 1), ScatterSentAt(op, plan, rank, own, got, k + 1));
      SumMono(lens, rank + 1, numMachines);
      CopyPrefix(input, blockStart[rank], output, lens[rank]);
    }

    /** A leader sends the other machine of its pair that machine's block. */
    method HandOver(op: (E, E) -> E, input: array<E>, blockStart: seq<nat>, lens: seq<nat>,
                    ghost own: seq<E>, ghost got: seq<seq<E>>)
      requires Valid() && |lens| == numMachines && IsLayout(blockStart, lens)
      requires halvingMap.nodeType != T.Other
      requires Plan(lens).Cells() == |own| == input.Length && |got| == halvingMap.k + 2
      requires input[..] == RS.Buffer(op, Plan(lens), rank, own, got[..halvingMap.k + 1])
      modifies linkers
      ensures linkers.inbox == old(linkers.inbox)
      ensures linkers.sent == old(linkers.sent) + ScatterSentAt(op, Plan(lens), rank, own, got, halvingMap.k + 1)
    {
      hide RS.Buffer, ScatterSentAt;
      LastPacket(op, Plan(lens), rank, own, got);
      if halvingMap.nodeType == T.GroupLeader {
        T.NodesAndGroups(numMachines, halvingMap.k, rank);
        SumMono(lens, rank + 2, numMachines);
        linkers.SendTo(halvingMap.neighbor, input, blockStart[halvingMap.neighbor], lens[halvingMap.neighbor]);
      }
    }

    lemma LastStep(op: (E, E) -> E, plan: RS.Plan, v: nat, own: seq<E>, got: seq<seq<E>>)
      requires plan.Valid() && v < plan.n && T.TypeOf(plan.n, plan.k, v) != T.Other
      requires |own| == plan.Cells() && |got| == plan.k + 2
      ensures ScatterInbox(plan, v, got, plan.k + 1) == []
      ensures ScatterSent(op, plan, v, own, got, plan.k + 2) ==
              ScatterSent(op, plan, v, own, got, plan.k + 1) + ScatterSentAt(op, plan, v, own, got, plan.k + 1)
    {
      hide ScatterSentAt;
      assert ScatterInboxAt(plan, v, got, plan.k + 1) == [] by {
        hide RS.Opposite;
      }
    }

    lemma LastPacket(op: (E, E) -> E, plan: RS.Plan, v: nat, own: seq<E>, got: seq<seq<E>>)
      requires plan.Valid() && v < plan.n && T.TypeOf(plan.n, plan.k, v) != T.Other
      requires |own| == plan.Cells() && |got| == plan.k + 2
      ensures ScatterSentAt(op, plan, v, own, got, plan.k + 1) ==
              if T.TypeOf(plan.n, plan.k, v) == T.GroupLeader then
                T.NodesAndGroups(plan.n, plan.k, v);
                SumMono(plan.lens, v + 1, v + 2);
                var buf := RS.Buffer(op, plan, v, own, got[..plan.k + 1]);
                Posted(v + 1, buf[plan.BlockCell(v + 1)..plan.BlockCell(v + 2)])
              else []
    {
      hide RS.Buffer, RS.Opposite, RS.RunCell, RS.RunEnd, T.GroupOf, T.NodeOf;
      T.NodesAndGroups(plan.n, plan.k, v);
    }

    /** Reduce-scatter: block `rank` of the reduction of all inputs ends up at the front of output. The
        input is used as working space. */
    method ReduceScatter(op: (E, E) -> E, input: array<E>, inputSize: nat, blockStart: seq<nat>, blockLen: seq<nat>,
                         output: array<E>, ghost got: seq<seq<E>>, ghost rest: seq<Packet<E>>)
      requires Valid() && |blockLen| == numMachines && IsLayout(blockStart, blockLen)
      requires input != output && Sum(blockLen, numMachines) == inputSize == input.Length <= output.Length
      requires ScatterLengths(Plan(blockLen), rank, got)
      requires linkers.inbox == ScatterInbox(Plan(blockLen), rank, got, 0) + rest
      modifies linkers, input, output
      ensures blockLen[rank] <= output.Length
      ensures output[..blockLen[rank]] == RS.Result(op, Plan(blockLen), rank, old(input[..]), got)
      ensures linkers.inbox == rest
      ensures linkers.sent ==
              old(linkers.sent) + ScatterSent(op, Plan(blockLen), rank, old(input[..]), got, halvingMap.k + 2)
    {
      hide RS.Buffer, RS.Awaited, RS.Source, RS.Target, RS.Message, ScatterSent, ScatterInbox, And, T.GroupOf, T.NodeOf;
      ghost var plan, own, sent := Plan(blockLen), input[..], linkers.sent;
      var isPowerOf2 := And(numMachines, numMachines - 1) == 0;
      PowerOfTwoTest(numMachines, halvingMap.k);
      T.NodesAndGroups(numMachines, halvingMap.k, rank);
      if !isPowerOf2 && halvingMap.nodeType == T.Other {
        OtherSteps(op, plan, rank, own, got);
        assert input[0..inputSize] == own;
        linkers.SendTo(halvingMap.neighbor, input, 0, inputSize);
        linkers.RecvFrom(halvingMap.neighbor, output, 0, blockLen[rank]);
        return;
      }
      if !isPowerOf2 && halvingMap.nodeType == T.GroupLeader {
        FirstRound(op, input, blockLen, output, got, rest);
      } else {
        NormalStep(op, plan, rank, own, got);
      }
      for i := 0 to halvingMap.k
        invariant ScatterState(op, blockLen, input, own, got, rest, sent, i + 1)
      {
        HalvingRound(op, i, input, blockStart, blockLen, output, own, got, rest, sent);
      }
      LastRound(op, input, blockStart, blockLen, output, own, got, rest, sent);
    }

    lemma NormalStep(op: (E, E) -> E, plan: RS.Plan, v: nat, own: seq<E>, got: seq<seq<E>>)
      requires plan.Valid() && v < plan.n && T.TypeOf(plan.n, plan.k, v) == T.Normal
      requires |own| == plan.Cells() && |got| == plan.k + 2
      ensures ScatterInbox(plan, v, got, 0) == ScatterInbox(plan, v, got, 1)
      ensures ScatterSent(op, plan, v, own, got, 1) == []
      ensures RS.Buffer(op, plan, v, own, got[..1]) == own
    {
      hide RS.Opposite, RS.RunCell, RS.RunEnd, RS.Message;
      assert ScatterInboxAt(plan, v, got, 0) == [];
      assert ScatterSentAt(op, plan, v, own, got, 0) == [];
    }

    /** The second machine of a pair sends its input first and then only waits for its block. */
    lemma OtherSteps(op: (E, E) -> E, plan: RS.Plan, v: nat, own: seq<E>, got: seq<seq<E>>)
      requires plan.Valid() && v < plan.n && T.TypeOf(plan.n, plan.k, v) == T.Other
      requires |own| == plan.Cells() && ScatterLengths(plan, v, got)
      ensures v >= 1
      ensures ScatterInbox(plan, v, got, 0) == [Packet(v - 1, got[plan.k + 1])]
      ensures |got[plan.k + 1]| == plan.lens[v] <= plan.Cells()
      ensures ScatterSent(op, plan, v, own, got, plan.k + 2) == Posted(v - 1, own)
    {
      hide RS.Opposite, RS.RunCell, RS.RunEnd, RS.Message, RS.Target, ScatterSent, T.GroupOf, T.NodeOf;
      T.NodesAndGroups(plan.n, plan.k, v);
      assert ScatterInbox(plan, v, got, 0) == [Packet(v - 1, got[plan.k + 1])] by {
        OtherWaits(plan, v, got, 1);
        assert ScatterInboxAt(plan, v, got, 0) == [];
      }
      assert |got[plan.k + 1]| == RS.Awaited(plan, v, plan.k + 1) == plan.lens[v];
      SumMono(plan.lens, v + 1, plan.n);
      OtherSends(op, plan, v, own, got, plan.k + 2);
    }

    lemma {:induction false} OtherWaits(plan: RS.Plan, v: nat, got: seq<seq<E>>, j: nat)
      requires plan.Valid() && v < plan.n && T.TypeOf(plan.n, plan.k, v) == T.Other && v >= 1
      requires |got| == plan.k + 2 && 1 <= j <= plan.k + 1
      ensures ScatterInbox(plan, v, got, j) == [Packet(v - 1, got[plan.k + 1])]
      decreases plan.k + 1 - j
    {
      hide RS.Opposite;
      if j <= plan.k {
        OtherWaits(plan, v, got, j + 1);
        assert ScatterInboxAt(plan, v, got, j) == [];
      } else {
        assert ScatterInboxAt(plan, v, got, j) == [Packet(v - 1, got[j])];
        assert ScatterInbox(plan, v, got, j + 1) == [];
      }
    }

    lemma {:induction false} OtherSends(op: (E, E) -> E, plan: RS.Plan, v: nat, own: seq<E>, got: seq<seq<E>>, j: nat)
      requires plan.Valid() && v < plan.n && T.TypeOf(plan.n, plan.k, v) == T.Other && v >= 1
      requires |own| == plan.Cells() && |got| == plan.k + 2 && 1 <= j <= plan.k + 2
      ensures ScatterSent(op, plan, v, own, got, j) == Posted(v - 1, own)
    {
      hide RS.Opposite, RS.RunCell, RS.RunEnd, RS.Buffer;
      if j > 1 {
        OtherSends(op, plan, v, own, got, j - 1);
        assert ScatterSentAt(op, plan, v, own, got, j - 1) == [];
      } else {
        assert ScatterSent(op, plan, v, own, got, 0) == [];
        assert ScatterSentAt(op, plan, v, own, got, 0) == Posted(v - 1, own);
      }
    }

    /** Gathers all inputs into the engine's own buffer and reduces them there in rank order. */
    method AllreduceByAllGather(op: (E, E) -> E, input: array<E>, inputSize: nat, output: array<E>,
                                ghost got: seq<seq<E>>)
      requires Valid() && inputSize == input.Length <= output.Length
      requires buffer != input && buffer != output
      requires GatherInbox(linkers.inbox, bruckMap.k, AR.Uniform(numMachines, inputSize), rank, got)
      modifies this`blockStart, this`blockLen, this`buffer, linkers, buffer, output
      ensures buffer == old(buffer) || fresh(buffer)
      ensures output[..inputSize] == AR.SmallResult(op, numMachines, inputSize, rank, old(input[..]), got)
      ensures output[inputSize..] == old(output[inputSize..])
      ensures linkers.inbox == old(linkers.inbox[bruckMap.k..])
      ensures linkers.sent ==
              old(linkers.sent) + GatherSent(AR.Uniform(numMachines, inputSize), rank, old(input[..]), got, bruckMap.k)
    {
      hide GatherInbox, AG.Gathered, GatherSent;
      ghost var own, lens := input[..], AR.Uniform(numMachines, inputSize);
      AssignUniform(inputSize);
      AR.UniformSum(numMachines, inputSize, numMachines);
      if inputSize * numMachines > buffer.Length {
        buffer := new E[inputSize * numMachines];
      }
      assert input[..blockLen[rank]] == own;
      Allgather(input, inputSize * numMachines, blockStart, blockLen, buffer, got);
      FoldBuffer(op, inputSize, lens);
      CopyPrefix(buffer, 0, output, inputSize);
    }

    /** One block of the input's size for every machine. */
    method AssignUniform(inputSize: nat)
      requires Valid()
      modifies this`blockStart, this`blockLen
      ensures blockLen == AR.Uniform(numMachines, inputSize) && IsLayout(blockStart, blockLen)
    {
      ghost var lens := AR.Uniform(numMachines, inputSize);
      var start, len := [0], [inputSize];
      assert Sum(lens, 1) == Sum(lens, 0) + inputSize;
      for i := 1 to numMachines
        invariant |start| == |len| == i
        invariant forall j {:trigger start[j]} :: 0 <= j < i ==> start[j] == Sum(lens, j)
        invariant forall j {:trigger len[j]} :: 0 <= j < i ==> len[j] == inputSize
      {
        start := start + [start[i - 1] + len[i - 1]];
        len := len + [inputSize];
      }
      blockStart, blockLen := start, len;
    }

    /** Reduces blocks 1, 2, ... of the buffer into block 0. */
    method FoldBuffer(op: (E, E) -> E, inputSize: nat, ghost lens: seq<nat>)
      requires Valid() && lens == AR.Uniform(numMachines, inputSize) && blockLen == lens && IsLayout(blockStart, lens)
      requires Sum(lens, numMachines) <= buffer.Length
      modifies buffer
      ensures inputSize <= buffer.Length
      ensures var all := old(buffer[..Sum(lens, numMachines)]);
        buffer[..inputSize] == AR.FoldBlocks(op, all, lens, numMachines)
    {
      hide AR.FoldBlocks, Combine, B.IsMap, H.IsMap;
      ghost var all := buffer[..Sum(lens, numMachines)];
      FirstBlock(op, all, lens, inputSize);
      SumMono(lens, 1, numMachines);
      for i := 1 to numMachines
        invariant buffer[..inputSize] == AR.FoldBlocks(op, all, lens, i)
        invariant buffer[inputSize..Sum(lens, numMachines)] == all[inputSize..]
      {
        SumMono(lens, 1, i);
        SumMono(lens, i + 1, numMachines);
        ghost var before := buffer[..];
        Reduce(op, buffer, blockStart[i], buffer, blockStart[0], inputSize);
        FoldStep(op, before, buffer[..], all, lens, inputSize, i);
      }
    }

    lemma FirstBlock(op: (E, E) -> E, all: seq<E>, lens: seq<nat>, size: nat)
      requires |lens| >= 1 && lens[0] == size && |all| == Sum(lens, |lens|)
      ensures Sum(lens, 0) == 0 && Sum(lens, 1) == size <= |all|
      ensures AR.FoldBlocks(op, all, lens, 1) == all[..size]
    {
      assert Sum(lens, 1) == Sum(lens, 0) + size;
      SumMono(lens, 1, |lens|);
    }

    lemma FoldStep(op: (E, E) -> E, before: seq<E>, after: seq<E>, all: seq<E>, lens: seq<nat>, size: nat, i: nat)
      requires 1 <= i < |lens| && lens == AR.Uniform(|lens|, size)
      requires |all| == Sum(lens, |lens|) <= |before| && size <= Sum(lens, i) <= Sum(lens, i + 1) <= |all|
      requires before[..size] == AR.FoldBlocks(op, all, lens, i)
      requires before[size..Sum(lens, |lens|)] == all[size..]
      requires after == Combine(op, before, 0, before[Sum(lens, i)..Sum(lens, i) + size])
      ensures after[..size] == AR.FoldBlocks(op, all, lens, i + 1)
      ensures after[size..Sum(lens, |lens|)] == all[size..]
    {
      hide Combine;
      var lo, hi, end := Sum(lens, i), Sum(lens, i + 1), Sum(lens, |lens|);
      assert hi == lo + size;
      SameSlice(before, all, size, lo, hi);
      CombineFront(op, before, before[lo..hi]);
      assert after[size..end] == after[size..][..end - size] && before[size..end] == before[size..][..end - size];
    }

    lemma SameSlice(before: seq<E>, all: seq<E>, size: nat, lo: nat, hi: nat)
      requires size <= lo <= hi <= |all| <= |before| && before[size..|all|] == all[size..]
      ensures before[lo..hi] == all[lo..hi]
    {
      assert all[size..] == all[size..|all|];
      SliceOfSlice(before, size, |all|, lo, hi);
      SliceOfSlice(all, size, |all|, lo, hi);
    }

    lemma CombineFront(op: (E, E) -> E, buf: seq<E>, m: seq<E>)
      requires |m| <= |buf|
      ensures Combine(op, buf, 0, m)[..|m|] == Combine(op, buf[..|m|], 0, m)
      ensures Combine(op, buf, 0, m)[|m|..] == buf[|m|..]
    {
    }

    /** The split is computed in bytes; the buffers here hold elements. */
    method SplitBlocks(inputSize: nat, typeSize: nat) returns (start: seq<nat>, len: seq<nat>)
      requires Valid() && typeSize > 0 && inputSize % typeSize == 0 && inputSize / typeSize >= numMachines
      modifies this`blockStart, this`blockLen
      ensures len == BlockSplit.Lens(numMachines, inputSize / typeSize) && IsLayout(start, len)
      ensures Sum(len, numMachines) == inputSize / typeSize
      ensures |blockStart| == |blockLen| == numMachines
      ensures forall i :: 0 <= i < numMachines ==>
                blockStart[i] == typeSize * start[i] && blockLen[i] == typeSize * len[i]
    {
      var bytesStart, bytesLen := BlockSplit.SplitBytes(numMachines, inputSize, typeSize);
      ghost var count := inputSize / typeSize;
      forall i | 0 <= i < numMachines
        ensures bytesStart[i] / typeSize == BlockSplit.Start(numMachines, count, i)
        ensures bytesLen[i] / typeSize == BlockSplit.Lens(numMachines, count)[i]
      {
        BlockSplit.Unscale(typeSize, BlockSplit.Start(numMachines, count, i));
        BlockSplit.Unscale(typeSize, BlockSplit.Lens(numMachines, count)[i]);
      }
      start := seq(numMachines, i requires 0 <= i < numMachines => bytesStart[i] / typeSize);
      len := seq(numMachines, i requires 0 <= i < numMachines => bytesLen[i] / typeSize);
      blockStart, blockLen := bytesStart, bytesLen;
      assert len == BlockSplit.Lens(numMachines, count);
      forall i | 0 <= i < numMachines
        ensures start[i] == Sum(len, i)
      {
        BlockSplit.StartIsSum(numMachines, count, i);
      }
      BlockSplit.SplitCovers(numMachines, count);
    }

    /** All-reduce. Small inputs are gathered whole, large ones reduce-scattered and gathered. */
    method Allreduce(op: (E, E) -> E, input: array<E>, inputSize: nat, typeSize: nat, output: array<E>,
                     ghost small: seq<seq<E>>, ghost scatter: seq<seq<E>>, ghost gather: seq<seq<E>>,
                     ghost rest: seq<Packet<E>>)
      requires Valid() && typeSize > 0 && inputSize == input.Length * typeSize && input.Length <= output.Length
      requires input != output && buffer != input && buffer != output
      requires AR.GathersWhole(numMachines, input.Length, typeSize) ==>
                 GatherInbox(linkers.inbox, bruckMap.k, AR.Uniform(numMachines, input.Length), rank, small)
      requires !AR.GathersWhole(numMachines, input.Length, typeSize) ==>
                 var lens := BlockSplit.Lens(numMachines, input.Length);
                 && ScatterLengths(Plan(lens), rank, scatter)
                 && linkers.inbox == ScatterInbox(Plan(lens), rank, scatter, 0) + rest
                 && GatherInbox(rest, bruckMap.k, lens, rank, gather)
      modifies this`blockStart, this`blockLen, this`buffer, linkers, input, output, buffer
      ensures AR.GathersWhole(numMachines, input.Length, typeSize) ==>
                && output[..input.Length] == AR.SmallResult(op, numMachines, input.Length, rank, old(input[..]), small)
                && linkers.inbox == old(linkers.inbox[bruckMap.k..])
                && linkers.sent ==
                   old(linkers.sent) +
                   GatherSent(AR.Uniform(numMachines, input.Length), rank, old(input[..]), small, bruckMap.k)
      ensures !AR.GathersWhole(numMachines, input.Length, typeSize) ==>
                var lens := BlockSplit.Lens(numMachines, input.Length);
                && Plan(lens).Cells() == input.Length
                && output[..input.Length] == AR.LargeResult(op, Plan(lens), rank, old(input[..]), scatter, gather)
                && linkers.inbox == rest[bruckMap.k..]
                && linkers.sent ==
                   old(linkers.sent) +
                   ScatterSent(op, Plan(lens), rank, old(input[..]), scatter, halvingMap.k + 2) +
                   GatherSent(lens, rank, RS.Result(op, Plan(lens), rank, old(input[..]), scatter), gather, bruckMap.k)
    {
      hide GatherInbox, ScatterInbox, ScatterLengths, ScatterSent, GatherSent, AG.Gathered, RS.Result, AR.SmallResult;
      var count := inputSize / typeSize;
      DivModUnique(inputSize, typeSize, input.Length, 0);
      if count < numMachines || inputSize < 4096 {
        AllreduceByAllGather(op, input, input.Length, output, small);
        return;
      }
      var start, len := SplitBlocks(inputSize, typeSize);
      ReduceScatter(op, input, count, start, len, output, scatter, rest);
      Allgather(output, count, start, len, output, gather);
    }
  }
}
