/** What the Bruck all-gather sends and holds, and why every rank ends with every block in order.

    `got[i]` is what a rank received in round i. A family of such histories, one a rank, is matched
    when each rank received exactly what its peer of that round sent; nothing else is assumed about
    timing. Module Network shows that every interleaving of the ranks ends in a matched family. */
module Allgather {
  import opened Arith
  import opened Blocks
  import opened BruckMap

  function Take<E>(s: seq<E>, m: nat): seq<E> {
    if m <= |s| then s[..m] else s
  }

  /** The written prefix of the output buffer after the given rounds. */
  function Cells<E>(own: seq<E>, got: seq<seq<E>>): seq<E> {
    own + Flatten(got)
  }

  function SendCount(lens: seq<nat>, rank: nat, i: nat): nat
    requires |lens| > 0
  {
    RingSum(lens, rank, Moved(|lens|, i))
  }

  function RecvCount(lens: seq<nat>, rank: nat, i: nat): nat
    requires |lens| > 0
  {
    RingSum(lens, (rank + Held(|lens|, i)) % |lens|, Moved(|lens|, i))
  }

  /** The message of round i, from what was received before round i. */
  function Message<E>(lens: seq<nat>, rank: nat, own: seq<E>, before: seq<seq<E>>, i: nat): seq<E>
    requires |lens| > 0
  {
    Take(Cells(own, before), SendCount(lens, rank, i))
  }

  /** The output buffer after the final rotation. */
  function Gathered<E>(lens: seq<nat>, rank: nat, own: seq<E>, got: seq<seq<E>>): seq<E>
    requires rank < |lens|
  {
    var cells, head := Cells(own, got), Sum(lens, rank);
    if head <= |cells| then Rotated(cells, head) else cells
  }

  /** What rank r received in round i is what its peer sent in that round. */
  ghost predicate Delivered<E>(blocks: seq<seq<E>>, got: seq<seq<seq<E>>>, r: nat, i: nat)
    requires r < |got| == |blocks| && i < |got[r]|
    requires var p := InRank(|blocks|, r, i); p < |got| && i <= |got[p]|
  {
    var p := InRank(|blocks|, r, i);
    got[r][i] == Message(Lens(blocks), p, blocks[p], got[p][..i], i)
  }

  ghost predicate Matched<E>(k: nat, blocks: seq<seq<E>>, got: seq<seq<seq<E>>>)
    requires |blocks| > 0
  {
    && |got| == |blocks|
    && (forall r :: 0 <= r < |got| ==> |got[r]| == k)
    && (forall r, i {:trigger Delivered(blocks, got, r, i)} :: 0 <= r < |got| && 0 <= i < k ==>
          Delivered(blocks, got, r, i))
  }

  lemma HeldStep(k: nat, n: nat, i: nat)
    requires IsRounds(k, n) && i < k
    ensures Pow2(i) < n && Held(n, i) == Pow2(i)
    ensures Moved(n, i) <= Held(n, i) && Held(n, i) + Moved(n, i) == Held(n, i + 1) <= n
  {
    Pow2Mono(i, k - 1);
  }

  /** Appending the first m of the h blocks a peer holds extends the ring of h blocks to h + m. */
  lemma Extend<E>(blocks: seq<seq<E>>, r: nat, h: nat, m: nat)
    requires r < |blocks| && m <= h && h + m <= |blocks|
    ensures var p := (r + h) % |blocks|;
      Ring(blocks, r, h) + Take(Ring(blocks, p, h), RingSum(Lens(blocks), p, m)) == Ring(blocks, r, h + m)
  {
    var p := (r + h) % |blocks|;
    RingSplit(blocks, r, h, m);
    RingSplit(blocks, p, m, h - m);
    RingLength(blocks, p, m);
    assert m + (h - m) == h;
  }

  /** After i rounds a rank holds its own block and the next ones around the ring, Held(n, i) of them. */
  lemma {:induction false} HoldsRing<E>(k: nat, blocks: seq<seq<E>>, got: seq<seq<seq<E>>>, r: nat, i: nat)
    requires r < |blocks| && i <= k && IsRounds(k, |blocks|)
    requires Matched(k, blocks, got)
    ensures Cells(blocks[r], got[r][..i]) == Ring(blocks, r, Held(|blocks|, i))
    decreases i
  {
    hide Ring, Cells, RingSum;
    if i == 0 {
      OwnIsRing(blocks, r, got[r]);
    } else {
      var p := InRank(|blocks|, r, i - 1);
      HeldStep(k, |blocks|, i - 1);
      HoldsRing(k, blocks, got, r, i - 1);
      HoldsRing(k, blocks, got, p, i - 1);
      assert Delivered(blocks, got, r, i - 1);
      Extend(blocks, r, Held(|blocks|, i - 1), Moved(|blocks|, i - 1));
      CellsStep(blocks[r], got[r], i - 1);
    }
  }

  lemma OwnIsRing<E>(blocks: seq<seq<E>>, r: nat, got: seq<seq<E>>)
    requires r < |blocks|
    ensures Cells(blocks[r], got[..0]) == Ring(blocks, r, Held(|blocks|, 0))
  {
    RingOfOne(blocks, r);
  }

  lemma RingOfOne<E>(blocks: seq<seq<E>>, r: nat)
    requires r < |blocks|
    ensures Ring(blocks, r, 1) == blocks[r]
  {
    WrapOnce(r, |blocks|);
    assert Ring(blocks, r, 1) == Ring(blocks, r, 0) + blocks[(r + 1 - 1) % |blocks|];
  }

  lemma CellsNone<E>(own: seq<E>)
    ensures Cells(own, []) == own
  {
  }

  lemma CellsStep<E>(own: seq<E>, got: seq<seq<E>>, i: nat)
    requires i < |got|
    ensures Cells(own, got[..i + 1]) == Cells(own, got[..i]) + got[i]
  {
    assert got[..i + 1][..i] == got[..i];
  }

  lemma RotatesToOrder<E>(blocks: seq<seq<E>>, r: nat, got: seq<seq<E>>)
    requires r < |blocks|
    requires Cells(blocks[r], got) == Ring(blocks, r, |blocks|)
    ensures Gathered(Lens(blocks), r, blocks[r], got) == Flatten(blocks)
  {
    FullRing(blocks, r);
  }

  /** Every rank ends with block 0, block 1, ... block n-1, whatever their lengths. */
  lemma AllgatherCorrect<E>(k: nat, blocks: seq<seq<E>>, got: seq<seq<seq<E>>>, r: nat)
    requires r < |blocks| && IsRounds(k, |blocks|)
    requires Matched(k, blocks, got)
    ensures Gathered(Lens(blocks), r, blocks[r], got[r]) == Flatten(blocks)
  {
    HoldsRing(k, blocks, got, r, k);
    assert got[r][..k] == got[r];
    RotatesToOrder(blocks, r, got[r]);
  }
}
