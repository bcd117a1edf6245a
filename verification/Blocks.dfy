/** Unequal blocks laid end to end: plain and circular concatenation, prefix sums, and the
    in-place reversal the engine rotates with. */
module Blocks {
  import opened Arith

  function Flatten<E>(parts: seq<seq<E>>): seq<E>
  {
    if parts == [] then [] else Flatten(parts[..|parts| - 1]) + parts[|parts| - 1]
  }

  function Lens<E>(parts: seq<seq<E>>): (lens: seq<nat>)
    ensures |lens| == |parts|
  {
    seq(|parts|, i requires 0 <= i < |parts| => |parts[i]|)
  }

  /** The first m lengths, added up. */
  function Sum(lens: seq<nat>, m: nat): nat
    requires m <= |lens|
  {
    if m == 0 then 0 else Sum(lens, m - 1) + lens[m - 1]
  }

  lemma {:induction false} SumMono(lens: seq<nat>, a: nat, b: nat)
    requires a <= b <= |lens|
    ensures Sum(lens, a) <= Sum(lens, b)
  {
    if a < b {
      SumMono(lens, a, b - 1);
    }
  }

  /** start[i] is where block i begins when the blocks are laid out in order. */
  ghost predicate IsLayout(start: seq<nat>, len: seq<nat>)
  {
    |start| == |len| && forall i :: 0 <= i < |len| ==> start[i] == Sum(len, i)
  }

  /** m lengths from index s on, wrapping around. */
  function RingSum(lens: seq<nat>, s: nat, m: nat): nat
    requires |lens| > 0
  {
    if m == 0 then 0 else RingSum(lens, s, m - 1) + lens[(s + m - 1) % |lens|]
  }

  /** m blocks from index s on, wrapping around. */
  function Ring<E>(blocks: seq<seq<E>>, s: nat, m: nat): (r: seq<E>)
    requires |blocks| > 0
  {
    if m == 0 then [] else Ring(blocks, s, m - 1) + blocks[(s + m - 1) % |blocks|]
  }

  lemma {:induction false} RingLength<E>(blocks: seq<seq<E>>, s: nat, m: nat)
    requires |blocks| > 0
    ensures |Ring(blocks, s, m)| == RingSum(Lens(blocks), s, m)
  {
    if m == 0 {
    } else {
      RingLength(blocks, s, m - 1);
    }
  }

  lemma RingIndex(n: nat, s: nat, a: nat, j: nat)
    requires s < n && a <= n && j < n && a + j <= n
    ensures ((s + a) % n + j) % n == (s + (a + j)) % n
  {
    WrapOnce(s + a, n);
    if s + a + j < 2 * n {
      WrapOnce(s + a + j, n);
      if s + a < n {
      } else {
        WrapOnce(s + a - n + j, n);
      }
    }
  }

  lemma {:induction false} RingSumSplit(lens: seq<nat>, s: nat, a: nat, b: nat)
    requires s < |lens| && a + b <= |lens|
    ensures RingSum(lens, s, a + b) == RingSum(lens, s, a) + RingSum(lens, (s + a) % |lens|, b)
  {
    if b == 0 {
    } else {
      RingSumSplit(lens, s, a, b - 1);
      RingIndex(|lens|, s, a, b - 1);
    }
  }

  lemma {:induction false} RingSplit<E>(blocks: seq<seq<E>>, s: nat, a: nat, b: nat)
    requires s < |blocks| && a + b <= |blocks|
    ensures Ring(blocks, s, a + b) == Ring(blocks, s, a) + Ring(blocks, (s + a) % |blocks|, b)
  {
    if b == 0 {
    } else {
      RingSplit(blocks, s, a, b - 1);
      RingIndex(|blocks|, s, a, b - 1);
      assert Ring(blocks, (s + a) % |blocks|, b) ==
             Ring(blocks, (s + a) % |blocks|, b - 1) + blocks[(s + (a + (b - 1))) % |blocks|];
    }
  }

  lemma {:induction false} RingFromZero<E>(blocks: seq<seq<E>>, m: nat)
    requires 0 < |blocks| && m <= |blocks|
    ensures Ring(blocks, 0, m) == Flatten(blocks[..m])
    ensures RingSum(Lens(blocks), 0, m) == Sum(Lens(blocks), m) == |Flatten(blocks[..m])|
  {
    if m == 0 {
    } else {
      RingFromZero(blocks, m - 1);
      WrapOnce(m - 1, |blocks|);
      assert blocks[..m][..m - 1] == blocks[..m - 1];
    }
  }

  lemma {:induction false} RingSumFromZero(lens: seq<nat>, m: nat)
    requires 0 < |lens| && m <= |lens|
    ensures RingSum(lens, 0, m) == Sum(lens, m)
  {
    if m == 0 {
    } else {
      RingSumFromZero(lens, m - 1);
      WrapOnce(m - 1, |lens|);
    }
  }

  /** No block is empty. */
  ghost predicate Positive(lens: seq<nat>) {
    forall b {:trigger lens[b]} :: 0 <= b < |lens| ==> lens[b] > 0
  }

  lemma {:induction false} RingSumPositive(lens: seq<nat>, s: nat, m: nat)
    requires |lens| > 0 && m > 0 && Positive(lens)
    ensures RingSum(lens, s, m) > 0
  {
    if m == 1 {
      assert lens[(s + m - 1) % |lens|] > 0;
      assert RingSum(lens, s, 0) == 0;
    } else {
      RingSumPositive(lens, s, m - 1);
    }
  }

  lemma {:induction false} SumGrows(lens: seq<nat>, a: nat, b: nat)
    requires a < b <= |lens| && Positive(lens)
    ensures Sum(lens, a) < Sum(lens, b)
  {
    assert lens[b - 1] > 0;
    SumMono(lens, a, b - 1);
  }

  lemma RingSumOne(lens: seq<nat>, s: nat)
    requires s < |lens|
    ensures RingSum(lens, s, 1) == lens[s]
  {
    WrapOnce(s, |lens|);
    assert RingSum(lens, s, 1) == RingSum(lens, s, 0) + lens[(s + 1 - 1) % |lens|];
  }

  /** Starting past the end of the ring is starting at the wrapped index. */
  lemma {:induction false} RingSumShift(lens: seq<nat>, s: nat, m: nat)
    requires 0 < |lens| && s < 2 * |lens| && m <= |lens|
    ensures RingSum(lens, s, m) == RingSum(lens, s % |lens|, m)
  {
    var n := |lens|;
    WrapOnce(s, n);
    if m == 0 {
    } else {
      RingSumShift(lens, s, m - 1);
      if s >= n {
        ModMinus(s + (m - 1), n);
        assert s - n + (m - 1) == s + (m - 1) - n;
      }
    }
  }

  lemma ModMinus(x: nat, n: nat)
    requires 0 < n <= x
    ensures (x - n) % n == x % n
  {
    DivModDef(x - n, n);
    assert ((x - n) / n + 1) * n == (x - n) / n * n + n;
    DivModUnique(x, n, (x - n) / n + 1, (x - n) % n);
  }

  /** Once around the ring from s is the blocks from s on and then those before s; in order it is the other way. */
  lemma RingHalves<E>(blocks: seq<seq<E>>, s: nat)
    requires s < |blocks|
    ensures var n := |blocks|;
      && Ring(blocks, s, n) == Ring(blocks, s, n - s) + Ring(blocks, 0, s)
      && Flatten(blocks) == Ring(blocks, 0, s) + Ring(blocks, s, n - s)
      && |Ring(blocks, 0, s)| == Sum(Lens(blocks), s) && |Flatten(blocks)| == Sum(Lens(blocks), n)
  {
    hide Ring, RingSum, Sum, Flatten, Lens;
    var n := |blocks|;
    RingSplit(blocks, s, n - s, s);
    RingSplit(blocks, 0, s, n - s);
    WrapOnce(n, n);
    WrapOnce(s, n);
    RingFromZero(blocks, s);
    RingFromZero(blocks, n);
    assert blocks[..n] == blocks;
    assert (n - s) + s == n && s + (n - s) == n;
  }

  lemma RotatedHalves<E>(back: seq<E>, front: seq<E>)
    ensures Rotated(back + front, |front|) == front + back
  {
    assert (back + front)[|back|..] == front && (back + front)[..|back|] == back;
  }

  /** So it is a rotation of the blocks in order: the last s of its blocks, blocks 0 .. s, are what the final
      rotation brings to the front. */
  lemma FullRing<E>(blocks: seq<seq<E>>, s: nat)
    requires s < |blocks|
    ensures var ring := Ring(blocks, s, |blocks|);
      var head := Sum(Lens(blocks), s);
      && head <= |ring| == Sum(Lens(blocks), |blocks|)
      && Rotated(ring, head) == Flatten(blocks)
  {
    hide Ring, Sum, Flatten, Rotated, Lens;
    RingHalves(blocks, s);
    RotatedHalves(Ring(blocks, s, |blocks| - s), Ring(blocks, 0, s));
  }

  /** s with the part from lo up to hi reversed. */
  function Flipped<E>(s: seq<E>, lo: nat, hi: nat): (r: seq<E>)
    requires lo <= hi <= |s|
    ensures |r| == |s|
  {
    seq(|s|, k requires 0 <= k < |s| => if lo <= k < hi then s[lo + hi - 1 - k] else s[k])
  }

  /** Reversal of a[lo..hi] by swaps from both ends. */
  method ReverseRange<E>(a: array<E>, lo: nat, hi: nat)
    requires lo <= hi <= a.Length
    modifies a
    ensures a[..] == Flipped(old(a[..]), lo, hi)
  {
    var i, j := lo, hi;
    while i + 1 < j
      invariant lo <= i <= j <= hi && i + j == lo + hi
      invariant forall k :: lo <= k < i || j <= k < hi ==> a[k] == old(a[lo + hi - 1 - k])
      invariant forall k :: i <= k < j || 0 <= k < lo || hi <= k < a.Length ==> a[k] == old(a[k])
    {
      a[i], a[j - 1] := a[j - 1], a[i];
      i, j := i + 1, j - 1;
    }
    assert forall k :: lo <= k < hi ==> a[k] == old(a[lo + hi - 1 - k]);
    assert a[..] == Flipped(old(a[..]), lo, hi);
  }

  /** The last `head` elements moved to the front. */
  function Rotated<E>(s: seq<E>, head: nat): (r: seq<E>)
    requires head <= |s|
    ensures |r| == |s|
  {
    s[|s| - head..] + s[..|s| - head]
  }

  /** Reversing the first `all` elements, then the first `head`, then the others of the first `all`. */
  lemma ThreeReversals<E>(s: seq<E>, all: nat, head: nat)
    requires head <= all <= |s|
    ensures Flipped(Flipped(Flipped(s, 0, all), 0, head), head, all) == Rotated(s[..all], head) + s[all..]
  {
  }
}
