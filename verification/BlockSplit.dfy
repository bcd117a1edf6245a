/** The block split of the large all-reduce path: ceil(count / n) elements a block, in bytes. */
module BlockSplit {
  import opened Arith
  import opened Blocks

  /** Elements a block, rounded up. */
  function Step(n: nat, count: nat): (s: nat)
    requires n > 0
  {
    (count + n - 1) / n
  }

  /** Elements before block i; past the end of the data there is nothing left to start. */
  function Start(n: nat, count: nat, i: nat): (s: nat)
    requires n > 0
    ensures s <= count
  {
    if i * Step(n, count) < count then i * Step(n, count) else count
  }

  lemma StartMono(n: nat, count: nat, i: nat)
    requires n > 0
    ensures Start(n, count, i) <= Start(n, count, i + 1) <= Start(n, count, i) + Step(n, count)
  {
    var step := Step(n, count);
    assert (i + 1) * step == i * step + step;
  }

  /** Elements of each block. */
  function Lens(n: nat, count: nat): (lens: seq<nat>)
    requires n > 0
    ensures |lens| == n
  {
    seq(n, i requires 0 <= i < n => StartMono(n, count, i); Start(n, count, i + 1) - Start(n, count, i))
  }

  lemma {:induction false} StartIsSum(n: nat, count: nat, i: nat)
    requires n > 0 && i <= n
    ensures Sum(Lens(n, count), i) == Start(n, count, i)
  {
    if i == 0 {
    } else {
      StartIsSum(n, count, i - 1);
      StartMono(n, count, i - 1);
    }
  }

  /** n blocks of the rounded-up size reach the end: the split covers the data exactly. */
  lemma SplitCovers(n: nat, count: nat)
    requires n > 0
    ensures Sum(Lens(n, count), n) == count
  {
    hide Lens, Sum;
    StepReaches(n, count);
    StartIsSum(n, count, n);
  }

  lemma StepReaches(n: nat, count: nat)
    requires n > 0
    ensures n * Step(n, count) >= count
  {
    DivModDef(count + n - 1, n);
    assert n * Step(n, count) == Step(n, count) * n;
  }

  /** It is the least size that does. */
  lemma StepIsLeast(n: nat, count: nat, m: nat)
    requires n > 0 && n * m >= count
    ensures Step(n, count) <= m
  {
    var s := Step(n, count);
    DivModDef(count + n - 1, n);
    assert s * n <= m * n + (n - 1);
    QuotientLe(s, m, n, n - 1);
  }

  lemma Scaled(t: nat, a: nat, b: nat)
    requires a <= b
    ensures t * a <= t * b && t * (b - a) == t * b - t * a
  {
    MulLe(a, b, t);
  }

  lemma Unscale(t: nat, a: nat)
    requires t > 0
    ensures (t * a) / t == a && (t * a) % t == 0
  {
    DivModUnique(t * a, t, a, 0);
  }

  /** Bytes a block but the last may have: at least one element. */
  function ByteStep(n: nat, size: nat, t: nat): nat
    requires n > 0 && t > 0
  {
    (if Step(n, size / t) < 1 then 1 else Step(n, size / t)) * t
  }

  /** The byte block i starts at; the last block takes all that is left. */
  function ByteStart(n: nat, size: nat, t: nat, i: nat): (s: nat)
    requires n > 0 && t > 0
    ensures s <= size
  {
    if i < n && i * ByteStep(n, size, t) < size then i * ByteStep(n, size, t) else size
  }

  lemma NextByteStart(n: nat, size: nat, t: nat, i: nat)
    requires n > 0 && t > 0 && i + 1 < n
    ensures var s, a := ByteStep(n, size, t), ByteStart(n, size, t, i);
      ByteStart(n, size, t, i + 1) == a + if s < size - a then s else size - a
  {
    assert (i + 1) * ByteStep(n, size, t) == i * ByteStep(n, size, t) + ByteStep(n, size, t);
  }

  /** Blocks are as many elements as there are divided by n, rounded up, but one at least. */
  lemma ByteStartIs(n: nat, size: nat, t: nat, i: nat)
    requires n > 0 && t > 0 && i < n
    ensures var up := (size / t + n - 1) / n; var step := if up < 1 then t else up * t;
            ByteStart(n, size, t, i) == if i * step < size then i * step else size
  {
    assert 1 * t == t;
  }

  /** Block starts and lengths in bytes, as the engine computes them: no length is negative and they cover the input.
      When the input consists of whole elements, every start and length is that of the element split times the element
      size, so no element is cut. */
  method SplitBytes(n: nat, inputSize: nat, typeSize: nat) returns (start: seq<nat>, len: seq<nat>)
    requires n > 0 && typeSize > 0
    ensures |start| == |len| == n && start[0] == 0 && start[n - 1] + len[n - 1] == inputSize
    ensures forall i {:trigger start[i]} :: 0 <= i < n ==> start[i] == ByteStart(n, inputSize, typeSize, i)
    ensures forall i {:trigger len[i]} :: 0 <= i < n ==>
              start[i] + len[i] == ByteStart(n, inputSize, typeSize, i + 1)
    ensures var count := inputSize / typeSize;
            inputSize % typeSize == 0 && count >= n ==>
              && (forall i {:trigger start[i]} :: 0 <= i < n ==> start[i] == typeSize * Start(n, count, i))
              && (forall i {:trigger len[i]} :: 0 <= i < n ==> len[i] == typeSize * Lens(n, count)[i])
  {
    var count := inputSize / typeSize;
    var step := (count + n - 1) / n;
    if step < 1 {
      step := 1;
    }
    assert step * typeSize == ByteStep(n, inputSize, typeSize);
    hide Step;
    start, len := [0], [];
    assert ByteStart(n, inputSize, typeSize, 0) == 0 by { assert 0 * ByteStep(n, inputSize, typeSize) == 0; }
    for i := 0 to n - 1
      invariant |start| == i + 1 && |len| == i && start[0] == 0
      invariant forall j {:trigger start[j]} :: 0 <= j <= i ==> start[j] == ByteStart(n, inputSize, typeSize, j)
      invariant forall j {:trigger len[j]} :: 0 <= j < i ==>
                  start[j] + len[j] == ByteStart(n, inputSize, typeSize, j + 1)
    {
      NextByteStart(n, inputSize, typeSize, i);
      var l := if step * typeSize < inputSize - start[i] then step * typeSize else inputSize - start[i];
      len := len + [l];
      start := start + [start[i] + l];
    }
    len := len + [inputSize - start[n - 1]];
    if inputSize % typeSize == 0 && count >= n {
      WholeElements(n, inputSize, typeSize, start, len);
    }
  }

  lemma StepPositive(n: nat, count: nat)
    requires n > 0 && count >= n
    ensures Step(n, count) >= 1
  {
    DivModDef(count + n - 1, n);
    if Step(n, count) < 1 {
      MulLe(Step(n, count), 0, n);
    }
  }

  lemma WholeElements(n: nat, size: nat, t: nat, start: seq<nat>, len: seq<nat>)
    requires n > 0 && t > 0 && size % t == 0 && size / t >= n && |start| == |len| == n
    requires forall i {:trigger start[i]} :: 0 <= i < n ==> start[i] == ByteStart(n, size, t, i)
    requires forall i {:trigger len[i]} :: 0 <= i < n ==> start[i] + len[i] == ByteStart(n, size, t, i + 1)
    ensures forall i {:trigger start[i]} :: 0 <= i < n ==> start[i] == t * Start(n, size / t, i)
    ensures forall i {:trigger len[i]} :: 0 <= i < n ==> len[i] == t * Lens(n, size / t)[i]
  {
    hide Start, ByteStart;
    var count := size / t;
    DivModDef(size, t);
    forall i | 0 <= i < n
      ensures start[i] == t * Start(n, count, i) && len[i] == t * Lens(n, count)[i]
    {
      ByteStartScaled(n, count, t, i);
      ByteStartScaled(n, count, t, i + 1);
      StartMono(n, count, i);
      Scaled(t, Start(n, count, i), Start(n, count, i + 1));
    }
  }

  lemma ByteStartScaled(n: nat, count: nat, t: nat, i: nat)
    requires n > 0 && t > 0 && count >= n && i <= n
    ensures ByteStart(n, t * count, t, i) == t * Start(n, count, i)
  {
    Unscale(t, count);
    StepPositive(n, count);
    var s := Step(n, count);
    hide Step;
    if i == n {
      SplitCovers(n, count);
      StartIsSum(n, count, n);
    } else {
      assert i * (s * t) == t * (i * s);
      if i * s < count {
        MulLe(1, count - i * s, t);
        Scaled(t, i * s, count);
      } else {
        Scaled(t, count, i * s);
      }
    }
  }

  /** No block is longer than it has to be: n blocks of any size that holds the data are at least as long. */
  lemma NoBlockLonger(n: nat, count: nat, m: nat)
    requires n > 0 && n * m >= count
    ensures forall i {:trigger Lens(n, count)[i]} :: 0 <= i < n ==> Lens(n, count)[i] <= m
  {
    hide Step;
    StepIsLeast(n, count, m);
    forall i | 0 <= i < n
      ensures Lens(n, count)[i] <= m
    {
      StartMono(n, count, i);
    }
  }

  /** Rounding up can leave the last blocks empty: none is if and only if all but one block do not cover the data. */
  lemma NoBlockEmpty(n: nat, count: nat)
    requires n > 0
    ensures Positive(Lens(n, count)) <==> (n - 1) * ((count + n - 1) / n) < count
  {
    var step := Step(n, count);
    SplitCovers(n, count);
    StartIsSum(n, count, n);
    if (n - 1) * step < count {
      DivModDef(count + n - 1, n);
      assert step > 0;
      forall b | 0 <= b < n
        ensures Lens(n, count)[b] > 0
      {
        MulLe(b, n - 1, step);
        assert (b + 1) * step == b * step + step;
      }
    } else {
      assert Lens(n, count)[n - 1] == 0;
    }
  }

  /** Five elements over four machines, and eight. */
  lemma LastBlockEmpty()
    ensures Lens(4, 5) == [2, 2, 1, 0] && Lens(4, 8) == [2, 2, 2, 2]
  {
    assert Step(4, 5) == 2 && Step(4, 8) == 2;
    var lens := Lens(4, 5);
    assert lens[0] == 2 && lens[1] == 2 && lens[2] == 1 && lens[3] == 0;
    var even := Lens(4, 8);
    assert even[0] == 2 && even[1] == 2 && even[2] == 2 && even[3] == 2;
  }
}
