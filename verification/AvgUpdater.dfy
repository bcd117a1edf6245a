/** The window average updater. */
module AvgUpdater {

  /** The updater's accumulator and the table data it updates. */
  datatype Avg = Avg(sum: seq<real>, accu: nat, data: seq<real>)

  function Zeros(n: nat): (r: seq<real>)
    ensures |r| == n && forall i {:trigger r[i]} :: 0 <= i < n ==> r[i] == 0.0
  {
    seq(n, _ => 0.0)
  }

  ghost predicate Fits(a: Avg, delta: seq<real>, offset: nat) {
    |delta| <= |a.sum| && offset + |delta| <= |a.data|
  }

  ghost function Added(sum: seq<real>, delta: seq<real>): (r: seq<real>)
    requires |delta| <= |sum|
    ensures |r| == |sum|
    ensures forall i {:trigger r[i]} :: 0 <= i < |sum| ==> r[i] == if i < |delta| then sum[i] + delta[i] else sum[i]
  {
    seq(|sum|, i requires 0 <= i < |sum| => if i < |delta| then sum[i] + delta[i] else sum[i])
  }

  /** Data with the first n averages written from the offset on. */
  ghost function Averaged(data: seq<real>, sum: seq<real>, n: nat, offset: nat, workers: nat): (r: seq<real>)
    requires n <= |sum| && offset + n <= |data| && workers > 0
    ensures |r| == |data|
    ensures forall i {:trigger r[i]} :: 0 <= i < |data| ==>
      r[i] == if offset <= i < offset + n then sum[i - offset] / workers as real else data[i]
  {
    seq(|data|, i requires 0 <= i < |data| =>
      if offset <= i < offset + n then sum[i - offset] / workers as real else data[i])
  }

  ghost function AfterUpdate(a: Avg, workers: nat, delta: seq<real>, offset: nat): (r: Avg)
    requires workers > 0 && Fits(a, delta, offset)
    ensures |r.sum| == |a.sum| && |r.data| == |a.data|
  {
    var sum := Added(a.sum, delta);
    if a.accu + 1 == workers then
      Avg(Zeros(|sum|), 0, Averaged(a.data, sum, |delta|, offset, a.accu + 1))
    else Avg(sum, a.accu + 1, a.data)
  }

  /** The last worker's delta completes the averages, which go to the offset, and clears the sums; before that deltas
      are only added up. */
  lemma {:induction false} UpdateIs(a: Avg, workers: nat, delta: seq<real>, offset: nat)
    requires workers > 0 && Fits(a, delta, offset)
    ensures var r := AfterUpdate(a, workers, delta, offset);
      if a.accu + 1 == workers then
        && r.accu == 0 && (forall i {:trigger r.sum[i]} :: 0 <= i < |r.sum| ==> r.sum[i] == 0.0)
        && (forall i {:trigger delta[i]} :: 0 <= i < |delta| ==>
              r.data[offset + i] == (a.sum[i] + delta[i]) / workers as real)
        && forall j {:trigger r.data[j]} :: 0 <= j < offset || offset + |delta| <= j < |r.data| ==>
             r.data[j] == a.data[j]
      else
        && r.accu == a.accu + 1 && r.data == a.data
        && forall i {:trigger r.sum[i]} :: 0 <= i < |r.sum| ==>
             r.sum[i] == if i < |delta| then a.sum[i] + delta[i] else a.sum[i]
  {
  }

  class AvgUpdater {
    const size: nat
    const numWorkers: nat
    var accuNum: nat
    const sum: array<real>

    constructor (size: nat, numWorkers: nat)
      ensures Valid() && fresh(sum) && this.size == size && this.numWorkers == numWorkers
      ensures accuNum == 0 && sum[..] == Zeros(size)
    {
      this.size, this.numWorkers := size, numWorkers;
      accuNum := 0;
      sum := new real[size](_ => 0.0);
    }

    ghost predicate Valid() {
      sum.Length == size
    }

    method Update(numElement: nat, data: array<real>, delta: array<real>, offset: nat)
      requires Valid() && numWorkers > 0
      requires numElement <= size && numElement <= delta.Length && offset + numElement <= data.Length
      requires data != sum && delta != sum && delta != data
      modifies this`accuNum, sum, data
      ensures Valid()
      ensures Avg(sum[..], accuNum, data[..])
           == AfterUpdate(old(Avg(sum[..], accuNum, data[..])), numWorkers, old(delta[..numElement]), offset)
    {
      ghost var d := delta[..numElement];
      ghost var sum' := Added(sum[..], d);
      for i := 0 to numElement
        invariant delta[..numElement] == d && data[..] == old(data[..]) && accuNum == old(accuNum)
        invariant forall j :: 0 <= j < size ==> sum[j] == if j < i then sum'[j] else old(sum[j])
      {
        sum[i] := sum[i] + delta[i];
      }
      assert sum[..] == sum';
      accuNum := accuNum + 1;
      if accuNum == numWorkers {
        for i := 0 to numElement
          invariant sum[..] == sum' && accuNum == numWorkers
          invariant forall j :: 0 <= j < data.Length ==>
            data[j] == if offset <= j < offset + i then sum'[j - offset] / accuNum as real else old(data[j])
        {
          data[offset + i] := sum[i] / accuNum as real;
        }
        ghost var averaged := Averaged(old(data[..]), sum', numElement, offset, accuNum);
        assert data[..] == averaged;
        for i := 0 to size
          invariant data[..] == averaged
          invariant forall j :: 0 <= j < i ==> sum[j] == 0.0
        {
          sum[i] := 0.0;
        }
        assert sum[..] == Zeros(size);
        accuNum := 0;
      }
    }
  }
}
