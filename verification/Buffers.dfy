/** Flat buffers of equally long rows, read and overwritten in stretches. */
module Buffers {
  import opened Arith

  /** The start of the r-th stretch of len values. */
  function Base(r: nat, len: nat): nat {
    r * len
  }

  /** The values that start at base. */
  function Region<V>(data: seq<V>, base: int, len: nat): seq<V> {
    if 0 <= base && base + len <= |data| then data[base..base + len] else []
  }

  /** The data with the values from base on replaced. */
  ghost function Overwrite<V>(data: seq<V>, base: nat, values: seq<V>): (r: seq<V>)
    requires base + |values| <= |data|
    ensures |r| == |data|
  {
    data[..base] + values + data[base + |values|..]
  }

  lemma {:induction false} SameRegion<V>(data: seq<V>, base: nat, values: seq<V>)
    requires base + |values| <= |data|
    ensures Region(Overwrite(data, base, values), base, |values|) == values
  {
  }

  /** Stretches of different keys do not meet. */
  lemma {:induction false} OtherRegion<V>(data: seq<V>, a: nat, b: nat, len: nat, values: seq<V>)
    requires a != b && |values| == len && Base(a, len) + len <= |data|
    ensures Region(Overwrite(data, Base(a, len), values), Base(b, len), len) == Region(data, Base(b, len), len)
  {
    if a < b {
      MulLe(a + 1, b, len);
    } else {
      MulLe(b + 1, a, len);
    }
    Apart(data, Base(a, len), Base(b, len), len, values);
  }

  lemma {:induction false} Apart<V>(data: seq<V>, a: nat, b: nat, len: nat, values: seq<V>)
    requires |values| == len && a + len <= |data| && (a + len <= b || b + len <= a)
    ensures Region(Overwrite(data, a, values), b, len) == Region(data, b, len)
  {
    if b + len <= |data| {
      assert forall i :: b <= i < b + len ==> Overwrite(data, a, values)[i] == data[i];
    }
  }

  /** The r-th stretch ends before the data does. */
  lemma {:induction false} RegionFits(r: nat, n: nat, len: nat)
    requires r < n
    ensures Base(r, len) + len <= Base(n, len)
  {
    MulLe(r + 1, n, len);
  }

  /** A blob of values, cut into rows. */
  ghost function Rows<V>(vals: seq<V>, count: nat, len: nat): (r: seq<seq<V>>)
    ensures |r| == count && forall i {:trigger r[i]} :: 0 <= i < count ==> r[i] == Region(vals, Base(i, len), len)
  {
    seq(count, i requires 0 <= i => Region(vals, Base(i, len), len))
  }

  /** Writing row i of a blob of values. */
  lemma {:induction false} RowWritten<V>(vals: seq<V>, count: nat, len: nat, i: nat, row: seq<V>)
    requires |row| == len && i < count && |vals| == Base(count, len)
    ensures Base(i, len) + len <= |vals|
    ensures Rows(Overwrite(vals, Base(i, len), row), i, len) == Rows(vals, i, len)
    ensures Rows(Overwrite(vals, Base(i, len), row), i + 1, len) == Rows(vals, i, len) + [row]
  {
    RegionFits(i, count, len);
    SameRegion(vals, Base(i, len), row);
    var vals' := Overwrite(vals, Base(i, len), row);
    forall j: nat | j < i ensures Region(vals', Base(j, len), len) == Region(vals, Base(j, len), len) {
      OtherRegion(vals, i, j, len, row);
    }
    hide Base, Region, Overwrite;
    assert Rows(vals', i + 1, len) == Rows(vals, i, len) + [row];
  }

  lemma {:induction false} RowOf<V>(vals: seq<V>, count: nat, len: nat, i: nat)
    requires i < count && |vals| == Base(count, len)
    ensures Base(i, len) + len <= |vals|
    ensures Rows(vals, count, len)[i] == vals[Base(i, len)..Base(i, len) + len]
  {
    RegionFits(i, count, len);
  }
}
