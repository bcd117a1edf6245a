/** Tensors: a shape over a blob that may be longer than the shape needs. */
module Tensors {
  import opened Buffers

  datatype Tensor<E> = Tensor(shape: seq<nat>, blob: seq<E>)

  function Product(dims: seq<nat>): nat {
    if dims == [] then 1 else dims[0] * Product(dims[1..])
  }

  /** The number of elements the shape asks for is the leading dimension times the row width. */
  ghost predicate Holds<E>(t: Tensor<E>) {
    |t.shape| > 0 && Product(t.shape) <= |t.blob|
  }

  /** The elements, as far as the shape goes. */
  ghost function Data<E>(t: Tensor<E>): (d: seq<E>)
    requires Holds(t)
    ensures |d| == Product(t.shape)
  {
    t.blob[..Product(t.shape)]
  }

  lemma {:induction false} LeadingDim(shape: seq<nat>, rows: nat)
    requires |shape| > 0
    ensures Product(shape) == Base(shape[0], Product(shape[1..]))
    ensures Product(shape[0 := rows]) == Base(rows, Product(shape[1..]))
  {
    assert shape[0 := rows][1..] == shape[1..];
  }

  lemma {:induction false} BaseSum(a: nat, b: nat, w: nat)
    ensures Base(a + b, w) == Base(a, w) + Base(b, w)
  {
  }
}
