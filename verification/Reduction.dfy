/** Element-wise reduction: left folds, and why an associative and commutative reducer makes the
    order in which contributions meet irrelevant. */
module Reduction {

  ghost predicate Assoc3<E>(op: (E, E) -> E, x: E, y: E, z: E) {
    op(op(x, y), z) == op(x, op(y, z))
  }

  ghost predicate Comm2<E>(op: (E, E) -> E, x: E, y: E) {
    op(x, y) == op(y, x)
  }

  ghost predicate Associative<E(!new)>(op: (E, E) -> E) {
    forall x, y, z {:trigger Assoc3(op, x, y, z)} :: Assoc3(op, x, y, z)
  }

  ghost predicate Commutative<E(!new)>(op: (E, E) -> E) {
    forall x, y {:trigger Comm2(op, x, y)} :: Comm2(op, x, y)
  }

  ghost predicate InRange(order: seq<nat>, n: nat) {
    forall j {:trigger order[j]} :: 0 <= j < |order| ==> order[j] < n
  }

  /** The contributions x[order[0]], x[order[1]], ... reduced from the left. */
  function Fold<E>(op: (E, E) -> E, x: seq<E>, order: seq<nat>): E
    requires |order| > 0 && InRange(order, |x|)
  {
    var last := |order| - 1;
    if last == 0 then x[order[0]] else op(Fold(op, x, order[..last]), x[order[last]])
  }

  /** From the first on, each next value is the second operand. */
  lemma {:induction false} FoldNext<E>(op: (E, E) -> E, x: seq<E>, order: seq<nat>, i: nat)
    requires |order| > 0 && InRange(order, |x|) && i < |x|
    ensures InRange(order + [i], |x|) && InRange([i], |x|)
    ensures Fold(op, x, [i]) == x[i] && Fold(op, x, order + [i]) == op(Fold(op, x, order), x[i])
  {
    assert (order + [i])[..|order|] == order;
  }

  function Ranks(n: nat): (r: seq<nat>)
    ensures |r| == n && forall j :: 0 <= j < n ==> r[j] == j
  {
    seq(n, i requires 0 <= i < n => i)
  }

  /** The values that all machines hold at one position. */
  function Column<E>(xs: seq<seq<E>>, e: nat): (c: seq<E>)
    requires forall r :: 0 <= r < |xs| ==> e < |xs[r]|
    ensures |c| == |xs| && forall r :: 0 <= r < |xs| ==> c[r] == xs[r][e]
  {
    seq(|xs|, r requires 0 <= r < |xs| => xs[r][e])
  }

  lemma {:induction false} FoldConcat<E(!new)>(op: (E, E) -> E, x: seq<E>, a: seq<nat>, b: seq<nat>)
    requires Associative(op)
    requires |a| > 0 && |b| > 0 && InRange(a, |x|) && InRange(b, |x|)
    ensures InRange(a + b, |x|)
    ensures Fold(op, x, a + b) == op(Fold(op, x, a), Fold(op, x, b))
  {
    var last := |b| - 1;
    assert (a + b)[..|a + b| - 1] == a + b[..last];
    assert (a + b)[|a + b| - 1] == b[last];
    if last == 0 {
      assert a + b[..last] == a;
    } else {
      FoldConcat(op, x, a, b[..last]);
      assert Assoc3(op, Fold(op, x, a), Fold(op, x, b[..last]), x[b[last]]);
    }
  }

  lemma FoldOne<E>(op: (E, E) -> E, x: seq<E>, v: nat)
    requires v < |x|
    ensures Fold(op, x, [v]) == x[v]
  {
  }

  /** Moving one contribution to the end does not change the result. */
  lemma FoldMoveLast<E(!new)>(op: (E, E) -> E, x: seq<E>, b: seq<nat>, j: nat)
    requires Associative(op) && Commutative(op)
    requires j < |b| && InRange(b, |x|)
    ensures var moved := b[..j] + b[j + 1..] + [b[j]];
      InRange(moved, |x|) && Fold(op, x, moved) == Fold(op, x, b)
  {
    hide Fold;
    var front, v, back := b[..j], [b[j]], b[j + 1..];
    assert b == front + (v + back);
    if back == [] {
      assert front + back + v == b;
    } else {
      FoldConcat(op, x, v, back);
      FoldConcat(op, x, back, v);
      assert Comm2(op, Fold(op, x, v), Fold(op, x, back));
      if front == [] {
        assert b == v + back && front + back + v == back + v;
      } else {
        FoldConcat(op, x, front, v + back);
        FoldConcat(op, x, front, back + v);
        assert front + back + v == front + (back + v);
      }
    }
  }

  /** A reduction depends only on how often each machine contributes. */
  lemma {:induction false} FoldPermutation<E(!new)>(op: (E, E) -> E, x: seq<E>, a: seq<nat>, b: seq<nat>)
    requires Associative(op) && Commutative(op)
    requires |a| > 0 && InRange(a, |x|) && InRange(b, |x|)
    requires multiset(a) == multiset(b)
    ensures |b| > 0
    ensures Fold(op, x, a) == Fold(op, x, b)
    decreases |a|
  {
    var last := |a| - 1;
    var j := SameElsewhere(a, b);
    var rest := b[..j] + b[j + 1..];
    FoldMoveLast(op, x, b, j);
    if last > 0 {
      FoldPermutation(op, x, a[..last], rest);
      assert (rest + [b[j]])[..|rest|] == rest;
    } else {
      assert rest == [];
    }
  }

  /** Taking the last element of a out of both leaves permutations of each other. */
  lemma SameElsewhere(a: seq<nat>, b: seq<nat>) returns (j: nat)
    requires |a| > 0 && multiset(a) == multiset(b)
    ensures j < |b| && b[j] == a[|a| - 1]
    ensures multiset(b[..j] + b[j + 1..]) == multiset(a[..|a| - 1])
    ensures |b| == |a|
  {
    var last := |a| - 1;
    assert a == a[..last] + [a[last]];
    assert a[last] in multiset(a);
    j :| 0 <= j < |b| && b[j] == a[last];
    assert b == b[..j] + [b[j]] + b[j + 1..];
    assert multiset(b[..j] + b[j + 1..]) == multiset(b) - multiset{b[j]};
    assert multiset(a[..last]) == multiset(a) - multiset{a[last]};
    assert |multiset(a)| == |a| && |multiset(b)| == |b|;
  }

  /** What the reducer leaves in a buffer when m is reduced into it from position start on. */
  function Combine<E>(op: (E, E) -> E, buf: seq<E>, start: nat, m: seq<E>): (r: seq<E>)
    ensures |r| == |buf|
    ensures forall e {:trigger r[e]} :: 0 <= e < |buf| ==>
              r[e] == if start <= e < start + |m| then op(buf[e], m[e - start]) else buf[e]
  {
    seq(|buf|, e requires 0 <= e < |buf| => if start <= e < start + |m| then op(buf[e], m[e - start]) else buf[e])
  }
}
