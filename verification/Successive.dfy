/** Protocols run one after the other on the same channels. A machine that is done with one goes on to the next at
    once, whatever the others are doing. */
module Successive {
  import opened Completion
  import opened Network
  import opened Peers

  ghost function Then<E>(p: Protocol<E>, q: Protocol<E>): Protocol<E> {
    Protocol(p.n, p.rounds + q.rounds,
             (r: nat, j: nat) => if j < p.rounds then p.source(r, j) else q.source(r, j - p.rounds),
             (r: nat, j: nat) => if j < p.rounds then p.target(r, j) else q.target(r, j - p.rounds),
             (r: nat, j: nat) => if j < p.rounds then p.need(r, j) else q.need(r, j - p.rounds),
             (r: nat, h: seq<seq<E>>) => if |h| < p.rounds then p.message(r, h) else q.message(r, h[p.rounds..]))
  }

  ghost function Idle<E>(n: nat): Protocol<E> {
    Protocol(n, 0, (r: nat, j: nat) => Nobody, (r: nat, j: nat) => Nobody, (r: nat, j: nat) => 0,
             (r: nat, h: seq<seq<E>>) => [])
  }

  /** The given protocols in order. */
  ghost function Row<E>(n: nat, ps: seq<Protocol<E>>): (p: Protocol<E>)
    requires forall i {:trigger ps[i]} :: 0 <= i < |ps| ==> ps[i].n == n
    ensures p.n == n
  {
    if ps == [] then Idle(n) else Then(Row(n, ps[..|ps| - 1]), ps[|ps| - 1])
  }

  lemma ThenWellFormed<E(!new)>(p: Protocol<E>, q: Protocol<E>)
    requires WellFormed(p) && WellFormed(q) && p.n == q.n
    ensures WellFormed(Then(p, q))
  {
    hide RightLength, Fits;
    var t := Then(p, q);
    forall r: nat, j: nat | r < t.n && j < t.rounds
      ensures match t.source(r, j)
        case Nobody => t.need(r, j) == 0
        case Machine(s) => s < t.n && t.target(s, j) == Machine(r)
      ensures match t.target(r, j)
        case Nobody => true
        case Machine(w) => w < t.n && t.source(w, j) == Machine(r)
    {
      if j >= p.rounds {
        assert q.source(r, j - p.rounds) == t.source(r, j) && q.target(r, j - p.rounds) == t.target(r, j);
      } else {
        assert p.source(r, j) == t.source(r, j) && p.target(r, j) == t.target(r, j);
      }
    }
    forall r: nat, h | r < t.n && |h| < t.rounds && Fits(t, r, h)
      ensures RightLength(t, r, h)
    {
      ThenRightLength(p, q, r, h);
    }
  }

  lemma ThenFits<E(!new)>(p: Protocol<E>, q: Protocol<E>, r: nat, h: seq<seq<E>>)
    requires Fits(Then(p, q), r, h)
    ensures |h| < p.rounds ==> Fits(p, r, h)
    ensures |h| >= p.rounds ==> Fits(p, r, h[..p.rounds]) && Fits(q, r, h[p.rounds..])
  {
    var t := Then(p, q);
    if |h| < p.rounds {
      forall j | 0 <= j < |h|
        ensures |h[j]| == p.need(r, j)
      {
        assert |h[j]| == t.need(r, j);
      }
    } else {
      forall j | 0 <= j < p.rounds
        ensures |h[..p.rounds][j]| == p.need(r, j)
      {
        assert |h[j]| == t.need(r, j);
      }
      forall j | 0 <= j < |h[p.rounds..]|
        ensures |h[p.rounds..][j]| == q.need(r, j)
      {
        assert |h[p.rounds + j]| == t.need(r, p.rounds + j);
      }
    }
  }

  lemma ThenRightLength<E(!new)>(p: Protocol<E>, q: Protocol<E>, r: nat, h: seq<seq<E>>)
    requires WellFormed(p) && WellFormed(q) && p.n == q.n
    requires r < p.n && |h| < p.rounds + q.rounds && Fits(Then(p, q), r, h)
    ensures RightLength(Then(p, q), r, h)
  {
    hide Fits;
    ThenFits(p, q, r, h);
    if |h| < p.rounds {
      assert RightLength(p, r, h);
    } else {
      assert RightLength(q, r, h[p.rounds..]);
    }
  }

  lemma ThenSubstantial<E(!new)>(p: Protocol<E>, q: Protocol<E>)
    requires Substantial(p) && Substantial(q) && p.n == q.n
    ensures Substantial(Then(p, q))
  {
    var t := Then(p, q);
    forall r: nat, j: nat | r < t.n && j < t.rounds
      ensures !EmptyExchange(t, r, j)
    {
      if j < p.rounds {
        assert !EmptyExchange(p, r, j);
      } else {
        assert !EmptyExchange(q, r, j - p.rounds);
      }
    }
  }

  /** An empty exchange never taken in the last protocol is never taken at all. */
  lemma ThenNeverTaken<E(!new)>(p: Protocol<E>, q: Protocol<E>, r: nat, j: nat, w: nat)
    requires p.n == q.n && NeverTaken(q, r, j, w)
    ensures NeverTaken(Then(p, q), r, p.rounds + j, w)
  {
    var t := Then(p, q);
    forall i: nat | p.rounds + j < i < t.rounds && t.source(w, i) == Machine(r)
      ensures t.need(w, i) == 0
    {
      assert q.need(w, i - p.rounds) == 0;
    }
  }

  /** Every machine's history from round lo up to hi. */
  ghost function Slice<E>(hist: seq<seq<seq<E>>>, lo: nat, hi: nat): (h: seq<seq<seq<E>>>)
    requires lo <= hi && forall r {:trigger hist[r]} :: 0 <= r < |hist| ==> hi <= |hist[r]|
    ensures |h| == |hist| && forall r {:trigger h[r]} :: 0 <= r < |hist| ==> h[r] == hist[r][lo..hi]
  {
    seq(|hist|, r requires 0 <= r < |hist| => hist[r][lo..hi])
  }

  lemma ThenMatched<E(!new)>(p: Protocol<E>, q: Protocol<E>, hist: seq<seq<seq<E>>>)
    requires p.n == q.n && Matched(Then(p, q), hist)
    ensures Matched(p, Slice(hist, 0, p.rounds))
    ensures Matched(q, Slice(hist, p.rounds, p.rounds + q.rounds))
  {
    var t, a, b := Then(p, q), Slice(hist, 0, p.rounds), Slice(hist, p.rounds, p.rounds + q.rounds);
    forall r: nat, j: nat | r < p.n && j < p.rounds
      ensures match p.source(r, j)
        case Nobody => a[r][j] == []
        case Machine(s) => s < p.n && a[r][j] == p.message(s, a[s][..j])
    {
      assert t.source(r, j) == p.source(r, j);
      match p.source(r, j)
      case Nobody =>
      case Machine(s) => assert a[s][..j] == hist[s][..j];
    }
    forall r: nat, j: nat | r < q.n && j < q.rounds
      ensures match q.source(r, j)
        case Nobody => b[r][j] == []
        case Machine(s) => s < q.n && b[r][j] == q.message(s, b[s][..j])
    {
      assert t.source(r, p.rounds + j) == q.source(r, j);
      match q.source(r, j)
      case Nobody =>
      case Machine(s) => assert b[s][..j] == hist[s][..p.rounds + j][p.rounds..];
    }
  }

  // ---- any number of protocols ----

  lemma {:induction false} RowWellFormed<E(!new)>(n: nat, ps: seq<Protocol<E>>)
    requires forall i {:trigger ps[i]} :: 0 <= i < |ps| ==> ps[i].n == n && WellFormed(ps[i])
    ensures WellFormed(Row(n, ps))
    decreases |ps|
  {
    hide WellFormed, Then;
    if ps == [] {
      IdleWellFormed<E>(n);
    } else {
      RowWellFormed(n, ps[..|ps| - 1]);
      ThenWellFormed(Row(n, ps[..|ps| - 1]), ps[|ps| - 1]);
      ThenSize(Row(n, ps[..|ps| - 1]), ps[|ps| - 1]);
    }
  }

  lemma IdleWellFormed<E(!new)>(n: nat)
    ensures WellFormed(Idle<E>(n)) && Substantial(Idle<E>(n))
  {
  }

  lemma ThenSize<E>(p: Protocol<E>, q: Protocol<E>)
    ensures Then(p, q).n == p.n && Then(p, q).rounds == p.rounds + q.rounds
  {
  }

  lemma {:induction false} RowSubstantial<E(!new)>(n: nat, ps: seq<Protocol<E>>)
    requires forall i {:trigger ps[i]} :: 0 <= i < |ps| ==> ps[i].n == n && Substantial(ps[i])
    ensures Substantial(Row(n, ps))
    decreases |ps|
  {
    hide Substantial, Then;
    if ps == [] {
      IdleWellFormed<E>(n);
    } else {
      RowSubstantial(n, ps[..|ps| - 1]);
      ThenSubstantial(Row(n, ps[..|ps| - 1]), ps[|ps| - 1]);
      ThenSize(Row(n, ps[..|ps| - 1]), ps[|ps| - 1]);
    }
  }

  /** The round in which protocol i of a row starts. */
  ghost function StartOf<E>(n: nat, ps: seq<Protocol<E>>, i: nat): nat
    requires i <= |ps| && forall m {:trigger ps[m]} :: 0 <= m < |ps| ==> ps[m].n == n
  {
    Row(n, ps[..i]).rounds
  }

  lemma {:induction false} StartNext<E>(n: nat, ps: seq<Protocol<E>>, i: nat)
    requires i < |ps| && forall m {:trigger ps[m]} :: 0 <= m < |ps| ==> ps[m].n == n
    ensures StartOf(n, ps, i + 1) == StartOf(n, ps, i) + ps[i].rounds <= Row(n, ps).rounds
    decreases |ps|
  {
    assert ps[..i + 1][..i] == ps[..i];
    if i + 1 == |ps| {
      assert ps[..i + 1] == ps;
    } else {
      var front := ps[..|ps| - 1];
      StartNext(n, front, i);
      assert front[..i] == ps[..i] && front[..i + 1] == ps[..i + 1];
    }
  }

  lemma MatchedLengths<E(!new)>(p: Protocol<E>, hist: seq<seq<seq<E>>>)
    requires Matched(p, hist)
    ensures |hist| == p.n && forall r {:trigger hist[r]} :: 0 <= r < p.n ==> |hist[r]| == p.rounds
  {
  }

  /** However the machines interleave, each protocol of the row gets matched histories of its own. */
  lemma {:induction false} EachMatched<E(!new)>(n: nat, ps: seq<Protocol<E>>, hist: seq<seq<seq<E>>>, i: nat)
    requires i < |ps| && forall m {:trigger ps[m]} :: 0 <= m < |ps| ==> ps[m].n == n
    requires Matched(Row(n, ps), hist)
    ensures StartOf(n, ps, i) + ps[i].rounds <= Row(n, ps).rounds
    ensures Matched(ps[i], Slice(hist, StartOf(n, ps, i), StartOf(n, ps, i) + ps[i].rounds))
    decreases |ps|
  {
    hide Then, Matched;
    var last := |ps| - 1;
    var front, p := ps[..last], Row(n, ps[..last]);
    MatchedLengths(Row(n, ps), hist);
    ThenMatched(p, ps[last], hist);
    ThenSize(p, ps[last]);
    StartNext(n, ps, i);
    if i < last {
      EachMatched(n, front, Slice(hist, 0, p.rounds), i);
      assert front[..i] == ps[..i];
      var lo := StartOf(n, ps, i);
      SliceSlice(hist, p.rounds, lo, lo + ps[i].rounds);
    }
  }

  lemma SliceSlice<E>(hist: seq<seq<seq<E>>>, all: nat, lo: nat, hi: nat)
    requires lo <= hi <= all && forall r {:trigger hist[r]} :: 0 <= r < |hist| ==> all <= |hist[r]|
    ensures Slice(Slice(hist, 0, all), lo, hi) == Slice(hist, lo, hi)
  {
    forall r | 0 <= r < |hist|
      ensures Slice(Slice(hist, 0, all), lo, hi)[r] == Slice(hist, lo, hi)[r]
    {
      assert hist[r][0..all][lo..hi] == hist[r][lo..hi];
    }
  }
}
