/** Concatenation is associative; stated here once, so that a proof can ask for the instance it needs. */
module Sequences {

  lemma {:induction false} Append3<E>(a: seq<E>, b: seq<E>, c: seq<E>)
    ensures a + b + c == a + (b + c)
  {
  }

  lemma {:induction false} Append4<E>(a: seq<E>, b: seq<E>, c: seq<E>, d: seq<E>)
    ensures a + b + c + d == a + (b + (c + d))
  {
    assert a + b + c + d == a + b + (c + d);
  }

  /** A slice of a slice is a slice. */
  lemma {:induction false} SliceOfSlice<E>(s: seq<E>, a: nat, b: nat, lo: nat, hi: nat)
    requires a <= lo <= hi <= b <= |s|
    ensures s[a..b][lo - a..hi - a] == s[lo..hi]
  {
    var inner := s[a..b];
    assert |inner[lo - a..hi - a]| == |s[lo..hi]|;
    forall k | 0 <= k < hi - lo
      ensures inner[lo - a..hi - a][k] == s[lo..hi][k]
    {
      assert inner[lo - a..hi - a][k] == inner[lo - a + k] == s[lo + k];
    }
  }
}
