/** Integers of fixed width as bytes, least significant first. */
module Bytes {

  type byte = x: int | 0 <= x < 256

  function Bound(width: nat): (b: nat)
    ensures b >= 1
  {
    if width == 0 then 1 else 256 * Bound(width - 1)
  }

  function Encode(n: nat, width: nat): (s: seq<byte>)
    ensures |s| == width
  {
    if width == 0 then [] else [n % 256] + Encode(n / 256, width - 1)
  }

  function Decode(s: seq<byte>): nat {
    if s == [] then 0 else s[0] + 256 * Decode(s[1..])
  }

  lemma {:induction false} DecodeEncode(n: nat, width: nat)
    requires n < Bound(width)
    ensures Decode(Encode(n, width)) == n
    decreases width
  {
    if width == 0 {
    } else {
      DecodeEncode(n / 256, width - 1);
    }
  }

  /** The bytes further on weigh more. */
  lemma {:induction false} DecodeSplit(s: seq<byte>, i: nat)
    requires i <= |s|
    ensures Decode(s) == Decode(s[..i]) + Bound(i) * Decode(s[i..])
  {
    if i == 0 {
      assert s[0..] == s;
    } else {
      DecodeSplit(s[1..], i - 1);
      assert s[..i][1..] == s[1..][..i - 1] && s[1..][i - 1..] == s[i..];
      assert 256 * (Bound(i - 1) * Decode(s[i..])) == Bound(i) * Decode(s[i..]);
    }
  }

  /** A two's complement integer as the unsigned one with the same bytes. */
  function Unsigned(n: int, width: nat): nat
    requires 0 <= 2 * n + Bound(width) && 2 * n < Bound(width)
  {
    if n >= 0 then n else n + Bound(width)
  }

  function Signed(u: nat, width: nat): int {
    if 2 * u < Bound(width) then u else u - Bound(width)
  }

  /** The bytes that start at a position, when there are enough. */
  ghost predicate At(buffer: seq<byte>, p: nat, s: seq<byte>) {
    p + |s| <= |buffer| && buffer[p..p + |s|] == s
  }

  lemma {:induction false} AtConcat(buffer: seq<byte>, p: nat, a: seq<byte>, b: seq<byte>)
    ensures At(buffer, p, a + b) <==> At(buffer, p, a) && At(buffer, p + |a|, b)
  {
    if p + |a| + |b| <= |buffer| {
      assert buffer[p..p + |a| + |b|] == buffer[p..p + |a|] + buffer[p + |a|..p + |a| + |b|];
      if buffer[p..p + |a| + |b|] == a + b {
        assert buffer[p..p + |a|] == (a + b)[..|a|];
        assert buffer[p + |a|..p + |a| + |b|] == (a + b)[|a|..];
      }
    }
  }
}
