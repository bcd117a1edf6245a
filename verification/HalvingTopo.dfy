/** The closed form of the recursive-halving topology.

    2^k groups share n machines, 2^k <= n < 2^(k+1): the first Base(n, k) machines stand alone, the
    others go in pairs, the left one of a pair leading it. When n is a power of two every machine
    is alone. In round i a group works with the group at distance 2^(k-1-i). */
module HalvingTopo {
  import opened Arith

  datatype NodeType = Normal | GroupLeader | Other

  ghost predicate IsGrouping(n: nat, k: nat) {
    Pow2(k) <= n < 2 * Pow2(k)
  }

  lemma GroupingUnique(n: nat, k: nat, k': nat)
    requires IsGrouping(n, k) && IsGrouping(n, k')
    ensures k == k'
  {
    if k < k' {
      Pow2Mono(k, k');
    } else if k' < k {
      Pow2Mono(k', k);
    }
  }

  function Base(n: nat, k: nat): (b: nat)
    requires n <= 2 * Pow2(k)
  {
    2 * Pow2(k) - n
  }

  /** First machine of group g; also where the group's blocks begin. NodeOf(n, k, Pow2(k)) is n. */
  function NodeOf(n: nat, k: nat, g: nat): (v: nat)
    requires n <= 2 * Pow2(k)
  {
    if g < Base(n, k) then g else 2 * g - Base(n, k)
  }

  function GroupOf(n: nat, k: nat, v: nat): (g: nat)
    requires n <= 2 * Pow2(k)
  {
    if v < Base(n, k) then v else Base(n, k) + (v - Base(n, k)) / 2
  }

  function TypeOf(n: nat, k: nat, v: nat): (t: NodeType)
    requires n <= 2 * Pow2(k)
  {
    if v < Base(n, k) then Normal else if (v - Base(n, k)) % 2 == 0 then GroupLeader else Other
  }

  function Distance(k: nat, i: nat): (d: nat)
    requires i < k
    ensures d >= 1
  {
    Pow2(k - 1 - i)
  }

  /** The group that g works with at distance d. */
  function Partner(g: nat, d: nat): (p: nat)
    requires d >= 1
  {
    if (g / d) % 2 == 0 then g + d else if g >= d then g - d else 0
  }

  /** The first group of the aligned run of d groups that holds g. */
  function RunStart(g: nat, d: nat): (s: nat)
    requires d >= 1
  {
    DivModDef(g, d);
    (g / d) * d
  }

  lemma GroupsAndNodes(n: nat, k: nat, g: nat)
    requires IsGrouping(n, k) && g < Pow2(k)
    ensures NodeOf(n, k, g) < NodeOf(n, k, g + 1) <= n
    ensures NodeOf(n, k, g + 1) - NodeOf(n, k, g) == if g < Base(n, k) then 1 else 2
    ensures GroupOf(n, k, NodeOf(n, k, g)) == g
    ensures TypeOf(n, k, NodeOf(n, k, g)) != Other
  {
  }

  lemma NodesAndGroups(n: nat, k: nat, v: nat)
    requires IsGrouping(n, k) && v < n
    ensures GroupOf(n, k, v) < Pow2(k)
    ensures v < NodeOf(n, k, GroupOf(n, k, v) + 1) <= n
    ensures NodeOf(n, k, GroupOf(n, k, v)) == if TypeOf(n, k, v) == Other then v - 1 else v
    ensures TypeOf(n, k, v) == Other ==> TypeOf(n, k, v - 1) == GroupLeader && GroupOf(n, k, v - 1) == GroupOf(n, k, v)
    ensures TypeOf(n, k, v) == GroupLeader ==> v + 1 < n && TypeOf(n, k, v + 1) == Other
  {
  }

  lemma NodeOfEnd(n: nat, k: nat)
    requires IsGrouping(n, k)
    ensures NodeOf(n, k, Pow2(k)) == n
  {
  }

  lemma NodeOfMono(n: nat, k: nat, a: nat, b: nat)
    requires n <= 2 * Pow2(k) && a <= b
    ensures NodeOf(n, k, a) <= NodeOf(n, k, b)
  {
  }

  /** The quotient of a group number by the distance, and that of its partner. */
  lemma PartnerQuotient(k: nat, i: nat, g: nat)
    requires i < k && g < Pow2(k)
    ensures var d := Distance(k, i);
      var p := Partner(g, d);
      && p < Pow2(k) && (g / d) % 2 == 1 - (p / d) % 2
      && p == (if (g / d) % 2 == 0 then g + d else g - d)
      && p / d == (if (g / d) % 2 == 0 then g / d + 1 else g / d - 1)
      && p % d == g % d
      && RunStart(g, d) + d <= Pow2(k)
      && RunStart(p, d) == (if (g / d) % 2 == 0 then RunStart(g, d) + d else RunStart(g, d) - d)
      && RunStart(p, d) + d <= Pow2(k)
  {
    var m := DistanceDivides(k, i);
    StepFrom(g, Distance(k, i), m, Pow2(k));
  }

  /** An even number of runs makes up all the groups. */
  lemma DistanceDivides(k: nat, i: nat) returns (m: nat)
    requires i < k
    ensures m % 2 == 0 && m * Distance(k, i) == Pow2(k)
  {
    m := Pow2(i + 1);
    assert m == 2 * Pow2(i);
    hide Pow2;
    Pow2Product(i + 1, k - 1 - i);
  }

  lemma StepFrom(g: nat, d: nat, m: nat, all: nat)
    requires d >= 1 && m % 2 == 0 && g < all == m * d
    ensures var p := Partner(g, d);
      && p < all && (g / d) % 2 == 1 - (p / d) % 2
      && p == (if (g / d) % 2 == 0 then g + d else g - d)
      && p / d == (if (g / d) % 2 == 0 then g / d + 1 else g / d - 1)
      && p % d == g % d
      && RunStart(g, d) + d <= all
      && RunStart(p, d) == (if (g / d) % 2 == 0 then RunStart(g, d) + d else RunStart(g, d) - d)
      && RunStart(p, d) + d <= all
  {
    if (g / d) % 2 == 0 {
      StepUp(g, d, m);
    } else {
      StepDown(g, d, m);
    }
  }

  lemma StepUp(g: nat, d: nat, m: nat)
    requires d >= 1 && m % 2 == 0 && g < m * d && (g / d) % 2 == 0
    ensures (g + d) / d == g / d + 1 && (g + d) % d == g % d
    ensures RunStart(g + d, d) == RunStart(g, d) + d
    ensures RunStart(g, d) + 2 * d <= m * d
    ensures g + d < m * d
  {
    var q := g / d;
    DivModDef(g, d);
    Below(q, m, d, g % d);
    assert (q + 1) * d == q * d + d;
    DivModUnique(g + d, d, q + 1, g % d);
    MulLe(q + 2, m, d);
    assert (q + 2) * d == q * d + 2 * d;
  }

  lemma StepDown(g: nat, d: nat, m: nat)
    requires d >= 1 && m % 2 == 0 && g < m * d && (g / d) % 2 == 1
    ensures g >= d
    ensures (g - d) / d == g / d - 1 && (g - d) % d == g % d
    ensures RunStart(g - d, d) == RunStart(g, d) - d
    ensures RunStart(g, d) + d <= m * d
  {
    var q := g / d;
    DivModDef(g, d);
    Below(q, m, d, g % d);
    MulLe(1, q, d);
    assert (q - 1) * d == q * d - d;
    DivModUnique(g - d, d, q - 1, g % d);
    MulLe(q + 1, m, d);
    assert (q + 1) * d == q * d + d;
  }

  lemma Below(q: nat, m: nat, d: nat, r: nat)
    requires r < d && q * d + r < m * d
    ensures q < m
  {
    QuotientLe(q, m, d, 0);
  }

  /** Partners are each other's partners. */
  lemma PartnerInvolution(k: nat, i: nat, g: nat)
    requires i < k && g < Pow2(k)
    ensures var d := Distance(k, i);
      var p := Partner(g, d);
      && p != g && p < Pow2(k) && Partner(p, d) == g
  {
    PartnerQuotient(k, i, g);
  }

  /** The runs of a group and its partner, side by side, are the group's run at twice the distance. */
  lemma RunsTile(k: nat, i: nat, g: nat)
    requires i < k && g < Pow2(k)
    ensures var d := Distance(k, i);
      var a, b, whole := RunStart(g, d), RunStart(Partner(g, d), d), RunStart(g, 2 * d);
      && a <= g < a + d
      && (if a < b then whole == a && b == a + d else whole == b && a == b + d)
      && whole + 2 * d <= Pow2(k)
  {
    var d := Distance(k, i);
    PartnerQuotient(k, i, g);
    DivModDef(g, d);
    DivTwice(g, d);
    var q := g / d;
    assert q == q / 2 * 2 + q % 2;
    assert q % 2 == 1 ==> q * d == (q / 2 * 2) * d + d;
  }

  /** Groups that agree modulo d are those that agree with g or with its partner modulo 2d, never both. */
  lemma ResiduesSplit(k: nat, i: nat, g: nat, h: nat)
    requires i < k && g < Pow2(k)
    ensures var d := Distance(k, i);
      var p := Partner(g, d);
      && (h % d == g % d <==> (h % (2 * d) == g % (2 * d) || h % (2 * d) == p % (2 * d)))
      && g % (2 * d) != p % (2 * d)
  {
    hide Partner;
    var d := Distance(k, i);
    var p := Partner(g, d);
    PartnerQuotient(k, i, g);
    DoubledResidue(g, d);
    DoubledResidue(p, d);
    DoubledResidue(h, d);
  }

  lemma DoubledResidue(x: nat, d: nat)
    requires d >= 1
    ensures x % (2 * d) == x % d + if (x / d) % 2 == 0 then 0 else d
    ensures 0 <= x % d < d
  {
    DivTwice(x, d);
    DivModDef(x, d);
    SmallBit((x / d) % 2, d);
  }

  lemma SmallBit(b: int, d: nat)
    requires 0 <= b <= 1
    ensures b * d == if b == 0 then 0 else d
  {
  }
}
