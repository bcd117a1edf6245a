/** The vector clock of the synchronous scheduler. */
module VectorClock {

  /** The value of a clock: one count a worker, and the count all workers have reached. */
  datatype Clock = Clock(local: seq<nat>, global: nat)

  ghost predicate IsMin(s: seq<nat>, m: nat) {
    (exists i :: 0 <= i < |s| && s[i] == m) && forall i :: 0 <= i < |s| ==> m <= s[i]
  }

  /** The global count is the least local one. */
  ghost predicate InStep(c: Clock) {
    IsMin(c.local, c.global)
  }

  ghost predicate AllReached(c: Clock) {
    forall i :: 0 <= i < |c.local| ==> c.local[i] == c.global
  }

  function Min(s: seq<nat>): (m: nat)
    requires |s| > 0
    ensures IsMin(s, m)
  {
    if |s| == 1 then s[0]
    else
      var m := Min(s[..|s| - 1]);
      assert forall i :: 0 <= i < |s| - 1 ==> s[..|s| - 1][i] == s[i];
      if s[|s| - 1] < m then s[|s| - 1] else m
  }

  function Max(s: seq<nat>, least: nat): (m: nat)
    ensures least <= m && forall i :: 0 <= i < |s| ==> s[i] <= m
    ensures m == least || exists i :: 0 <= i < |s| && s[i] == m
  {
    if s == [] then least
    else
      var m := Max(s[..|s| - 1], least);
      assert forall i :: 0 <= i < |s| - 1 ==> s[..|s| - 1][i] == s[i];
      if s[|s| - 1] > m then s[|s| - 1] else m
  }

  /** One more event of worker i; the flag says that all workers have now reached the same count. */
  function Tick(c: Clock, i: nat): (r: (Clock, bool))
    requires i < |c.local|
    ensures |r.0.local| == |c.local|
  {
    var local := c.local[i := c.local[i] + 1];
    if c.global < Min(local) then
      (Clock(local, c.global + 1), c.global + 1 == Max(local, c.global + 1))
    else (Clock(local, c.global), false)
  }

  /** While the global count is the least local one it stays so, and the flag is raised exactly when the
      event brings all workers to the same count. */
  lemma {:induction false} TickInStep(c: Clock, i: nat)
    requires i < |c.local| && InStep(c)
    ensures InStep(Tick(c, i).0)
    ensures Tick(c, i).0.local == c.local[i := c.local[i] + 1]
    ensures c.global <= Tick(c, i).0.global <= c.global + 1
    ensures Tick(c, i).1 <==> AllReached(Tick(c, i).0)
  {
    var c' := Tick(c, i).0;
    var m :| 0 <= m < |c.local| && c.local[m] == c.global;
    if c.global < Min(c'.local) {
      assert c'.local[m] == c.global + 1;
    } else {
      assert c'.local[i] == c.local[i] + 1;
    }
  }

  /** While some other worker is at the global count, an event changes neither it nor raises the flag. */
  lemma {:induction false} TickHeldBack(c: Clock, i: nat, v: nat)
    requires i < |c.local| && v < |c.local| && v != i && InStep(c) && c.local[v] == c.global
    ensures Tick(c, i) == (Clock(c.local[i := c.local[i] + 1], c.global), false)
  {
    assert c.local[i := c.local[i] + 1][v] == c.global;
  }

  class VectorClock {
    var localClock: seq<nat>
    var globalClock: nat

    constructor (n: nat)
      ensures Value() == Clock(seq(n, _ => 0), 0)
    {
      localClock, globalClock := seq(n, _ => 0), 0;
    }

    function Value(): (c: Clock)
      reads this
    {
      Clock(localClock, globalClock)
    }

    method MinElement() returns (min: nat)
      requires |localClock| > 0
      ensures min == Min(localClock)
    {
      min := localClock[0];
      assert localClock[..1] == [localClock[0]];
      for i := 1 to |localClock|
        invariant min == Min(localClock[..i])
      {
        assert localClock[..i + 1][..i] == localClock[..i];
        if localClock[i] < min {
          min := localClock[i];
        }
      }
      assert localClock[..|localClock|] == localClock;
    }

    method MaxElement() returns (max: nat)
      ensures max == Max(localClock, globalClock)
    {
      max := globalClock;
      for i := 0 to |localClock|
        invariant max == Max(localClock[..i], globalClock)
      {
        assert localClock[..i + 1][..i] == localClock[..i];
        max := if localClock[i] > max then localClock[i] else max;
      }
      assert localClock[..|localClock|] == localClock;
    }

    /** True when all local clocks have reached the same number. */
    method Update(i: nat) returns (all: bool)
      requires i < |localClock|
      modifies this
      ensures (Value(), all) == Tick(old(Value()), i)
    {
      hide Min, Max;
      localClock := localClock[i := localClock[i] + 1];
      var min := MinElement();
      if globalClock < min {
        globalClock := globalClock + 1;
        var max := MaxElement();
        if globalClock == max {
          return true;
        }
      }
      return false;
    }
  }
}
