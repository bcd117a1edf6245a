/** Which items go to which server. */
module Sharding {

  /** What server s gets of items that belong to keys, in order. */
  ghost function Select<T>(keys: seq<nat>, items: seq<T>, n: nat, s: nat): (r: seq<T>)
    requires |keys| == |items| && n > 0
    decreases |keys|
  {
    if keys == [] then []
    else
      var k := |keys| - 1;
      Select(keys[..k], items[..k], n, s) + if keys[k] % n == s then [items[k]] else []
  }

  /** One more key. */
  lemma {:induction false} SelectNext<T>(keys: seq<nat>, items: seq<T>, n: nat, s: nat, i: nat)
    requires |keys| == |items| && n > 0 && i < |keys|
    ensures Select(keys[..i + 1], items[..i + 1], n, s)
         == Select(keys[..i], items[..i], n, s) + if keys[i] % n == s then [items[i]] else []
  {
    assert keys[..i + 1][..i] == keys[..i] && items[..i + 1][..i] == items[..i];
  }

  /** The number of items selected depends on the keys only, and grows with them. */
  lemma {:induction false} SelectSize<T, U>(keys: seq<nat>, a: seq<T>, b: seq<U>, n: nat, s: nat)
    requires |keys| == |a| == |b| && n > 0
    ensures |Select(keys, a, n, s)| == |Select(keys, b, n, s)|
    decreases |keys|
  {
    if keys == [] {
    } else {
      var k := |keys| - 1;
      SelectSize(keys[..k], a[..k], b[..k], n, s);
    }
  }

  lemma {:induction false} SelectGrows<T>(keys: seq<nat>, items: seq<T>, n: nat, s: nat, i: nat)
    requires |keys| == |items| && n > 0 && i <= |keys|
    ensures |Select(keys[..i], items[..i], n, s)| <= |Select(keys, items, n, s)|
    decreases |keys| - i
  {
    if i < |keys| {
      SelectNext(keys, items, n, s, i);
      SelectGrows(keys, items, n, s, i + 1);
    } else {
      assert keys[..i] == keys && items[..i] == items;
    }
  }

  /** An item whose key belongs to server s stands behind those selected of the items before it. */
  lemma {:induction false} SelectAt<T>(keys: seq<nat>, items: seq<T>, n: nat, s: nat, i: nat)
    requires |keys| == |items| && n > 0 && i < |keys| && keys[i] % n == s
    ensures var j := |Select(keys[..i], items[..i], n, s)|;
            j < |Select(keys, items, n, s)| && Select(keys, items, n, s)[j] == items[i]
    decreases |keys|
  {
    var k := |keys| - 1;
    if i < k {
      SelectAt(keys[..k], items[..k], n, s, i);
      assert keys[..k][..i] == keys[..i] && items[..k][..i] == items[..i];
    }
  }

  /** Every key selected for server s belongs to it. */
  lemma {:induction false} SelectedKey(keys: seq<nat>, n: nat, s: nat, j: nat)
    requires n > 0 && j < |Select(keys, keys, n, s)|
    ensures Select(keys, keys, n, s)[j] in keys && Select(keys, keys, n, s)[j] % n == s
    decreases |keys|
  {
    var k := |keys| - 1;
    if j < |Select(keys[..k], keys[..k], n, s)| {
      SelectedKey(keys[..k], n, s, j);
    }
  }

  /** Every key reaches its server. */
  lemma {:induction false} KeyIsSelected(keys: seq<nat>, n: nat, i: nat)
    requires n > 0 && i < |keys|
    ensures keys[i] in Select(keys, keys, n, keys[i] % n)
    decreases |keys|
  {
    var k := |keys| - 1;
    var got := Select(keys, keys, n, keys[i] % n);
    if i == k {
      assert got[|got| - 1] == keys[i];
    } else {
      KeyIsSelected(keys[..k], n, i);
      var before := Select(keys[..k], keys[..k], n, keys[i] % n);
      var j :| 0 <= j < |before| && before[j] == keys[i];
      assert got[j] == keys[i];
    }
  }
}
