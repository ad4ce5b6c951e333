/**
  The keyed indexes the sync code builds in loops: a JavaScript `Map`
  (`sysMap`, `wfMap` in api/delta-sync.js) and the plain objects
  `existingById` (libs/sync.js) and the feature map (`getFeatureMap`).
  All of them are filled the same way: walk a list, compute a key, skip
  the element when the key is falsy, otherwise `set` the key. A `Map`
  keeps the position of the first insertion of a key and the value of
  the last one; `keys` records that order, `vals` the contents.
*/
module OrderedIndex {
  import opened Wrappers

  datatype Index<V> = Index(keys: seq<string>, vals: map<string, V>)

  /** Keys are distinct and are exactly the domain of `vals`. */
  ghost predicate Valid<V>(m: Index<V>) {
    && (forall i, j :: 0 <= i < j < |m.keys| ==> m.keys[i] != m.keys[j])
    && (forall k :: k in m.vals <==> k in m.keys)
  }

  /** Every key of the iteration order has a value: what a loop over the entries relies on. */
  ghost predicate Covered<V>(m: Index<V>) {
    forall j :: 0 <= j < |m.keys| ==> m.keys[j] in m.vals
  }

  /** `m.set(k, v)` */
  function Put<V>(m: Index<V>, k: string, v: V): (r: Index<V>)
    requires Valid(m)
    ensures Valid(r)
    ensures r.vals == m.vals[k := v]
    ensures k in m.vals ==> r.keys == m.keys
    ensures k !in m.vals ==> r.keys == m.keys + [k]
  {
    if k in m.vals then Index(m.keys, m.vals[k := v]) else Index(m.keys + [k], m.vals[k := v])
  }

  /**
    The index obtained by visiting `xs` in order and setting
    `key(x) := val(x)` for every element whose key is present.
  */
  function IndexBy<T, V>(xs: seq<T>, key: T -> Option<string>, val: T -> V): (r: Index<V>)
    ensures Valid(r)
    ensures |r.keys| <= |xs|
    decreases |xs|
  {
    if xs == [] then Index([], map[])
    else
      var m := IndexBy(xs[..|xs| - 1], key, val);
      match key(xs[|xs| - 1])
      case None => m
      case Some(k) => Put(m, k, val(xs[|xs| - 1]))
  }

  /** The loop that fills the index, one element at a time. */
  method BuildIndex<T, V>(xs: seq<T>, key: T -> Option<string>, val: T -> V) returns (m: Index<V>)
    ensures m == IndexBy(xs, key, val)
  {
    m := Index([], map[]);
    for i := 0 to |xs|
      invariant m == IndexBy(xs[..i], key, val)
    {
      assert xs[..i + 1][..i] == xs[..i];
      match key(xs[i]) {
        case None =>
        case Some(k) =>
          m := Put(m, k, val(xs[i]));
      }
    }
    assert xs[..|xs|] == xs;
  }

  /** A key is indexed exactly when some element produces it. */
  lemma {:induction false} IndexByHas<T, V>(xs: seq<T>, key: T -> Option<string>, val: T -> V, k: string)
    ensures k in IndexBy(xs, key, val).vals <==> exists i :: 0 <= i < |xs| && key(xs[i]) == Some(k)
    decreases |xs|
  {
    if xs != [] {
      var init := xs[..|xs| - 1];
      IndexByHas(init, key, val, k);
      if exists i :: 0 <= i < |init| && key(init[i]) == Some(k) {
        var i :| 0 <= i < |init| && key(init[i]) == Some(k);
        assert key(xs[i]) == Some(k);
      }
      if exists i :: 0 <= i < |xs| && key(xs[i]) == Some(k) {
        var i :| 0 <= i < |xs| && key(xs[i]) == Some(k);
        if i < |init| {
          assert key(init[i]) == Some(k);
        }
      }
    }
  }

  /** A later element with the same key overwrites an earlier one: the last one wins. */
  lemma {:induction false} IndexByLastWins<T, V>(xs: seq<T>, key: T -> Option<string>, val: T -> V, i: nat)
    requires i < |xs| && key(xs[i]).Some?
    requires forall j :: i < j < |xs| ==> key(xs[j]) != key(xs[i])
    ensures key(xs[i]).value in IndexBy(xs, key, val).vals
    ensures IndexBy(xs, key, val).vals[key(xs[i]).value] == val(xs[i])
    decreases |xs|
  {
    if i < |xs| - 1 {
      var init := xs[..|xs| - 1];
      assert forall j :: i < j < |init| ==> init[j] == xs[j];
      IndexByLastWins(init, key, val, i);
    }
  }

  /**
    The keys come out in the order of their first occurrence: a key that
    first appears earlier in `xs` stands earlier in `keys`.
  */
  lemma {:induction false} IndexByFirstOccurrence<T, V>(xs: seq<T>, key: T -> Option<string>, val: T -> V, a: nat, b: nat)
    requires a < b < |IndexBy(xs, key, val).keys|
    ensures FirstIndex(xs, key, IndexBy(xs, key, val).keys[a]) < FirstIndex(xs, key, IndexBy(xs, key, val).keys[b])
    decreases |xs|
  {
    var init := xs[..|xs| - 1];
    var m := IndexBy(init, key, val);
    var r := IndexBy(xs, key, val);
    FirstIndexPrefix(xs, key, r.keys[a]);
    FirstIndexPrefix(xs, key, r.keys[b]);
    if b < |m.keys| {
      assert r.keys[a] == m.keys[a] && r.keys[b] == m.keys[b];
      IndexByFirstOccurrence(init, key, val, a, b);
      InKeysOccurs(init, key, val, m.keys[a]);
      InKeysOccurs(init, key, val, m.keys[b]);
    } else {
      // b is the key added by the last element, which occurs nowhere before it
      assert r.keys == m.keys + [r.keys[b]];
      InKeysOccurs(init, key, val, r.keys[a]);
      assert r.keys[b] !in m.vals;
      IndexByHas(init, key, val, r.keys[b]);
    }
  }

  /** Position of the first element producing key `k` (|xs| when none does). */
  function FirstIndex<T>(xs: seq<T>, key: T -> Option<string>, k: string): (r: nat)
    ensures r <= |xs|
    ensures r < |xs| ==> key(xs[r]) == Some(k)
    ensures forall j :: 0 <= j < r ==> key(xs[j]) != Some(k)
    decreases |xs|
  {
    if xs == [] then 0
    else if key(xs[0]) == Some(k) then 0
    else 1 + FirstIndex(xs[1..], key, k)
  }

  lemma FirstIndexPrefix<T>(xs: seq<T>, key: T -> Option<string>, k: string)
    requires xs != []
    ensures var f := FirstIndex(xs[..|xs| - 1], key, k);
      f < |xs| - 1 ==> FirstIndex(xs, key, k) == f
    ensures FirstIndex(xs[..|xs| - 1], key, k) == |xs| - 1 ==> FirstIndex(xs, key, k) >= |xs| - 1
  {
    var init := xs[..|xs| - 1];
    var f := FirstIndex(init, key, k);
    var g := FirstIndex(xs, key, k);
    assert forall j :: 0 <= j < |init| ==> init[j] == xs[j];
    assert f < |init| ==> key(xs[f]) == Some(k) && g <= f;
    assert g < |init| ==> key(init[g]) == Some(k) && f <= g;
  }

  lemma InKeysOccurs<T, V>(xs: seq<T>, key: T -> Option<string>, val: T -> V, k: string)
    requires k in IndexBy(xs, key, val).vals
    ensures FirstIndex(xs, key, k) < |xs|
  {
    IndexByHas(xs, key, val, k);
    var i :| 0 <= i < |xs| && key(xs[i]) == Some(k);
  }

  /** The keys of a key sequence as a set, built in the order a loop visits them. */
  function KeySet(ks: seq<string>): set<string>
    decreases |ks|
  {
    if ks == [] then {} else KeySet(ks[..|ks| - 1]) + {ks[|ks| - 1]}
  }

  lemma {:induction false} KeySetHas(ks: seq<string>, k: string)
    ensures k in KeySet(ks) <==> k in ks
    decreases |ks|
  {
    if ks != [] {
      KeySetHas(ks[..|ks| - 1], k);
      assert ks == ks[..|ks| - 1] + [ks[|ks| - 1]];
    }
  }

  /** A loop over `m.keys` meets each key for the first time. */
  lemma NextKey<V>(m: Index<V>, j: nat)
    requires Valid(m) && j < |m.keys|
    ensures m.keys[j] !in KeySet(m.keys[..j])
    ensures KeySet(m.keys[..j + 1]) == KeySet(m.keys[..j]) + {m.keys[j]}
  {
    assert m.keys[..j + 1][..j] == m.keys[..j];
    KeySetHas(m.keys[..j], m.keys[j]);
  }

  /** After the whole loop every key of the index has been met. */
  lemma AllKeys<V>(m: Index<V>)
    requires Valid(m)
    ensures KeySet(m.keys) == m.vals.Keys
  {
    forall k | true
      ensures k in KeySet(m.keys) <==> k in m.vals
    {
      KeySetHas(m.keys, k);
    }
  }

  /** How many of the first `n` keys of `ks` lie outside `other` (a counter a loop over `ks` keeps). */
  function Outside(ks: seq<string>, n: nat, other: set<string>): nat
    requires n <= |ks|
  {
    if n == 0 then 0 else Outside(ks, n - 1, other) + (if ks[n - 1] in other then 0 else 1)
  }

  /** How many of the first `n` keys of `ks` lie inside `other`. */
  function Inside(ks: seq<string>, n: nat, other: set<string>): nat
    requires n <= |ks|
  {
    if n == 0 then 0 else Inside(ks, n - 1, other) + (if ks[n - 1] in other then 1 else 0)
  }

  /** Adding an element not met before moves one of the two cardinalities by one. */
  lemma CardStep(seen: set<string>, x: string, other: set<string>)
    requires x !in seen
    ensures |(seen + {x}) - other| == |seen - other| + (if x in other then 0 else 1)
    ensures |(seen + {x}) * other| == |seen * other| + (if x in other then 1 else 0)
  {
    if x in other {
      assert (seen + {x}) * other == (seen * other) + {x};
      assert (seen + {x}) - other == seen - other;
    } else {
      assert (seen + {x}) - other == (seen - other) + {x};
      assert (seen + {x}) * other == seen * other;
    }
  }

  lemma {:induction false} CountsPrefix<V>(m: Index<V>, j: nat, other: set<string>)
    requires Valid(m) && j <= |m.keys|
    ensures Outside(m.keys, j, other) == |KeySet(m.keys[..j]) - other|
    ensures Inside(m.keys, j, other) == |KeySet(m.keys[..j]) * other|
  {
    if j > 0 {
      CountsPrefix(m, j - 1, other);
      NextKey(m, j - 1);
      CardStep(KeySet(m.keys[..j - 1]), m.keys[j - 1], other);
    }
  }

  /**
    Over the keys of a valid index, the two counters are the sizes of the
    key set's difference with and intersection with `other`.
  */
  lemma Counts<V>(m: Index<V>, other: set<string>)
    requires Valid(m)
    ensures Outside(m.keys, |m.keys|, other) == |m.vals.Keys - other|
    ensures Inside(m.keys, |m.keys|, other) == |m.vals.Keys * other|
  {
    CountsPrefix(m, |m.keys|, other);
    assert m.keys[..|m.keys|] == m.keys;
    AllKeys(m);
  }

  lemma CoveredByValid<V>(m: Index<V>)
    requires Valid(m)
    ensures Covered(m)
  {
  }

  lemma {:induction false} OutsideNothing(ks: seq<string>, n: nat)
    requires n <= |ks|
    ensures Outside(ks, n, {}) == n
  {
    if n > 0 {
      OutsideNothing(ks, n - 1);
    }
  }

  /** `m.size`: a valid index has one key in its order per key of its domain. */
  lemma Size<V>(m: Index<V>)
    requires Valid(m)
    ensures |m.keys| == |m.vals.Keys|
  {
    Counts(m, {});
    OutsideNothing(m.keys, |m.keys|);
    assert m.vals.Keys - {} == m.vals.Keys;
  }
}
