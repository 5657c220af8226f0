/** `d3.group(iterable, key)`: the values of a list collected by key into a
    map whose keys keep the order in which they first appear. The key function
    is a parameter; the monthly aggregator passes the month key. */
module Grouping {

  /** The values of xs whose key is k, in input order. */
  function Members<T, K(==)>(xs: seq<T>, key: T -> K, k: K): (g: seq<T>)
    ensures |g| <= |xs|
    ensures forall i | 0 <= i < |g| :: key(g[i]) == k
  {
    if xs == [] then []
    else
      var last := xs[|xs| - 1];
      Members(xs[..|xs| - 1], key, k) + (if key(last) == k then [last] else [])
  }

  /** The keys of xs, each once, in order of first appearance. */
  function KeysInOrder<T, K(==)>(xs: seq<T>, key: T -> K): seq<K> {
    if xs == [] then []
    else
      var ks := KeysInOrder(xs[..|xs| - 1], key);
      var k := key(xs[|xs| - 1]);
      if k in ks then ks else ks + [k]
  }

  /** The map from each key to its group. */
  function GroupMap<T, K(==)>(xs: seq<T>, key: T -> K): map<K, seq<T>> {
    map k | k in KeysInOrder(xs, key) :: Members(xs, key, k)
  }

  predicate Distinct<K(==)>(s: seq<K>) {
    forall i, j | 0 <= i < j < |s| :: s[i] != s[j]
  }

  /** A group is non-empty exactly when its key is listed. */
  lemma {:induction false} MembersNonEmpty<T, K>(xs: seq<T>, key: T -> K, k: K)
    ensures |Members(xs, key, k)| > 0 <==> k in KeysInOrder(xs, key)
  {
    if xs != [] {
      MembersNonEmpty(xs[..|xs| - 1], key, k);
    }
  }

  /** The listed keys are distinct, every value's key is among them, and
      there are no more keys than values (none exactly when there are no
      values). */
  lemma {:induction false} KeysInOrderComplete<T, K>(xs: seq<T>, key: T -> K)
    ensures Distinct(KeysInOrder(xs, key))
    ensures forall i | 0 <= i < |xs| :: key(xs[i]) in KeysInOrder(xs, key)
    ensures |KeysInOrder(xs, key)| <= |xs|
    ensures KeysInOrder(xs, key) == [] <==> xs == []
  {
    if xs != [] {
      var init := xs[..|xs| - 1];
      KeysInOrderComplete(init, key);
      forall i | 0 <= i < |xs| ensures key(xs[i]) in KeysInOrder(xs, key) {
        if i < |xs| - 1 {
          assert xs[i] == init[i];
        }
      }
    }
  }

  /** Grouping is a partition: the group of k holds every value with key k,
      as often as it occurs in xs, and nothing else. */
  lemma {:induction false} MembersCount<T, K>(xs: seq<T>, key: T -> K, k: K, x: T)
    ensures multiset(Members(xs, key, k))[x] == if key(x) == k then multiset(xs)[x] else 0
  {
    if xs != [] {
      var init := xs[..|xs| - 1];
      MembersCount(init, key, k, x);
      assert xs == init + [xs[|xs| - 1]];
    }
  }

  /** Every value of xs lies in exactly one group: the one of its own key,
      which is listed. */
  lemma EachInOneGroup<T, K>(xs: seq<T>, key: T -> K, x: T)
    requires x in xs
    ensures key(x) in KeysInOrder(xs, key)
    ensures forall k | k in KeysInOrder(xs, key) :: x in Members(xs, key, k) <==> k == key(x)
  {
    KeysInOrderComplete(xs, key);
    forall k | k in KeysInOrder(xs, key) ensures x in Members(xs, key, k) <==> k == key(x) {
      MembersCount(xs, key, k, x);
    }
  }

  lemma KeysInOrderStep<T, K>(xs: seq<T>, key: T -> K, x: T)
    ensures KeysInOrder(xs + [x], key)
            == if key(x) in KeysInOrder(xs, key) then KeysInOrder(xs, key) else KeysInOrder(xs, key) + [key(x)]
  {
    assert (xs + [x])[..|xs|] == xs;
  }

  lemma MembersStep<T, K>(xs: seq<T>, key: T -> K, x: T, k: K)
    ensures Members(xs + [x], key, k) == Members(xs, key, k) + (if key(x) == k then [x] else [])
  {
    assert (xs + [x])[..|xs|] == xs;
  }

  /** Appending a value extends the group of its key and no other. */
  lemma GroupMapStep<T, K>(xs: seq<T>, key: T -> K, x: T)
    ensures GroupMap(xs + [x], key) == GroupMap(xs, key)[key(x) := Members(xs, key, key(x)) + [x]]
  {
    var k := key(x);
    KeysInOrderStep(xs, key, x);
    var m1, m2 := GroupMap(xs + [x], key), GroupMap(xs, key)[k := Members(xs, key, k) + [x]];
    assert m1.Keys == m2.Keys;
    forall k' | k' in m1 ensures m1[k'] == m2[k'] {
      MembersStep(xs, key, x, k');
    }
  }

  /** One pass over the values that appends each to the group of its key,
      creating the group, and listing its key, on first sight. */
  method Group<T, K(==)>(xs: seq<T>, key: T -> K) returns (keys: seq<K>, groups: map<K, seq<T>>)
    ensures keys == KeysInOrder(xs, key)
    ensures groups == GroupMap(xs, key)
  {
    keys, groups := [], map[];
    for i := 0 to |xs|
      invariant keys == KeysInOrder(xs[..i], key)
      invariant groups == GroupMap(xs[..i], key)
    {
      var x := xs[i];
      var k := key(x);
      assert xs[..i + 1] == xs[..i] + [x];
      KeysInOrderStep(xs[..i], key, x);
      GroupMapStep(xs[..i], key, x);
      if k in groups {
        groups := groups[k := groups[k] + [x]];
      } else {
        MembersNonEmpty(xs[..i], key, k);
        assert Members(xs[..i], key, k) + [x] == [x];
        keys := keys + [k];
        groups := groups[k := [x]];
      }
    }
    assert xs[..|xs|] == xs;
  }
}
