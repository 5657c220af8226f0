/** In-place sorting by a numeric key, as `array.sort((a, b) => key(a) - key(b))`
    does it for the daily records (by date) and the monthly aggregates (by month). */
module Sorting {

  predicate SortedBy<T>(s: seq<T>, key: T -> int) {
    forall i, j | 0 <= i < j < |s| :: key(s[i]) <= key(s[j])
  }

  /** The elements of s whose key is k, in their order in s. */
  function WithKey<T>(s: seq<T>, key: T -> int, k: int): (r: seq<T>)
    ensures |r| <= |s|
    ensures forall i | 0 <= i < |r| :: key(r[i]) == k
  {
    if s == [] then []
    else (if key(s[0]) == k then [s[0]] else []) + WithKey(s[1..], key, k)
  }

  lemma {:induction false} WithKeyAppend<T>(s: seq<T>, t: seq<T>, key: T -> int, k: int)
    ensures WithKey(s + t, key, k) == WithKey(s, key, k) + WithKey(t, key, k)
  {
    if s != [] {
      assert (s + t)[1..] == s[1..] + t;
      WithKeyAppend(s[1..], t, key, k);
      assert (s + t)[0] == s[0];
    } else {
      assert s + t == t;
    }
  }

  /** The elements of each key appear in s in the same order as in t. */
  ghost predicate SameKeyOrder<T>(s: seq<T>, t: seq<T>, key: T -> int)
  {
    forall k :: WithKey(s, key, k) == WithKey(t, key, k)
  }

  lemma WithKeyPair<T>(x: T, y: T, key: T -> int, k: int)
    ensures WithKey([x, y], key, k)
      == (if key(x) == k then [x] else []) + (if key(y) == k then [y] else [])
  {
    assert [x, y][1..] == [y];
    assert [y][1..] == [];
  }

  /** Exchanging two neighbours with different keys leaves the elements of
      every key in the same order. */
  lemma SwapKeepsKeyOrder<T>(s: seq<T>, key: T -> int, j: nat)
    requires 0 < j < |s| && key(s[j - 1]) != key(s[j])
    ensures SameKeyOrder(s[j - 1 := s[j]][j := s[j - 1]], s, key)
  {
    var x, y := s[j - 1], s[j];
    var p, q := s[..j - 1], s[j + 1..];
    assert s == (p + [x, y]) + q;
    assert s[j - 1 := s[j]][j := s[j - 1]] == (p + [y, x]) + q;
    forall k ensures WithKey((p + [y, x]) + q, key, k) == WithKey((p + [x, y]) + q, key, k) {
      SwapPairKeepsKey(p, x, y, q, key, k);
    }
  }

  lemma SwapPairKeepsKey<T>(p: seq<T>, x: T, y: T, q: seq<T>, key: T -> int, k: int)
    requires key(x) != key(y)
    ensures WithKey((p + [y, x]) + q, key, k) == WithKey((p + [x, y]) + q, key, k)
  {
    WithKeyAppend(p + [x, y], q, key, k);
    WithKeyAppend(p + [y, x], q, key, k);
    WithKeyAppend(p, [x, y], key, k);
    WithKeyAppend(p, [y, x], key, k);
    WithKeyPair(x, y, key, k);
    WithKeyPair(y, x, key, k);
  }

  lemma SameKeyOrderTrans<T>(s: seq<T>, t: seq<T>, u: seq<T>, key: T -> int)
    requires SameKeyOrder(s, t, key) && SameKeyOrder(t, u, key)
    ensures SameKeyOrder(s, u, key)
  {
  }

  /** The state of one insertion pass: the element travelling down sits at
      position j of s[..i+1]; what lies below it and what lies from it up to i
      are each in order, and its two neighbours are in order with each other. */
  predicate Inserting<T>(s: seq<T>, key: T -> int, j: nat, i: nat)
    requires j <= i < |s|
  {
    && (forall p, q | 0 <= p < q < j :: key(s[p]) <= key(s[q]))
    && (forall p, q | j <= p < q <= i :: key(s[p]) <= key(s[q]))
    && (0 < j < i ==> key(s[j - 1]) <= key(s[j + 1]))
  }

  /** A pass starts with the new element at i above an ordered prefix. */
  lemma InsertStart<T>(s: seq<T>, key: T -> int, i: nat)
    requires i < |s| && SortedBy(s[..i], key)
    ensures Inserting(s, key, i, i)
  {
    var w := s[..i];
    forall p, q | 0 <= p < q < i ensures key(s[p]) <= key(s[q]) {
      assert w[p] == s[p] && w[q] == s[q];
    }
  }

  /** Swapping the travelling element one place down keeps the pass's state. */
  lemma InsertStep<T>(s: seq<T>, key: T -> int, j: nat, i: nat)
    requires 0 < j <= i < |s| && Inserting(s, key, j, i)
    requires key(s[j - 1]) > key(s[j])
    ensures Inserting(s[j - 1 := s[j]][j := s[j - 1]], key, j - 1, i)
  {
    var t := s[j - 1 := s[j]][j := s[j - 1]];
    forall p, q | j - 1 <= p < q <= i ensures key(t[p]) <= key(t[q]) {
      if p == j - 1 {
        assert t[p] == s[j];
        if q > j {
          assert t[q] == s[q];
        }
      } else if p == j {
        assert t[p] == s[j - 1] && t[q] == s[q];
        if q > j + 1 {
          assert key(s[j + 1]) <= key(s[q]);
        }
      } else {
        assert t[p] == s[p] && t[q] == s[q];
      }
    }
    forall p, q | 0 <= p < q < j - 1 ensures key(t[p]) <= key(t[q]) {
      assert t[p] == s[p] && t[q] == s[q];
    }
    if 0 < j - 1 {
      assert t[j - 2] == s[j - 2] && t[j] == s[j - 1];
    }
  }

  /** When the travelling element has stopped, the whole prefix is in order. */
  lemma InsertDone<T>(s: seq<T>, key: T -> int, j: nat, i: nat)
    requires j <= i < |s| && Inserting(s, key, j, i)
    requires j > 0 ==> key(s[j - 1]) <= key(s[j])
    ensures SortedBy(s[..i + 1], key)
  {
    forall p, q | 0 <= p < q <= i ensures key(s[p]) <= key(s[q]) {
      if p < j && j <= q {
        if p < j - 1 {
          assert key(s[p]) <= key(s[j - 1]);
        }
        if j < q {
          assert key(s[j]) <= key(s[q]);
        }
      }
    }
    var w := s[..i + 1];
    forall p, q | 0 <= p < q < |w| ensures key(w[p]) <= key(w[q]) {
      assert w[p] == s[p] && w[q] == s[q];
    }
  }

  /** `Array.from(s)`: a new array holding the elements of s. */
  method ArrayOf<T>(s: seq<T>) returns (a: array<T>)
    ensures fresh(a) && a[..] == s
  {
    a := new T[|s|](i requires 0 <= i < |s| => s[i]);
    assert forall i | 0 <= i < |s| :: a[..][i] == s[i];
  }

  /** Exchanges two neighbouring elements. */
  method SwapDown<T>(a: array<T>, j: nat)
    requires 0 < j < a.Length
    modifies a
    ensures a[..] == old(a[..])[j - 1 := old(a[j])][j := old(a[j - 1])]
    ensures multiset(a[..]) == old(multiset(a[..]))
  {
    a[j - 1], a[j] := a[j], a[j - 1];
  }

  /** Insertion sort: afterwards the array is ordered by key, holds the
      same elements as before, and keeps the elements of each key in their
      old order (the sort is stable, as `Array.prototype.sort` is). */
  method SortByKey<T>(a: array<T>, key: T -> int)
    modifies a
    ensures SortedBy(a[..], key)
    ensures multiset(a[..]) == old(multiset(a[..]))
    ensures SameKeyOrder(a[..], old(a[..]), key)
  {
    for i := 0 to a.Length
      invariant SortedBy(a[..i], key)
      invariant multiset(a[..]) == old(multiset(a[..]))
      invariant SameKeyOrder(a[..], old(a[..]), key)
    {
      var j := i;
      InsertStart(a[..], key, i);
      while j > 0 && key(a[j - 1]) > key(a[j])
        invariant 0 <= j <= i
        invariant multiset(a[..]) == old(multiset(a[..]))
        invariant SameKeyOrder(a[..], old(a[..]), key)
        invariant Inserting(a[..], key, j, i)
      {
        ghost var s := a[..];
        InsertStep(s, key, j, i);
        SwapKeepsKeyOrder(s, key, j);
        SwapDown(a, j);
        SameKeyOrderTrans(a[..], s, old(a[..]), key);
        j := j - 1;
      }
      InsertDone(a[..], key, j, i);
    }
    assert a[..] == a[..a.Length];
  }
}
