/**
 Sorting as `std::sort` does it: the result is some ordered permutation, and elements with equal
 keys may come out in any order. Keys are tuples of numbers, compared from left to right.
 */
module Sorting {

  datatype SortKey = SortKey(time: int, kind: int, id: int, version: int)

  predicate Before(a: SortKey, b: SortKey) {
    || a.time < b.time
    || (a.time == b.time && a.kind < b.kind)
    || (a.time == b.time && a.kind == b.kind && a.id < b.id)
    || (a.time == b.time && a.kind == b.kind && a.id == b.id && a.version < b.version)
  }

  predicate InOrder(keys: seq<SortKey>) {
    forall i, j :: 0 <= i < j < |keys| ==> !Before(keys[j], keys[i])
  }

  predicate StrictlyInOrder(keys: seq<SortKey>) {
    forall i, j :: 0 <= i < j < |keys| ==> Before(keys[i], keys[j])
  }

  function Keys<T>(s: seq<T>, key: T -> SortKey): (keys: seq<SortKey>)
    ensures |keys| == |s|
    ensures forall i :: 0 <= i < |s| ==> keys[i] == key(s[i])
  {
    seq(|s|, i requires 0 <= i < |s| => key(s[i]))
  }

  /** What a call of `std::sort` promises about its result. */
  ghost predicate IsSortOf<T>(sorted: seq<T>, input: seq<T>, key: T -> SortKey) {
    multiset(sorted) == multiset(input) && InOrder(Keys(sorted, key))
  }

  function Insert<T>(x: T, s: seq<T>, key: T -> SortKey): seq<T> {
    if s == [] || !Before(key(s[0]), key(x)) then [x] + s else [s[0]] + Insert(x, s[1..], key)
  }

  lemma {:induction false} InsertPermutes<T>(x: T, s: seq<T>, key: T -> SortKey)
    ensures multiset(Insert(x, s, key)) == multiset(s) + multiset{x}
  {
    if s != [] && Before(key(s[0]), key(x)) {
      InsertPermutes(x, s[1..], key);
      assert s == [s[0]] + s[1..];
    }
  }

  lemma InOrderCons<T>(x: T, s: seq<T>, key: T -> SortKey)
    ensures InOrder(Keys([x] + s, key))
            <==> InOrder(Keys(s, key)) && forall y :: y in multiset(s) ==> !Before(key(y), key(x))
  {
    var keys := Keys([x] + s, key);
    assert keys == [key(x)] + Keys(s, key);
    if InOrder(keys) {
      forall i, j | 0 <= i < j < |s|
        ensures !Before(Keys(s, key)[j], Keys(s, key)[i])
      {
        assert keys[i + 1] == Keys(s, key)[i] && keys[j + 1] == Keys(s, key)[j];
      }
      forall y | y in multiset(s)
        ensures !Before(key(y), key(x))
      {
        var i :| 0 <= i < |s| && s[i] == y;
        assert keys[0] == key(x) && keys[i + 1] == key(y);
      }
    }
    if InOrder(Keys(s, key)) && forall y :: y in multiset(s) ==> !Before(key(y), key(x)) {
      forall i, j | 0 <= i < j < |keys|
        ensures !Before(keys[j], keys[i])
      {
        assert s[j - 1] in multiset(s);
        assert keys[j] == Keys(s, key)[j - 1];
        assert i > 0 ==> keys[i] == Keys(s, key)[i - 1];
      }
    }
  }

  lemma {:induction false} InsertOrders<T>(x: T, s: seq<T>, key: T -> SortKey)
    requires InOrder(Keys(s, key))
    ensures InOrder(Keys(Insert(x, s, key), key))
  {
    if s == [] {
    } else {
      assert s == [s[0]] + s[1..];
      InOrderCons(s[0], s[1..], key);
      if Before(key(s[0]), key(x)) {
        InsertOrders(x, s[1..], key);
        InsertPermutes(x, s[1..], key);
        InOrderCons(s[0], Insert(x, s[1..], key), key);
      } else {
        InOrderCons(x, s, key);
      }
    }
  }

  function Sorted<T>(s: seq<T>, key: T -> SortKey): seq<T> {
    if s == [] then [] else Insert(s[0], Sorted(s[1..], key), key)
  }

  lemma {:induction false} SortedIsSort<T>(s: seq<T>, key: T -> SortKey)
    ensures IsSortOf(Sorted(s, key), s, key)
  {
    if s != [] {
      SortedIsSort(s[1..], key);
      InsertOrders(s[0], Sorted(s[1..], key), key);
      InsertPermutes(s[0], Sorted(s[1..], key), key);
      assert s == [s[0]] + s[1..];
    }
  }

  /** Two keys that are both not before the other are equal: equivalence under the order is equality. */
  lemma BeforeIsTotal(a: SortKey, b: SortKey)
    ensures Before(a, b) || Before(b, a) || a == b
  {
  }

  lemma RemoveOne<T>(s: seq<T>, i: nat)
    requires i < |s|
    ensures multiset(s) == multiset(s[..i] + s[i + 1..]) + multiset{s[i]}
  {
    assert s == s[..i] + [s[i]] + s[i + 1..];
  }

  lemma Cancel<T>(a: multiset<T>, b: multiset<T>, x: T)
    requires a + multiset{x} == b + multiset{x}
    ensures a == b
  {
    assert (a + multiset{x}) - multiset{x} == a;
  }

  lemma FirstKeysAgree(a: seq<SortKey>, b: seq<SortKey>)
    requires InOrder(a) && InOrder(b) && multiset(a) == multiset(b) && a != [] && b != []
    ensures a[0] == b[0]
  {
    assert a[0] in multiset(b) && b[0] in multiset(a);
    var i :| 0 <= i < |b| && b[i] == a[0];
    var j :| 0 <= j < |a| && a[j] == b[0];
    BeforeIsTotal(a[0], b[0]);
  }

  lemma TailsOfPermutations(a: seq<SortKey>, b: seq<SortKey>)
    requires multiset(a) == multiset(b) && a != [] && b != [] && a[0] == b[0]
    ensures multiset(a[1..]) == multiset(b[1..])
  {
    assert a == [a[0]] + a[1..] && b == [b[0]] + b[1..];
    assert multiset(a[1..]) == multiset(a) - multiset{a[0]};
    assert multiset(b[1..]) == multiset(b) - multiset{a[0]};
  }

  lemma InOrderTail(a: seq<SortKey>)
    requires InOrder(a) && a != []
    ensures InOrder(a[1..])
  {
    hide Before;
    assert forall i :: 0 <= i < |a| - 1 ==> a[1..][i] == a[i + 1];
  }

  lemma {:induction false} SortedKeysUnique(a: seq<SortKey>, b: seq<SortKey>)
    requires InOrder(a) && InOrder(b) && multiset(a) == multiset(b)
    ensures a == b
  {
    hide InOrder;
    assert |a| == |multiset(a)| == |b|;
    if a != [] {
      FirstKeysAgree(a, b);
      TailsOfPermutations(a, b);
      InOrderTail(a);
      InOrderTail(b);
      SortedKeysUnique(a[1..], b[1..]);
      assert a == [a[0]] + a[1..];
      assert b == [b[0]] + b[1..];
    }
  }

  lemma KeysRemoveOne<T>(s: seq<T>, i: nat, key: T -> SortKey)
    requires i < |s|
    ensures multiset(Keys(s, key)) == multiset(Keys(s[..i] + s[i + 1..], key)) + multiset{key(s[i])}
  {
    RemoveOne(Keys(s, key), i);
    assert Keys(s[..i] + s[i + 1..], key) == Keys(s, key)[..i] + Keys(s, key)[i + 1..];
  }

  lemma {:induction false} KeysOfPermutation<T>(a: seq<T>, b: seq<T>, key: T -> SortKey)
    requires multiset(a) == multiset(b)
    ensures multiset(Keys(a, key)) == multiset(Keys(b, key))
    decreases |a|
  {
    hide Keys;
    if a == [] {
      assert |b| == |multiset(b)| == 0;
    } else {
      assert a[0] in multiset(b);
      var i :| 0 <= i < |b| && b[i] == a[0];
      var restA, restB := a[..0] + a[1..], b[..i] + b[i + 1..];
      RemoveOne(a, 0);
      RemoveOne(b, i);
      Cancel(multiset(restA), multiset(restB), a[0]);
      KeysOfPermutation(restA, restB, key);
      KeysRemoveOne(a, 0, key);
      KeysRemoveOne(b, i, key);
    }
  }

  /** However the input was permuted, the sorted keys are the same. */
  lemma SortedKeysOrderIndependent<T>(a: seq<T>, b: seq<T>, sortedA: seq<T>, sortedB: seq<T>, key: T -> SortKey)
    requires multiset(a) == multiset(b)
    requires IsSortOf(sortedA, a, key) && IsSortOf(sortedB, b, key)
    ensures Keys(sortedA, key) == Keys(sortedB, key)
  {
    KeysOfPermutation(sortedA, sortedB, key);
    SortedKeysUnique(Keys(sortedA, key), Keys(sortedB, key));
  }

  /** Elements that compare equal are equal. */
  ghost predicate KeyDetermines<T>(s: seq<T>, key: T -> SortKey) {
    forall x, y :: x in multiset(s) && y in multiset(s) && key(x) == key(y) ==> x == y
  }

  /**
   When the key determines the element, the sorted lists themselves are the same, for every
   permutation of the input and whatever the sorting algorithm.
   */
  lemma SortedOrderIndependent<T>(a: seq<T>, b: seq<T>, sortedA: seq<T>, sortedB: seq<T>, key: T -> SortKey)
    requires multiset(a) == multiset(b) && KeyDetermines(a, key)
    requires IsSortOf(sortedA, a, key) && IsSortOf(sortedB, b, key)
    ensures sortedA == sortedB
  {
    SortedKeysOrderIndependent(a, b, sortedA, sortedB, key);
    var keys := Keys(sortedA, key);
    assert |sortedA| == |keys| == |sortedB|;
    forall i | 0 <= i < |sortedA|
      ensures sortedA[i] == sortedB[i]
    {
      assert keys[i] == key(sortedA[i]) == key(sortedB[i]);
      assert sortedA[i] in multiset(sortedA) && sortedB[i] in multiset(sortedB);
    }
  }

  /** Otherwise there are two results, and `std::sort` may return either. */
  lemma AmbiguousSort<T>(s: seq<T>, x: T, y: T, key: T -> SortKey) returns (one: seq<T>, other: seq<T>)
    requires x in multiset(s) && y in multiset(s) && key(x) == key(y) && x != y
    ensures IsSortOf(one, s, key) && IsSortOf(other, s, key) && one != other
  {
    one := Sorted(s, key);
    SortedIsSort(s, key);
    assert x in multiset(one) && y in multiset(one);
    var i :| 0 <= i < |one| && one[i] == x;
    var j :| 0 <= j < |one| && one[j] == y;
    other := one[i := y][j := x];
    assert other[i] == y != one[i];
    assert Keys(other, key) == Keys(one, key);
  }

  predicate DistinctKeys<T>(s: seq<T>, key: T -> SortKey) {
    forall i, j :: 0 <= i < j < |s| ==> key(s[i]) != key(s[j])
  }

  lemma OneOfEach(keys: seq<SortKey>, i: nat, j: nat)
    requires i < j < |keys| && keys[i] == keys[j]
    ensures multiset(keys)[keys[i]] >= 2
  {
    assert keys == keys[..i] + [keys[i]] + keys[i + 1..j] + [keys[j]] + keys[j + 1..];
  }

  lemma {:induction false} AtMostOnce(keys: seq<SortKey>, k: SortKey)
    requires forall i, j :: 0 <= i < j < |keys| ==> keys[i] != keys[j]
    ensures multiset(keys)[k] <= 1
  {
    if keys != [] {
      assert keys == [keys[0]] + keys[1..];
      AtMostOnce(keys[1..], k);
    }
  }

  /** Sorting distinct keys gives strictly increasing keys. */
  lemma SortedDistinct<T>(sorted: seq<T>, input: seq<T>, key: T -> SortKey)
    requires IsSortOf(sorted, input, key) && DistinctKeys(input, key)
    ensures StrictlyInOrder(Keys(sorted, key))
  {
    KeysOfPermutation(sorted, input, key);
    var keys := Keys(sorted, key);
    forall i, j | 0 <= i < j < |keys|
      ensures Before(keys[i], keys[j])
    {
      BeforeIsTotal(keys[i], keys[j]);
      if keys[i] == keys[j] {
        OneOfEach(keys, i, j);
        AtMostOnce(Keys(input, key), keys[i]);
        assert false;
      }
    }
  }
}
