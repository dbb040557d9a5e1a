/** Python's stable sort with a key (`list.sort`, `sorted`), as insertion sort over sequences. */
module Sorting {
  predicate SortedBy<T>(s: seq<T>, key: T -> int) {
    forall i, j :: 0 <= i < j < |s| ==> key(s[i]) <= key(s[j])
  }

  /** Insert `x` into sorted `s` after every element whose key is not greater. */
  function Insert<T(==)>(s: seq<T>, x: T, key: T -> int): (r: seq<T>)
    ensures multiset(r) == multiset(s) + multiset{x}
  {
    if s == [] || key(s[|s| - 1]) <= key(x) then s + [x]
    else
      assert s == s[..|s| - 1] + [s[|s| - 1]];
      Insert(s[..|s| - 1], x, key) + [s[|s| - 1]]
  }

  /** Insertion sort: the model of Python's stable sort with a key. */
  function SortBy<T(==)>(s: seq<T>, key: T -> int): (r: seq<T>)
    ensures multiset(r) == multiset(s)
  {
    if s == [] then []
    else
      assert s == s[..|s| - 1] + [s[|s| - 1]];
      Insert(SortBy(s[..|s| - 1], key), s[|s| - 1], key)
  }

  /** The elements of `s` whose key is `k`, in their order in `s`. */
  function Having<T>(s: seq<T>, key: T -> int, k: int): seq<T> {
    if s == [] then []
    else Having(s[..|s| - 1], key, k) + (if key(s[|s| - 1]) == k then [s[|s| - 1]] else [])
  }

  /** Insertion adds `x` and nothing else. */
  lemma InsertMember<T>(s: seq<T>, x: T, key: T -> int, e: T)
    requires e in Insert(s, x, key)
    ensures e in s || e == x
  {
    assert e in multiset(Insert(s, x, key));
  }

  lemma {:induction false} InsertSorted<T>(s: seq<T>, x: T, key: T -> int)
    requires SortedBy(s, key)
    ensures SortedBy(Insert(s, x, key), key)
  {
    if s != [] && key(x) < key(s[|s| - 1]) {
      var init := s[..|s| - 1];
      var last := s[|s| - 1];
      InsertSorted(init, x, key);
      var r := Insert(init, x, key);
      forall e | e in r ensures key(e) <= key(last) {
        InsertMember(init, x, key, e);
        if e != x {
          var i :| 0 <= i < |init| && init[i] == e;
          assert s[i] == e;
        }
      }
      forall i, j | 0 <= i < j < |r| + 1 ensures key((r + [last])[i]) <= key((r + [last])[j]) {
        if j == |r| {
          assert (r + [last])[i] in r;
        }
      }
    }
  }

  /** The sort's output is ordered by the key. */
  lemma {:induction false} SortByOrders<T>(s: seq<T>, key: T -> int)
    ensures SortedBy(SortBy(s, key), key)
  {
    if s != [] {
      SortByOrders(s[..|s| - 1], key);
      InsertSorted(SortBy(s[..|s| - 1], key), s[|s| - 1], key);
    }
  }

  /** Appending an element adds it to its key's group only. */
  lemma HavingSnoc<T>(s: seq<T>, x: T, key: T -> int, k: int)
    ensures Having(s + [x], key, k) == Having(s, key, k) + (if key(x) == k then [x] else [])
  {
    assert (s + [x])[..|s|] == s;
  }

  /** The step of `InsertHaving` where `x` goes before the last element `last`, whose key is greater. */
  lemma InsertHavingStep<T>(init: seq<T>, last: T, x: T, key: T -> int, k: int)
    requires key(x) < key(last)
    requires Having(Insert(init, x, key), key, k) == Having(init, key, k) + (if key(x) == k then [x] else [])
    ensures Having(Insert(init, x, key) + [last], key, k) == Having(init + [last], key, k) + (if key(x) == k then [x] else [])
  {
    HavingSnoc(Insert(init, x, key), last, key, k);
    HavingSnoc(init, last, key, k);
  }

  lemma {:induction false} InsertHaving<T>(s: seq<T>, x: T, key: T -> int, k: int)
    requires SortedBy(s, key)
    ensures Having(Insert(s, x, key), key, k) == Having(s, key, k) + (if key(x) == k then [x] else [])
  {
    if s == [] || key(s[|s| - 1]) <= key(x) {
      HavingSnoc(s, x, key, k);
    } else {
      var init := s[..|s| - 1];
      assert SortedBy(init, key);
      InsertHaving(init, x, key, k);
      InsertHavingStep(init, s[|s| - 1], x, key, k);
      assert init + [s[|s| - 1]] == s;
    }
  }

  /**
   * The sort is stable: the elements sharing any one key come out in the
   * order they went in.
   */
  lemma {:induction false} SortByStable<T>(s: seq<T>, key: T -> int, k: int)
    ensures Having(SortBy(s, key), key, k) == Having(s, key, k)
  {
    if s != [] {
      var init := s[..|s| - 1];
      SortByStable(init, key, k);
      SortByOrders(init, key);
      InsertHaving(SortBy(init, key), s[|s| - 1], key, k);
    }
  }
}
