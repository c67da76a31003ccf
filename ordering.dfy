/** `Array.prototype.sort` with a comparator `(a, b) => key(b) - key(a)`:
    descending by an integer key and stable, as ECMAScript requires since
    2019. Modelled as insertion sort. */
module Ordering {

  /** Non-increasing by `key`. */
  predicate SortedDesc<T>(s: seq<T>, key: T -> int) {
    forall i, j :: 0 <= i < j < |s| ==> key(s[i]) >= key(s[j])
  }

  /** The elements of `s` whose key is `v`, in their order in `s`. */
  function WithKey<T>(s: seq<T>, key: T -> int, v: int): (r: seq<T>)
    ensures |r| <= |s|
  {
    if s == [] then []
    else (if key(s[0]) == v then [s[0]] else []) + WithKey(s[1..], key, v)
  }

  /** Places `x` after every element whose key is at least its own. */
  function Insert<T>(x: T, s: seq<T>, key: T -> int): (r: seq<T>)
    ensures |r| == |s| + 1
  {
    if s == [] then [x]
    else if key(s[0]) < key(x) then [x] + s
    else [s[0]] + Insert(x, s[1..], key)
  }

  /** Sorts descending by `key`, keeping equal keys in input order. */
  function SortDesc<T>(s: seq<T>, key: T -> int): (r: seq<T>)
    ensures |r| == |s|
  {
    if s == [] then [] else Insert(s[|s| - 1], SortDesc(s[..|s| - 1], key), key)
  }

  /** Every key of `Insert(x, s)` is bounded by any bound on `x` and `s`. */
  lemma {:induction false} InsertBounded<T>(x: T, s: seq<T>, key: T -> int, b: int)
    requires key(x) <= b && forall i :: 0 <= i < |s| ==> key(s[i]) <= b
    ensures forall i :: 0 <= i < |Insert(x, s, key)| ==> key(Insert(x, s, key)[i]) <= b
  {
    if s != [] && key(s[0]) >= key(x) {
      InsertBounded(x, s[1..], key, b);
    }
  }

  lemma {:induction false} InsertSorted<T>(x: T, s: seq<T>, key: T -> int)
    requires SortedDesc(s, key)
    ensures SortedDesc(Insert(x, s, key), key)
  {
    if s != [] && key(s[0]) >= key(x) {
      InsertSorted(x, s[1..], key);
      InsertBounded(x, s[1..], key, key(s[0]));
    }
  }

  lemma {:induction false} InsertPermutes<T>(x: T, s: seq<T>, key: T -> int)
    ensures multiset(Insert(x, s, key)) == multiset(s) + multiset{x}
  {
    if s != [] && key(s[0]) >= key(x) {
      InsertPermutes(x, s[1..], key);
      assert s == [s[0]] + s[1..];
    }
  }

  lemma WithKeyCons<T>(y: T, t: seq<T>, key: T -> int, v: int)
    ensures WithKey([y] + t, key, v) == (if key(y) == v then [y] else []) + WithKey(t, key, v)
  {
    assert ([y] + t)[1..] == t;
  }

  /** Inserting `x` appends it to its own key class and leaves the others. */
  lemma {:induction false} InsertWithKey<T>(x: T, s: seq<T>, key: T -> int, v: int)
    requires SortedDesc(s, key)
    ensures WithKey(Insert(x, s, key), key, v) == WithKey(s, key, v) + (if key(x) == v then [x] else [])
  {
    if s == [] {
    } else if key(s[0]) < key(x) {
      if key(x) == v {
        NoneWithKey(s, key, v);
      }
      WithKeyCons(x, s, key, v);
    } else {
      InsertWithKey(x, s[1..], key, v);
      WithKeyCons(s[0], Insert(x, s[1..], key), key, v);
    }
  }

  /** In a descending list headed by a key below `v`, no element has key `v`. */
  lemma {:induction false} NoneWithKey<T>(s: seq<T>, key: T -> int, v: int)
    requires SortedDesc(s, key) && s != [] && key(s[0]) < v
    ensures WithKey(s, key, v) == []
  {
    if |s| > 1 {
      NoneWithKey(s[1..], key, v);
    }
  }

  /** The sort orders descending and is a permutation of its input. */
  lemma {:induction false} SortDescCorrect<T>(s: seq<T>, key: T -> int)
    ensures SortedDesc(SortDesc(s, key), key)
    ensures multiset(SortDesc(s, key)) == multiset(s)
  {
    if s != [] {
      var init := s[..|s| - 1];
      SortDescCorrect(init, key);
      InsertSorted(s[|s| - 1], SortDesc(init, key), key);
      InsertPermutes(s[|s| - 1], SortDesc(init, key), key);
      assert s == init + [s[|s| - 1]];
    }
  }

  lemma {:induction false} WithKeyAppend<T>(a: seq<T>, x: T, key: T -> int, v: int)
    ensures WithKey(a + [x], key, v) == WithKey(a, key, v) + (if key(x) == v then [x] else [])
  {
    var t := if key(x) == v then [x] else [];
    if a == [] {
      assert a + [x] == [x] && [x][1..] == [];
      assert WithKey([x], key, v) == t + [];
    } else {
      var h := if key(a[0]) == v then [a[0]] else [];
      WithKeyAppend(a[1..], x, key, v);
      assert (a + [x])[0] == a[0] && (a + [x])[1..] == a[1..] + [x];
      assert WithKey(a + [x], key, v) == h + WithKey(a[1..] + [x], key, v);
      assert h + (WithKey(a[1..], key, v) + t) == (h + WithKey(a[1..], key, v)) + t;
    }
  }

  /** Stability: the elements of every key class keep their input order. */
  lemma {:induction false} SortDescStable<T>(s: seq<T>, key: T -> int, v: int)
    ensures WithKey(SortDesc(s, key), key, v) == WithKey(s, key, v)
  {
    if s != [] {
      var init := s[..|s| - 1];
      var x := s[|s| - 1];
      assert s == init + [x];
      assert SortDesc(s, key) == Insert(x, SortDesc(init, key), key);
      SortDescStable(init, key, v);
      SortDescCorrect(init, key);
      InsertWithKey(x, SortDesc(init, key), key, v);
      WithKeyAppend(init, x, key, v);
    }
  }
}
