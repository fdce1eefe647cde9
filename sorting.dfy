/** Python's `sorted(xs, key=...)` for keys that are pairs of integers: a stable sort. */
module StableSort {

  type Key = (int, int)

  /** Lexicographic order on pairs, as Python compares tuples. */
  predicate KeyLe(a: Key, b: Key) {
    a.0 < b.0 || (a.0 == b.0 && a.1 <= b.1)
  }

  predicate SortedBy<T>(s: seq<T>, key: T -> Key) {
    forall i, j :: 0 <= i < j < |s| ==> KeyLe(key(s[i]), key(s[j]))
  }

  /** The elements of `s` whose key is `k`, in their order in `s`. */
  function WithKey<T>(s: seq<T>, key: T -> Key, k: Key): (r: seq<T>)
    ensures |r| <= |s|
  {
    if s == [] then []
    else (if key(s[0]) == k then [s[0]] else []) + WithKey(s[1..], key, k)
  }

  /** Puts `x` in front of the first element whose key is not below its own. */
  function Insert<T>(x: T, s: seq<T>, key: T -> Key): (r: seq<T>)
    ensures |r| == |s| + 1
  {
    if s == [] || KeyLe(key(x), key(s[0])) then [x] + s
    else [s[0]] + Insert(x, s[1..], key)
  }

  /** Insertion sort; earlier elements are inserted in front of later ones with an equal key. */
  function SortBy<T>(s: seq<T>, key: T -> Key): (r: seq<T>)
    ensures |r| == |s|
  {
    if s == [] then [] else Insert(s[0], SortBy(s[1..], key), key)
  }

  lemma {:induction false} InsertPermutes<T>(x: T, s: seq<T>, key: T -> Key)
    ensures multiset(Insert(x, s, key)) == multiset(s) + multiset{x}
  {
    if !(s == [] || KeyLe(key(x), key(s[0]))) {
      InsertPermutes(x, s[1..], key);
      assert s == [s[0]] + s[1..];
    }
  }

  lemma {:induction false} InsertSorted<T>(x: T, s: seq<T>, key: T -> Key)
    requires SortedBy(s, key)
    ensures SortedBy(Insert(x, s, key), key)
  {
    if !(s == [] || KeyLe(key(x), key(s[0]))) {
      var t := s[1..];
      InsertSorted(x, t, key);
      var r := Insert(x, t, key);
      InsertPermutes(x, t, key);
      forall j | 0 <= j < |r| ensures KeyLe(key(s[0]), key(r[j])) {
        assert r[j] in multiset(r);
        if r[j] != x {
          assert r[j] in t;
        }
      }
    }
  }

  lemma WithKeyCons<T>(y: T, s: seq<T>, key: T -> Key, k: Key)
    ensures WithKey([y] + s, key, k) == (if key(y) == k then [y] else []) + WithKey(s, key, k)
  {
    assert ([y] + s)[1..] == s;
  }

  lemma {:induction false} InsertWithKey<T>(x: T, s: seq<T>, key: T -> Key, k: Key)
    requires SortedBy(s, key)
    ensures WithKey(Insert(x, s, key), key, k) == (if key(x) == k then [x] else []) + WithKey(s, key, k)
  {
    if s == [] || KeyLe(key(x), key(s[0])) {
      WithKeyCons(x, s, key, k);
    } else {
      var t := s[1..];
      assert SortedBy(t, key) by {
        forall i, j | 0 <= i < j < |t| ensures KeyLe(key(t[i]), key(t[j])) {
          assert t[i] == s[i + 1] && t[j] == s[j + 1];
        }
      }
      InsertWithKey(x, t, key, k);
      assert Insert(x, s, key) == [s[0]] + Insert(x, t, key);
      WithKeyCons(s[0], Insert(x, t, key), key, k);
      assert s == [s[0]] + t;
      WithKeyCons(s[0], t, key, k);
      assert key(s[0]) != key(x);
    }
  }

  /** `SortBy` sorts, and it is a permutation. */
  lemma {:induction false} SortBySortedPermutation<T>(s: seq<T>, key: T -> Key)
    ensures SortedBy(SortBy(s, key), key)
    ensures multiset(SortBy(s, key)) == multiset(s)
  {
    if s != [] {
      SortBySortedPermutation(s[1..], key);
      InsertSorted(s[0], SortBy(s[1..], key), key);
      InsertPermutes(s[0], SortBy(s[1..], key), key);
      assert s == [s[0]] + s[1..];
    }
  }

  /** `SortBy` is stable: the elements sharing any one key keep their relative order. */
  lemma {:induction false} SortByStable<T>(s: seq<T>, key: T -> Key, k: Key)
    ensures WithKey(SortBy(s, key), key, k) == WithKey(s, key, k)
  {
    if s != [] {
      SortByStable(s[1..], key, k);
      SortBySortedPermutation(s[1..], key);
      InsertWithKey(s[0], SortBy(s[1..], key), key, k);
    }
  }
}
