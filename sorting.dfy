/** Python's `sorted(xs, key=...)`: a stable sort by a real-valued key.
    `sorted(xs, key=k, reverse=True)` keeps equal elements in their original
    order as well, so it is the ascending stable sort by the negated key. */
module Sorting {

  /** `s` is in non-decreasing order of `key`. */
  predicate SortedBy<T>(s: seq<T>, key: T -> real) {
    forall i, j :: 0 <= i < j < |s| ==> key(s[i]) <= key(s[j])
  }

  /** The elements of `s` whose key is `k`, in their order in `s`. */
  function WithKey<T>(s: seq<T>, key: T -> real, k: real): seq<T> {
    if s == [] then []
    else WithKey(s[..|s| - 1], key, k) + (if key(s[|s| - 1]) == k then [s[|s| - 1]] else [])
  }

  lemma {:induction false} WithKeyAppend<T>(a: seq<T>, b: seq<T>, key: T -> real, k: real)
    ensures WithKey(a + b, key, k) == WithKey(a, key, k) + WithKey(b, key, k)
    decreases |b|
  {
    if b == [] {
      assert a + b == a;
    } else {
      assert (a + b)[..|a + b| - 1] == a + b[..|b| - 1];
      WithKeyAppend(a, b[..|b| - 1], key, k);
    }
  }

  /** Places `x` after every element of `s` whose key is at most `key(x)`,
      scanning from the end. */
  function Insert<T>(s: seq<T>, x: T, key: T -> real): (r: seq<T>)
    ensures |r| == |s| + 1
  {
    if s == [] || key(s[|s| - 1]) <= key(x) then s + [x]
    else Insert(s[..|s| - 1], x, key) + [s[|s| - 1]]
  }

  /** Insertion adds exactly `x`. */
  lemma {:induction false} InsertPermutes<T>(s: seq<T>, x: T, key: T -> real)
    ensures multiset(Insert(s, x, key)) == multiset(s) + multiset{x}
    decreases |s|
  {
    if s != [] && key(s[|s| - 1]) > key(x) {
      var init := s[..|s| - 1];
      assert s == init + [s[|s| - 1]];
      InsertPermutes(init, x, key);
    }
  }

  /** Every key in `s` is at most `b`. */
  predicate KeysAtMost<T>(s: seq<T>, key: T -> real, b: real) {
    forall i :: 0 <= i < |s| ==> key(s[i]) <= b
  }

  lemma SortedAppend<T>(s: seq<T>, y: T, key: T -> real)
    requires SortedBy(s, key) && KeysAtMost(s, key, key(y))
    ensures SortedBy(s + [y], key)
  {
    var r := s + [y];
    forall i, j | 0 <= i < j < |r| ensures key(r[i]) <= key(r[j]) {
      if j < |s| {
        assert r[i] == s[i] && r[j] == s[j];
      } else {
        assert r[i] == s[i];
      }
    }
  }

  lemma {:induction false} InsertBounded<T>(s: seq<T>, x: T, key: T -> real, b: real)
    requires KeysAtMost(s, key, b) && key(x) <= b
    ensures KeysAtMost(Insert(s, x, key), key, b)
    decreases |s|
  {
    var r := Insert(s, x, key);
    if s == [] || key(s[|s| - 1]) <= key(x) {
      assert forall i :: 0 <= i < |s| ==> r[i] == s[i];
    } else {
      var init := s[..|s| - 1];
      assert KeysAtMost(init, key, b) by {
        forall i | 0 <= i < |init| ensures key(init[i]) <= b { assert init[i] == s[i]; }
      }
      InsertBounded(init, x, key, b);
      var r' := Insert(init, x, key);
      assert r == r' + [s[|s| - 1]];
      assert forall i :: 0 <= i < |r'| ==> r[i] == r'[i];
    }
  }

  lemma {:induction false} InsertSorted<T>(s: seq<T>, x: T, key: T -> real)
    requires SortedBy(s, key)
    ensures SortedBy(Insert(s, x, key), key)
    decreases |s|
  {
    if s == [] || key(s[|s| - 1]) <= key(x) {
      assert KeysAtMost(s, key, key(x)) by {
        forall i | 0 <= i < |s| ensures key(s[i]) <= key(x) {
          if i < |s| - 1 { assert key(s[i]) <= key(s[|s| - 1]); }
        }
      }
      SortedAppend(s, x, key);
    } else {
      var init := s[..|s| - 1];
      var last := s[|s| - 1];
      assert SortedBy(init, key) by {
        forall i, j | 0 <= i < j < |init| ensures key(init[i]) <= key(init[j]) {
          assert init[i] == s[i] && init[j] == s[j];
        }
      }
      assert KeysAtMost(init, key, key(last)) by {
        forall i | 0 <= i < |init| ensures key(init[i]) <= key(last) { assert init[i] == s[i]; }
      }
      InsertSorted(init, x, key);
      InsertBounded(init, x, key, key(last));
      SortedAppend(Insert(init, x, key), last, key);
    }
  }

  lemma WithKeySingle<T>(y: T, key: T -> real, k: real)
    ensures WithKey([y], key, k) == if key(y) == k then [y] else []
  {
    assert [y][..0] == [];
  }

  /** Dropping the last element of a sorted sequence leaves it sorted. */
  lemma SortedPrefix<T>(s: seq<T>, key: T -> real)
    requires SortedBy(s, key) && s != []
    ensures SortedBy(s[..|s| - 1], key)
    ensures |s| > 1 ==> key(s[|s| - 2]) <= key(s[|s| - 1])
  {
    var init := s[..|s| - 1];
    forall i, j | 0 <= i < j < |init| ensures key(init[i]) <= key(init[j]) {
      assert init[i] == s[i] && init[j] == s[j];
    }
  }

  /** Insertion passes only elements whose key exceeds `key(x)`, so among the
      elements with any one key, `x` comes after all those of `s`. */
  lemma {:induction false} InsertStable<T>(s: seq<T>, x: T, key: T -> real, k: real)
    ensures WithKey(Insert(s, x, key), key, k) == WithKey(s, key, k) + WithKey([x], key, k)
    decreases |s|
  {
    if s == [] || key(s[|s| - 1]) <= key(x) {
      WithKeyAppend(s, [x], key, k);
    } else {
      var init := s[..|s| - 1];
      var last := s[|s| - 1];
      var ins := Insert(init, x, key);
      var w := WithKey(init, key, k);
      var xs := WithKey([x], key, k);
      var ls := WithKey([last], key, k);
      InsertStable(init, x, key, k);
      WithKeySingle(x, key, k);
      WithKeySingle(last, key, k);
      assert Insert(s, x, key) == ins + [last];
      WithKeyAppend(ins, [last], key, k);
      assert WithKey(Insert(s, x, key), key, k) == w + xs + ls;
      assert s == init + [last];
      WithKeyAppend(init, [last], key, k);
      assert WithKey(s, key, k) == w + ls;
      Swap(w, xs, ls);
    }
  }

  /** Two parts of which one is empty may be appended in either order. */
  lemma Swap<T>(w: seq<T>, a: seq<T>, b: seq<T>)
    requires a == [] || b == []
    ensures w + a + b == w + b + a
  {
    if a == [] {
      assert w + a == w && w + b + a == w + b;
    } else {
      assert w + b == w && w + a + b == w + a;
    }
  }

  /** `sorted(s, key=key)`: insertion sort, from the last element back. */
  function SortBy<T>(s: seq<T>, key: T -> real): (r: seq<T>)
    ensures |r| == |s|
    ensures SortedBy(r, key)
  {
    if s == [] then []
    else
      var t := SortBy(s[..|s| - 1], key);
      InsertSorted(t, s[|s| - 1], key);
      Insert(t, s[|s| - 1], key)
  }

  /** The sort is a permutation of its input. */
  lemma {:induction false} SortPermutes<T>(s: seq<T>, key: T -> real)
    ensures multiset(SortBy(s, key)) == multiset(s)
  {
    if s != [] {
      var init := s[..|s| - 1];
      assert s == init + [s[|s| - 1]];
      SortPermutes(init, key);
      InsertPermutes(SortBy(init, key), s[|s| - 1], key);
    }
  }

  /** The sort is stable: for every key value, the elements with that key keep
      their relative order. */
  lemma {:induction false} SortStable<T>(s: seq<T>, key: T -> real, k: real)
    ensures WithKey(SortBy(s, key), key, k) == WithKey(s, key, k)
  {
    if s != [] {
      var init := s[..|s| - 1];
      SortStable(init, key, k);
      InsertStable(SortBy(init, key), s[|s| - 1], key, k);
      assert s == init + [s[|s| - 1]];
      WithKeyAppend(init, [s[|s| - 1]], key, k);
    }
  }

  /** Sorting an already sorted sequence changes nothing. */
  lemma {:induction false} SortOfSorted<T>(s: seq<T>, key: T -> real)
    requires SortedBy(s, key)
    ensures SortBy(s, key) == s
  {
    if s != [] {
      var init := s[..|s| - 1];
      var last := s[|s| - 1];
      SortedPrefix(s, key);
      SortOfSorted(init, key);
      assert SortBy(s, key) == Insert(init, last, key);
    }
  }
}
