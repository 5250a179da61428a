/** `Array.prototype.sort` with a numeric comparator `(a, b) => key(a) - key(b)`.
    ECMAScript requires the sort to be stable, so its result is fully determined:
    it is modelled by a stable insertion sort, as a function of the input sequence. */
module StableSort {

  /** Non-decreasing by key. */
  ghost predicate SortedBy<T>(s: seq<T>, key: T -> int) {
    forall i, j :: 0 <= i < j < |s| ==> key(s[i]) <= key(s[j])
  }

  /** The elements of s whose key is k, in their order in s. */
  function WithKey<T>(s: seq<T>, key: T -> int, k: int): (r: seq<T>)
    ensures |r| <= |s|
    ensures forall x :: x in r ==> x in s && key(x) == k
    decreases |s|
  {
    if s == [] then []
    else if key(s[0]) == k then [s[0]] + WithKey(s[1..], key, k)
    else WithKey(s[1..], key, k)
  }

  /** x placed before the first element whose key is not smaller, so that it
      precedes every element of equal key. */
  function Insert<T>(x: T, s: seq<T>, key: T -> int): (r: seq<T>)
    ensures multiset(r) == multiset(s) + multiset{x}
    decreases |s|
  {
    if s == [] || key(x) <= key(s[0]) then [x] + s
    else
      assert s == [s[0]] + s[1..];
      [s[0]] + Insert(x, s[1..], key)
  }

  lemma {:induction false} InsertSorted<T>(x: T, s: seq<T>, key: T -> int)
    requires SortedBy(s, key)
    ensures SortedBy(Insert(x, s, key), key)
    decreases |s|
  {
    if s == [] || key(x) <= key(s[0]) {
      var r := [x] + s;
      forall i, j | 0 <= i < j < |r| ensures key(r[i]) <= key(r[j]) {
        if i == 0 { assert key(s[0]) <= key(s[j - 1]); } else { assert r[i] == s[i - 1] && r[j] == s[j - 1]; }
      }
    } else {
      var tail := Insert(x, s[1..], key);
      assert SortedBy(s[1..], key) by {
        forall i, j | 0 <= i < j < |s[1..]| ensures key(s[1..][i]) <= key(s[1..][j]) {
          assert s[1..][i] == s[i + 1] && s[1..][j] == s[j + 1];
        }
      }
      InsertSorted(x, s[1..], key);
      HeadBound(x, s, key);
      var r := [s[0]] + tail;
      assert r == Insert(x, s, key);
      forall i, j | 0 <= i < j < |r| ensures key(r[i]) <= key(r[j]) {
        if i == 0 { assert r[j] == tail[j - 1]; } else { assert r[i] == tail[i - 1] && r[j] == tail[j - 1]; }
      }
    }
  }

  /** When x goes after the head of a sorted s, every element it lands among
      has a key no smaller than the head's. */
  lemma HeadBound<T>(x: T, s: seq<T>, key: T -> int)
    requires SortedBy(s, key) && s != [] && key(s[0]) < key(x)
    ensures forall i :: 0 <= i < |Insert(x, s[1..], key)| ==> key(s[0]) <= key(Insert(x, s[1..], key)[i])
  {
    var tail := Insert(x, s[1..], key);
    forall i | 0 <= i < |tail| ensures key(s[0]) <= key(tail[i]) {
      var y := tail[i];
      assert y in multiset(tail);
      assert y in multiset(s[1..]) || y == x;
      if y != x {
        var m :| 0 <= m < |s[1..]| && s[1..][m] == y;
        assert s[m + 1] == y;
      }
    }
  }

  lemma {:induction false} InsertWithKey<T>(x: T, s: seq<T>, key: T -> int, k: int)
    ensures WithKey(Insert(x, s, key), key, k) == WithKey([x] + s, key, k)
    decreases |s|
  {
    if s != [] && key(s[0]) < key(x) {
      InsertWithKey(x, s[1..], key, k);
      var r := [s[0]] + Insert(x, s[1..], key);
      assert r[1..] == Insert(x, s[1..], key);
      assert ([x] + s)[1..] == s;
      assert ([x] + s[1..])[1..] == s[1..];
      assert s == [s[0]] + s[1..];
      if key(s[0]) == k {
        assert WithKey(s, key, k) == [s[0]] + WithKey(s[1..], key, k);
      } else {
        assert WithKey(s, key, k) == WithKey(s[1..], key, k);
      }
    }
  }

  /** The stable sort: a permutation of s, ordered by key. */
  function SortBy<T>(s: seq<T>, key: T -> int): (r: seq<T>)
    ensures multiset(r) == multiset(s)
    ensures |r| == |s|
    ensures SortedBy(r, key)
    decreases |s|
  {
    if s == [] then []
    else
      var rest := SortBy(s[1..], key);
      assert s == [s[0]] + s[1..];
      InsertSorted(s[0], rest, key);
      var r := Insert(s[0], rest, key);
      assert |r| == |multiset(r)|;
      r
  }

  /** Stability: the elements of every key keep their relative order. */
  lemma {:induction false} SortByKeepsTies<T>(s: seq<T>, key: T -> int, k: int)
    ensures WithKey(SortBy(s, key), key, k) == WithKey(s, key, k)
    decreases |s|
  {
    if s != [] {
      var rest := SortBy(s[1..], key);
      SortByKeepsTies(s[1..], key, k);
      InsertWithKey(s[0], rest, key, k);
      assert ([s[0]] + rest)[1..] == rest;
      assert s == [s[0]] + s[1..];
    }
  }

  /** Keeping a prefix keeps a prefix of every key's elements. */
  lemma {:induction false} WithKeyPrefix<T>(s: seq<T>, n: nat, key: T -> int, k: int)
    requires n <= |s|
    ensures WithKey(s[..n], key, k) <= WithKey(s, key, k)
    decreases n
  {
    if n > 0 {
      assert s[..n][1..] == s[1..][..n - 1];
      WithKeyPrefix(s[1..], n - 1, key, k);
    }
  }

  /** Two positions of key k give at least two elements of key k. */
  lemma {:induction false} WithKeyTwo<T>(s: seq<T>, key: T -> int, i: nat, j: nat)
    requires i < j < |s| && key(s[i]) == key(s[j])
    ensures |WithKey(s, key, key(s[i]))| >= 2
    decreases |s|
  {
    var k := key(s[i]);
    if i == 0 {
      WithKeyOne(s[1..], key, j - 1);
    } else {
      WithKeyTwo(s[1..], key, i - 1, j - 1);
    }
  }

  /** A position of key k gives at least one element of key k. */
  lemma {:induction false} WithKeyOne<T>(s: seq<T>, key: T -> int, i: nat)
    requires i < |s|
    ensures |WithKey(s, key, key(s[i]))| >= 1
    decreases |s|
  {
    if i > 0 && key(s[0]) != key(s[i]) {
      WithKeyOne(s[1..], key, i - 1);
    }
  }

  /** Pairwise distinct under f. */
  ghost predicate DistinctBy<T, U>(s: seq<T>, f: T -> U) {
    forall i, j :: 0 <= i < j < |s| ==> f(s[i]) != f(s[j])
  }

  /** Sorting keeps elements pairwise distinct under any f (for instance, an id). */
  lemma {:induction false} SortKeepsDistinct<T, U>(s: seq<T>, key: T -> int, f: T -> U)
    requires DistinctBy(s, f)
    ensures DistinctBy(SortBy(s, key), f)
    decreases |s|
  {
    if s != [] {
      assert DistinctBy(s[1..], f);
      SortKeepsDistinct(s[1..], key, f);
      var rest := SortBy(s[1..], key);
      forall y | y in rest ensures f(y) != f(s[0]) {
        assert y in multiset(s[1..]);
        var j :| 0 <= j < |s[1..]| && s[1..][j] == y;
        assert s[j + 1] == y;
      }
      InsertKeepsDistinct(s[0], rest, key, f);
    }
  }

  /** Putting an element in front of a distinct sequence keeps it distinct when no element
      of the sequence shares its image. */
  lemma ConsKeepsDistinct<T, U>(h: T, t: seq<T>, f: T -> U)
    requires DistinctBy(t, f)
    requires forall y :: y in t ==> f(y) != f(h)
    ensures DistinctBy([h] + t, f)
  {
    var r := [h] + t;
    forall i, j | 0 <= i < j < |r| ensures f(r[i]) != f(r[j]) {
      if i == 0 { assert r[j] in t; } else { assert r[i] == t[i - 1] && r[j] == t[j - 1]; }
    }
  }

  /** In a distinct sequence no later element shares the head's image. */
  lemma HeadDistinctFromTail<T, U>(s: seq<T>, f: T -> U, y: T)
    requires DistinctBy(s, f) && s != [] && y in s[1..]
    ensures f(y) != f(s[0])
  {
    var m :| 0 <= m < |s[1..]| && s[1..][m] == y;
    assert s[m + 1] == y;
  }

  lemma {:induction false} InsertKeepsDistinct<T, U>(x: T, s: seq<T>, key: T -> int, f: T -> U)
    requires DistinctBy(s, f)
    requires forall y :: y in s ==> f(y) != f(x)
    ensures DistinctBy(Insert(x, s, key), f)
    decreases |s|
  {
    if s == [] || key(x) <= key(s[0]) {
      ConsKeepsDistinct(x, s, f);
    } else {
      assert DistinctBy(s[1..], f);
      InsertKeepsDistinct(x, s[1..], key, f);
      var tail := Insert(x, s[1..], key);
      forall y | y in tail ensures f(y) != f(s[0]) {
        assert y in multiset(tail);
        if y != x {
          assert y in s[1..];
          HeadDistinctFromTail(s, f, y);
        }
      }
      ConsKeepsDistinct(s[0], tail, f);
    }
  }
}
