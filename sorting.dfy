/** A stable sort by an integer key, the behaviour `Array.prototype.sort` has had
    since ECMAScript 2019 for a consistent comparator: elements with smaller keys
    come first and elements with equal keys keep their input order. A comparator
    `(a, b) => f(a) - f(b)` is written here as the key `f`, and one written
    `(a, b) => f(b) - f(a)` (newest first) as the key `-f`. */
module Sorting {

  predicate SortedBy<T>(s: seq<T>, key: T -> int) {
    forall i, j :: 0 <= i < j < |s| ==> key(s[i]) <= key(s[j])
  }

  /** Places `x` before the first element whose key is not smaller than its own. */
  function Insert<T>(x: T, s: seq<T>, key: T -> int): (r: seq<T>)
    ensures |r| == |s| + 1
  {
    if s == [] || key(x) <= key(s[0]) then
      [x] + s
    else
      [s[0]] + Insert(x, s[1..], key)
  }

  /** Inserting adds `x` and loses nothing. */
  lemma {:induction false} InsertPermutes<T>(x: T, s: seq<T>, key: T -> int)
    ensures multiset(Insert(x, s, key)) == multiset(s) + multiset{x}
  {
    if s != [] && key(x) > key(s[0]) {
      InsertPermutes(x, s[1..], key);
      assert s == [s[0]] + s[1..];
    }
  }

  lemma {:induction false} InsertSorted<T>(x: T, s: seq<T>, key: T -> int)
    requires SortedBy(s, key)
    ensures SortedBy(Insert(x, s, key), key)
  {
    if s != [] && key(x) > key(s[0]) {
      var t := Insert(x, s[1..], key);
      InsertSorted(x, s[1..], key);
      InsertAbove(x, s[1..], key, key(s[0]));
      var r := [s[0]] + t;
      forall i, j | 0 <= i < j < |r| ensures key(r[i]) <= key(r[j]) {
        if i > 0 {
          assert r[i] == t[i - 1] && r[j] == t[j - 1];
        } else {
          assert r[j] == t[j - 1];
        }
      }
    }
  }

  /** A lower bound on the keys of `x` and of `s` bounds the keys after the
      insertion. */
  lemma {:induction false} InsertAbove<T>(x: T, s: seq<T>, key: T -> int, lo: int)
    requires lo <= key(x) && forall i :: 0 <= i < |s| ==> lo <= key(s[i])
    ensures forall i :: 0 <= i < |s| + 1 ==> lo <= key(Insert(x, s, key)[i])
  {
    if s != [] && key(x) > key(s[0]) {
      InsertAbove(x, s[1..], key, lo);
      var r := Insert(x, s, key);
      assert forall i :: 1 <= i < |r| ==> r[i] == Insert(x, s[1..], key)[i - 1];
    }
  }

  /** Insertion sort: the stable sort of `s` by ascending `key`. */
  function SortBy<T>(s: seq<T>, key: T -> int): (r: seq<T>)
    ensures |r| == |s|
    ensures multiset(r) == multiset(s)
    ensures SortedBy(r, key)
  {
    if s == [] then
      []
    else
      assert s == [s[0]] + s[1..];
      InsertSorted(s[0], SortBy(s[1..], key), key);
      InsertPermutes(s[0], SortBy(s[1..], key), key);
      Insert(s[0], SortBy(s[1..], key), key)
  }

  /** Inserting past a block of elements whose keys are all smaller than `x`'s
      leaves that block in front. */
  lemma {:induction false} InsertPastSmaller<T>(x: T, a: seq<T>, b: seq<T>, key: T -> int)
    requires forall i :: 0 <= i < |a| ==> key(a[i]) < key(x)
    ensures Insert(x, a + b, key) == a + Insert(x, b, key)
  {
    if a != [] {
      assert (a + b)[0] == a[0];
      assert (a + b)[1..] == a[1..] + b;
      InsertPastSmaller(x, a[1..], b, key);
      calc {
        Insert(x, a + b, key);
        [a[0]] + Insert(x, a[1..] + b, key);
        [a[0]] + (a[1..] + Insert(x, b, key));
        { assert a == [a[0]] + a[1..]; }
        a + Insert(x, b, key);
      }
    } else {
      assert a + b == b;
    }
  }

  /** The elements of `s` whose key is `k`, in their order in `s`. */
  function WithKey<T>(s: seq<T>, key: T -> int, k: int): (r: seq<T>)
    ensures |r| <= |s|
    ensures forall i :: 0 <= i < |r| ==> key(r[i]) == k
  {
    if s == [] then []
    else (if key(s[0]) == k then [s[0]] else []) + WithKey(s[1..], key, k)
  }

  lemma {:induction false} WithKeyAppend<T>(a: seq<T>, b: seq<T>, key: T -> int, k: int)
    ensures WithKey(a + b, key, k) == WithKey(a, key, k) + WithKey(b, key, k)
  {
    if a != [] {
      assert (a + b)[0] == a[0];
      assert (a + b)[1..] == a[1..] + b;
      WithKeyAppend(a[1..], b, key, k);
    } else {
      assert a + b == b;
    }
  }

  lemma {:induction false} InsertWithKey<T>(x: T, s: seq<T>, key: T -> int, k: int)
    ensures WithKey(Insert(x, s, key), key, k)
         == (if key(x) == k then [x] else []) + WithKey(s, key, k)
  {
    if s == [] || key(x) <= key(s[0]) {
      assert ([x] + s)[1..] == s;
    } else {
      InsertWithKey(x, s[1..], key, k);
      assert ([s[0]] + Insert(x, s[1..], key))[1..] == Insert(x, s[1..], key);
    }
  }

  /** Stability: for every key value, the elements carrying it appear in the sorted
      sequence in the same order as in the input. */
  lemma {:induction false} SortByIsStable<T>(s: seq<T>, key: T -> int, k: int)
    ensures WithKey(SortBy(s, key), key, k) == WithKey(s, key, k)
  {
    if s != [] {
      SortByIsStable(s[1..], key, k);
      InsertWithKey(s[0], SortBy(s[1..], key), key, k);
    }
  }

  lemma AppendAssoc<T>(a: seq<T>, b: seq<T>, c: seq<T>)
    ensures a + (b + c) == (a + b) + c
  {
  }

  lemma WithKeyConsHit<T>(x: T, rest: seq<T>, key: T -> int, k: int)
    requires key(x) == k
    ensures WithKey([x] + rest, key, k) == [x] + WithKey(rest, key, k)
  {
    assert ([x] + rest)[1..] == rest;
  }

  lemma WithKeyConsMiss<T>(x: T, rest: seq<T>, key: T -> int, k: int)
    requires key(x) != k
    ensures WithKey([x] + rest, key, k) == WithKey(rest, key, k)
  {
    assert ([x] + rest)[1..] == rest;
    assert [] + WithKey(rest, key, k) == WithKey(rest, key, k);
  }

  /** Inserting `x` in front of elements whose keys are none smaller than its own. */
  lemma InsertFront<T>(x: T, s: seq<T>, key: T -> int)
    requires forall i :: 0 <= i < |s| ==> key(x) <= key(s[i])
    ensures Insert(x, s, key) == [x] + s
  {
    if s != [] { assert key(x) <= key(s[0]); }
  }

  /** With only the keys 0 and 1, the stable sort moves every key-1 element behind
      every key-0 element and otherwise keeps the input order. */
  lemma {:induction false} SortByTwoKeys<T>(s: seq<T>, key: T -> int)
    requires forall i :: 0 <= i < |s| ==> key(s[i]) == 0 || key(s[i]) == 1
    ensures SortBy(s, key) == WithKey(s, key, 0) + WithKey(s, key, 1)
  {
    if s != [] {
      var x, rest := s[0], s[1..];
      assert s == [x] + rest;
      assert forall i :: 0 <= i < |rest| ==> rest[i] == s[i + 1];
      SortByTwoKeys(rest, key);
      if key(x) == 0 {
        TwoKeysZeroStep(x, rest, key);
      } else {
        TwoKeysOneStep(x, rest, key);
      }
    }
  }

  lemma TwoKeysZeroStep<T>(x: T, rest: seq<T>, key: T -> int)
    requires key(x) == 0
    ensures Insert(x, WithKey(rest, key, 0) + WithKey(rest, key, 1), key)
         == WithKey([x] + rest, key, 0) + WithKey([x] + rest, key, 1)
  {
    var zeros, ones := WithKey(rest, key, 0), WithKey(rest, key, 1);
    WithKeyConsHit(x, rest, key, 0);
    WithKeyConsMiss(x, rest, key, 1);
    var zo := zeros + ones;
    forall i | 0 <= i < |zo| ensures key(x) <= key(zo[i]) {
      if i < |zeros| { assert zo[i] == zeros[i]; } else { assert zo[i] == ones[i - |zeros|]; }
    }
    InsertFront(x, zo, key);
    AppendAssoc([x], zeros, ones);
  }

  lemma TwoKeysOneStep<T>(x: T, rest: seq<T>, key: T -> int)
    requires key(x) == 1
    ensures Insert(x, WithKey(rest, key, 0) + WithKey(rest, key, 1), key)
         == WithKey([x] + rest, key, 0) + WithKey([x] + rest, key, 1)
  {
    var zeros, ones := WithKey(rest, key, 0), WithKey(rest, key, 1);
    WithKeyConsMiss(x, rest, key, 0);
    WithKeyConsHit(x, rest, key, 1);
    InsertPastSmaller(x, zeros, ones, key);
    InsertFront(x, ones, key);
  }

  /** The first `n` elements of the sorted sequence are the `n` smallest: an
      element of the input that is not among them has a key no smaller than each
      of theirs. */
  lemma SortedPrefixIsTop<T>(s: seq<T>, key: T -> int, n: nat)
    requires n <= |s|
    ensures var t := SortBy(s, key);
      forall k :: 0 <= k < |s| ==>
        s[k] in t[..n] || forall i :: 0 <= i < n ==> key(t[i]) <= key(s[k])
  {
    var t := SortBy(s, key);
    forall k | 0 <= k < |s|
      ensures s[k] in t[..n] || forall i :: 0 <= i < n ==> key(t[i]) <= key(s[k])
    {
      assert s[k] in multiset(t);
      var j :| 0 <= j < |t| && t[j] == s[k];
      if j < n {
        assert t[..n][j] == s[k];
      }
    }
  }

  /** An element of a sorted sequence is among its first `n` elements, or its key
      is no smaller than each of theirs. */
  lemma PrefixOfSorted<T>(s: seq<T>, key: T -> int, n: nat, x: T)
    requires SortedBy(s, key) && n <= |s| && x in s
    ensures x in s[..n] || forall i :: 0 <= i < n ==> key(s[i]) <= key(x)
  {
    var j :| 0 <= j < |s| && s[j] == x;
    if j < n {
      assert s[..n][j] == x;
    }
  }

  /** Where `Insert` puts `x`: after the first `m` elements, all of whose keys are
      smaller than its own, and before the next one, whose key is not. */
  lemma {:induction false} InsertAt<T>(x: T, s: seq<T>, key: T -> int, m: nat)
    requires m <= |s|
    requires forall k :: 0 <= k < m ==> key(s[k]) < key(x)
    requires m == |s| || key(x) <= key(s[m])
    ensures forall k {:trigger Insert(x, s, key)[k]} :: 0 <= k <= |s| ==>
      Insert(x, s, key)[k] == (if k < m then s[k] else if k == m then x else s[k - 1])
  {
    if m > 0 {
      var t := s[1..];
      InsertAt(x, t, key, m - 1);
      var r := Insert(x, s, key);
      assert r == [s[0]] + Insert(x, t, key);
      forall k | 1 <= k <= |s| ensures r[k] == (if k < m then s[k] else if k == m then x else s[k - 1]) {
        assert r[k] == Insert(x, t, key)[k - 1];
        if k > m {
          assert t[k - 2] == s[k - 1];
        } else if k < m {
          assert t[k - 1] == s[k];
        }
      }
    } else {
      assert Insert(x, s, key) == [x] + s;
    }
  }
}
