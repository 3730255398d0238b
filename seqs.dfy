/** Small facts about sequence concatenation, kept apart so that each is proved
    in a context of its own. */
module Seqs {
  lemma AppendIndex<T>(a: seq<T>, b: seq<T>)
    ensures |a + b| == |a| + |b|
    ensures forall i :: 0 <= i < |a| ==> (a + b)[i] == a[i]
    ensures forall i :: 0 <= i < |b| ==> (a + b)[|a| + i] == b[i]
  {
  }

  /** A suffix given element by element. */
  lemma DropOfElements<T>(s: seq<T>, i: nat, t: seq<T>)
    requires i + |t| == |s|
    requires forall k :: 0 <= k < |t| ==> s[i + k] == t[k]
    ensures s[i..] == t
  {
    assert forall k :: 0 <= k < |t| ==> s[i..][k] == s[i + k];
  }

  /** Two sequences that agree on their first `i` elements have the same prefix
      of length `i`. */
  lemma TakeOfElements<T>(s: seq<T>, u: seq<T>, i: nat)
    requires i <= |s| && i <= |u|
    requires forall k :: 0 <= k < i ==> s[k] == u[k]
    ensures s[..i] == u[..i]
  {
  }

  /** An element found at two positions is counted at least twice. */
  lemma TwiceCounted<T>(s: seq<T>, i: nat, j: nat)
    requires i < j < |s| && s[i] == s[j]
    ensures multiset(s)[s[i]] >= 2
  {
    assert s == s[..j] + s[j..];
    assert s[i] == s[..j][i] && s[j] == s[j..][0];
    assert multiset(s) == multiset(s[..j]) + multiset(s[j..]);
  }

  /** `s.filter(f)`: the elements satisfying `f`, in their order. */
  function Select<T>(s: seq<T>, f: T -> bool): (r: seq<T>)
    ensures |r| <= |s|
  {
    if s == [] then []
    else if f(s[0]) then [s[0]] + Select(s[1..], f)
    else Select(s[1..], f)
  }

  /** The filter keeps only elements of the input that pass the test, and every
      element that does. */
  lemma {:induction false} SelectMembers<T>(s: seq<T>, f: T -> bool)
    ensures forall i :: 0 <= i < |Select(s, f)| ==> Select(s, f)[i] in s && f(Select(s, f)[i])
    ensures forall i :: 0 <= i < |s| && f(s[i]) ==> s[i] in Select(s, f)
  {
    if s != [] {
      var t := s[1..];
      var r, rt := Select(s, f), Select(t, f);
      SelectMembers(t, f);
      forall i | 0 <= i < |r| ensures r[i] in s && f(r[i]) {
        var k := if f(s[0]) then i - 1 else i;
        if k >= 0 {
          assert r[i] == rt[k] && rt[k] in t;
          var m :| 0 <= m < |t| && t[m] == rt[k];
          assert r[i] == s[m + 1];
        }
      }
      forall i | 0 <= i < |s| && f(s[i]) ensures s[i] in r {
        if i > 0 {
          assert s[i] == t[i - 1] && t[i - 1] in rt;
          var m :| 0 <= m < |rt| && rt[m] == s[i];
          assert f(s[0]) ==> r[m + 1] == s[i];
          assert !f(s[0]) ==> r[m] == s[i];
        }
      }
    }
  }

  /** The filter keeps each passing element as often as it occurs, and no other. */
  lemma {:induction false} SelectCounts<T>(s: seq<T>, f: T -> bool)
    ensures forall x :: multiset(Select(s, f))[x] == if f(x) then multiset(s)[x] else 0
  {
    if s != [] {
      SelectCounts(s[1..], f);
      assert s == [s[0]] + s[1..];
      assert multiset(s) == multiset([s[0]]) + multiset(s[1..]);
    }
  }

  /** Filtering a concatenation filters each part. */
  lemma {:induction false} SelectAppend<T>(a: seq<T>, b: seq<T>, f: T -> bool)
    ensures Select(a + b, f) == Select(a, f) + Select(b, f)
  {
    if a == [] {
      assert a + b == b;
    } else {
      SelectAppend(a[1..], b, f);
      assert (a + b)[0] == a[0];
      assert (a + b)[1..] == a[1..] + b;
      if f(a[0]) {
        calc {
          Select(a + b, f);
          [a[0]] + Select(a[1..] + b, f);
          [a[0]] + (Select(a[1..], f) + Select(b, f));
          { assert [a[0]] + (Select(a[1..], f) + Select(b, f)) == ([a[0]] + Select(a[1..], f)) + Select(b, f); }
          ([a[0]] + Select(a[1..], f)) + Select(b, f);
        }
      }
    }
  }

  /** Of two selected elements, the earlier one comes earlier in the input. */
  lemma {:induction false} SelectKeepsOrder<T>(s: seq<T>, f: T -> bool, i: nat, j: nat)
    requires i < j < |Select(s, f)|
    ensures exists a, b :: 0 <= a < b < |s| && Select(s, f)[i] == s[a] && Select(s, f)[j] == s[b]
  {
    var r, t := Select(s, f), s[1..];
    var rest := Select(t, f);
    SelectMembers(t, f);
    if f(s[0]) && i == 0 {
      assert r[j] == rest[j - 1] && rest[j - 1] in t;
      var b :| 0 <= b < |t| && t[b] == rest[j - 1];
      assert r[0] == s[0] && r[j] == s[b + 1];
    } else if f(s[0]) {
      SelectKeepsOrder(t, f, i - 1, j - 1);
      var a, b :| 0 <= a < b < |t| && rest[i - 1] == t[a] && rest[j - 1] == t[b];
      assert r[i] == s[a + 1] && r[j] == s[b + 1];
    } else {
      SelectKeepsOrder(t, f, i, j);
      var a, b :| 0 <= a < b < |t| && rest[i] == t[a] && rest[j] == t[b];
      assert r[i] == s[a + 1] && r[j] == s[b + 1];
    }
  }
}
