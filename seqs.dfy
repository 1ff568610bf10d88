/**
 * The array built-ins the site uses (`filter`, `findIndex`, `slice(0, n)`,
 * `reverse`), over sequences, with the ordering facts the pages rely on.
 */
module Seqs {

  /** `a` is obtained from `b` by deleting elements, keeping the rest in order. */
  predicate IsSubsequence<T(==)>(a: seq<T>, b: seq<T>)
    decreases |b|
  {
    if |b| == 0 then |a| == 0
    else (|a| > 0 && a[0] == b[0] && IsSubsequence(a[1..], b[1..])) || IsSubsequence(a, b[1..])
  }

  /** `s.filter(f)`: the elements satisfying `f`, in their original order. */
  function Filter<T>(s: seq<T>, f: T -> bool): (r: seq<T>)
    ensures |r| <= |s|
    decreases |s|
  {
    if s == [] then []
    else if f(s[0]) then [s[0]] + Filter(s[1..], f)
    else Filter(s[1..], f)
  }

  /** `filter` keeps exactly the elements that pass, and is empty exactly when none passes. */
  lemma {:induction false} FilterMembers<T>(s: seq<T>, f: T -> bool)
    ensures var r := Filter(s, f);
      && (forall i :: 0 <= i < |r| ==> r[i] in s && f(r[i]))
      && (forall i :: 0 <= i < |s| && f(s[i]) ==> s[i] in r)
      && (r == [] <==> forall i :: 0 <= i < |s| ==> !f(s[i]))
    decreases |s|
  {
    if s != [] {
      FilterMembers(s[1..], f);
      var r, rest := Filter(s, f), Filter(s[1..], f);
      forall i | 0 <= i < |r|
        ensures r[i] in s && f(r[i])
      {
        if f(s[0]) && i > 0 {
          assert r[i] == rest[i - 1];
        }
      }
      forall i | 0 <= i < |s| && f(s[i])
        ensures s[i] in r
      {
        if i > 0 {
          assert s[i] == s[1..][i - 1];
        }
      }
      if !f(s[0]) && rest == [] {
        forall i | 0 <= i < |s|
          ensures !f(s[i])
        {
          if i > 0 {
            assert s[i] == s[1..][i - 1];
          }
        }
      }
    }
  }

  /** `filter` keeps every copy of a passing element and no copy of a failing one. */
  lemma {:induction false} FilterMultiset<T>(s: seq<T>, f: T -> bool)
    ensures forall x :: multiset(Filter(s, f))[x] == if f(x) then multiset(s)[x] else 0
    decreases |s|
  {
    if s != [] {
      FilterMultiset(s[1..], f);
      assert s == [s[0]] + s[1..];
    }
  }

  lemma {:induction false} FilterIsSubsequence<T>(s: seq<T>, f: T -> bool)
    ensures IsSubsequence(Filter(s, f), s)
    decreases |s|
  {
    if s != [] {
      FilterIsSubsequence(s[1..], f);
      if f(s[0]) {
        assert Filter(s, f)[1..] == Filter(s[1..], f);
      }
    }
  }

  /** Filtering what has already been filtered changes nothing. */
  lemma {:induction false} FilterIdempotent<T>(s: seq<T>, f: T -> bool)
    ensures Filter(Filter(s, f), f) == Filter(s, f)
    decreases |s|
  {
    if s != [] {
      FilterIdempotent(s[1..], f);
      if f(s[0]) {
        assert ([s[0]] + Filter(s[1..], f))[1..] == Filter(s[1..], f);
      }
    }
  }

  /** When every element passes, the filter is the identity. */
  lemma {:induction false} FilterAllPass<T>(s: seq<T>, f: T -> bool)
    requires forall i :: 0 <= i < |s| ==> f(s[i])
    ensures Filter(s, f) == s
    decreases |s|
  {
    if s != [] {
      FilterAllPass(s[1..], f);
      assert [s[0]] + s[1..] == s;
    }
  }

  lemma {:induction false} FilterAppend<T>(a: seq<T>, b: seq<T>, f: T -> bool)
    ensures Filter(a + b, f) == Filter(a, f) + Filter(b, f)
    decreases |a|
  {
    if a == [] {
      assert a + b == b;
    } else {
      var x, rest := a[0], a[1..];
      FilterAppend(rest, b, f);
      assert a + b == [x] + (rest + b);
      FilterCons(x, rest + b, f);
      assert a == [x] + rest;
      FilterCons(x, rest, f);
    }
  }

  /** Filtering `[x] + s` keeps `x` exactly when it passes. */
  lemma FilterCons<T>(x: T, s: seq<T>, f: T -> bool)
    ensures Filter([x] + s, f) == if f(x) then [x] + Filter(s, f) else Filter(s, f)
  {
    assert ([x] + s)[1..] == s;
  }

  /** A prefix, such as `s.slice(0, n)`, is a subsequence. */
  lemma {:induction false} PrefixIsSubsequence<T>(s: seq<T>, n: nat)
    requires n <= |s|
    ensures IsSubsequence(s[..n], s)
    decreases |s|
  {
    if s != [] {
      if n == 0 {
        PrefixIsSubsequence(s[1..], 0);
      } else {
        PrefixIsSubsequence(s[1..], n - 1);
        assert s[..n][1..] == s[1..][..n - 1];
      }
    }
  }

  /**
   * `s.findIndex(f)`: the index of the first element satisfying `f`, or -1
   * when there is none.
   */
  function FindIndex<T>(s: seq<T>, f: T -> bool): (r: int)
    ensures -1 <= r < |s|
    ensures r == -1 <==> forall j :: 0 <= j < |s| ==> !f(s[j])
    ensures 0 <= r ==> f(s[r]) && forall j :: 0 <= j < r ==> !f(s[j])
    decreases |s|
  {
    if s == [] then -1
    else if f(s[0]) then 0
    else
      var k := FindIndex(s[1..], f);
      if k == -1 then -1 else k + 1
  }

  /** `s.reverse()`: the same elements, last first. */
  function Reverse<T>(s: seq<T>): (r: seq<T>)
    ensures |r| == |s|
    ensures forall k :: 0 <= k < |s| ==> r[k] == s[|s| - 1 - k]
    decreases |s|
  {
    if s == [] then [] else Reverse(s[1..]) + [s[0]]
  }

  /** Reversing twice restores the original order. */
  lemma ReverseInvolution<T>(s: seq<T>)
    ensures Reverse(Reverse(s)) == s
  {
  }
}
