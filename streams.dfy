/**
 * `list.stream().filter(p).toList()`: the order-preserving selection that every
 * search screen and the audit viewer are built from, and the lemmas that let
 * a chain of such filters be read as one filter on the conjunction.
 */
module Streams {
  import opened Wrappers

  /** The elements of `s` that satisfy `keep`, in their original order. */
  function Filter<T(==)>(s: seq<T>, keep: T -> bool): (r: seq<T>)
    ensures |r| <= |s|
    ensures forall x :: x in r ==> x in s && keep(x)
    ensures forall x :: x in s && keep(x) ==> x in r
    decreases |s|
  {
    if s == [] then []
    else if keep(s[0]) then [s[0]] + Filter(s[1..], keep)
    else Filter(s[1..], keep)
  }

  /** `a` is `b` with some elements left out and the rest in the same order. */
  predicate IsSubsequence<T(==)>(a: seq<T>, b: seq<T>)
    decreases |b|
  {
    if a == [] then true
    else if b == [] then false
    else if a[0] == b[0] then IsSubsequence(a[1..], b[1..])
    else IsSubsequence(a, b[1..])
  }

  /** A filter never reorders: its result is a subsequence of its input. */
  lemma {:induction false} FilterIsSubsequence<T>(s: seq<T>, keep: T -> bool)
    ensures IsSubsequence(Filter(s, keep), s)
    decreases |s|
  {
    if s != [] {
      var rest := Filter(s[1..], keep);
      FilterIsSubsequence(s[1..], keep);
      if keep(s[0]) {
        assert Filter(s, keep) == [s[0]] + rest;
        assert ([s[0]] + rest)[1..] == rest;
      } else if rest != [] {
        assert rest[0] in rest;
        assert keep(rest[0]);
        assert rest[0] != s[0];
      }
    }
  }

  /** A filter that every element passes returns its input unchanged. */
  lemma {:induction false} FilterKeepsAll<T>(s: seq<T>, keep: T -> bool)
    requires forall x :: x in s ==> keep(x)
    ensures Filter(s, keep) == s
    decreases |s|
  {
    if s != [] {
      assert s[0] in s;
      assert forall x :: x in s[1..] ==> x in s;
      FilterKeepsAll(s[1..], keep);
      assert s == [s[0]] + s[1..];
    }
  }

  /** A filter that no element passes returns nothing. */
  lemma {:induction false} NothingPasses<T>(s: seq<T>, keep: T -> bool)
    requires forall x :: x in s ==> !keep(x)
    ensures Filter(s, keep) == []
    decreases |s|
  {
    if s != [] {
      assert s[0] in s;
      assert forall x :: x in s[1..] ==> x in s;
      NothingPasses(s[1..], keep);
    }
  }

  /** Two conditions that agree on every element select the same elements. */
  lemma {:induction false} FilterAgree<T>(s: seq<T>, f: T -> bool, g: T -> bool)
    requires forall x :: x in s ==> f(x) == g(x)
    ensures Filter(s, f) == Filter(s, g)
    decreases |s|
  {
    if s != [] {
      assert s[0] in s;
      assert forall x :: x in s[1..] ==> x in s;
      FilterAgree(s[1..], f, g);
    }
  }

  /** The condition that both `p` and `q` hold. */
  function Both<T>(p: T -> bool, q: T -> bool): T -> bool
  {
    x => p(x) && q(x)
  }

  /** Filtering by `p` and then by `q` is filtering once by `p && q`. */
  lemma {:induction false} FilterFilter<T>(s: seq<T>, p: T -> bool, q: T -> bool)
    ensures Filter(Filter(s, p), q) == Filter(s, Both(p, q))
    decreases |s|
  {
    if s != [] {
      var rest := Filter(s[1..], p);
      FilterFilter(s[1..], p, q);
      if p(s[0]) {
        assert Filter(s, p) == [s[0]] + rest;
        assert ([s[0]] + rest)[1..] == rest;
      }
    }
  }

  /** Filtering is idempotent. */
  lemma FilterIdempotent<T>(s: seq<T>, keep: T -> bool)
    ensures Filter(Filter(s, keep), keep) == Filter(s, keep)
  {
    FilterKeepsAll(Filter(s, keep), keep);
  }

  /** Filtering a sequence that grows at its end. */
  lemma {:induction false} FilterSnoc<T>(s: seq<T>, x: T, keep: T -> bool)
    ensures Filter(s + [x], keep) == Filter(s, keep) + (if keep(x) then [x] else [])
    decreases |s|
  {
    if s == [] {
      assert [] + [x] == [x];
    } else {
      assert (s + [x])[0] == s[0];
      assert (s + [x])[1..] == s[1..] + [x];
      FilterSnoc(s[1..], x, keep);
    }
  }

  /** The position of the first element that satisfies `p`: the row a `WHERE` lookup or a `break` loop stops at. */
  function FirstIndex<T>(s: seq<T>, p: T -> bool): (r: Option<nat>)
    ensures r.Some? ==> r.value < |s| && p(s[r.value])
    ensures r.Some? ==> forall j :: 0 <= j < r.value ==> !p(s[j])
    ensures r.None? <==> forall j :: 0 <= j < |s| ==> !p(s[j])
    decreases |s|
  {
    if s == [] then None
    else if p(s[0]) then Some(0)
    else match FirstIndex(s[1..], p)
      case None => None
      case Some(i) => Some(i + 1)
  }

  /** Two searches that agree position by position stop at the same place. */
  lemma {:induction false} FirstIndexAgree<T, U>(s: seq<T>, p: T -> bool, t: seq<U>, q: U -> bool)
    requires |s| == |t|
    requires forall i :: 0 <= i < |s| ==> p(s[i]) == q(t[i])
    ensures FirstIndex(s, p) == FirstIndex(t, q)
    decreases |s|
  {
    if s != [] {
      assert p(s[0]) == q(t[0]);
      forall i | 0 <= i < |s| - 1
        ensures p(s[1..][i]) == q(t[1..][i])
      {
        assert s[1..][i] == s[i + 1] && t[1..][i] == t[i + 1];
      }
      FirstIndexAgree(s[1..], p, t[1..], q);
    }
  }
}
