/**
 * The JavaScript array operations the request engine is built from:
 * `filter`, `map`, `map(...).filter(Boolean)` and `slice(0, n)`, as functions
 * on sequences, with the facts about them that the engine's properties rest on.
 */
module Seqs {
  import opened Wrappers

  /** `s.filter(p)`: the elements satisfying `p`, in their original order. */
  function Filter<T(!new)>(p: T -> bool, s: seq<T>): (r: seq<T>)
    ensures |r| <= |s|
    ensures forall x :: x in r <==> x in s && p(x)
  {
    if s == [] then []
    else
      assert forall x :: x in s <==> x == s[0] || x in s[1..];
      if p(s[0]) then [s[0]] + Filter(p, s[1..]) else Filter(p, s[1..])
  }

  /** `s.map(f)`. */
  function Map<T, U>(f: T -> U, s: seq<T>): (r: seq<U>)
    ensures |r| == |s|
    ensures forall i :: 0 <= i < |s| ==> r[i] == f(s[i])
  {
    if s == [] then [] else [f(s[0])] + Map(f, s[1..])
  }

  /** `s.map(f).filter(Boolean)`, where `f` returns `null` (here `None`) for an element to drop. */
  function FilterMap<T(!new), U>(f: T -> Option<U>, s: seq<T>): (r: seq<U>)
    ensures |r| <= |s|
    ensures forall y :: y in r ==> exists x :: x in s && f(x) == Some(y)
  {
    if s == [] then []
    else
      assert forall x :: x in s[1..] ==> x in s;
      match f(s[0])
      case Some(y) => [y] + FilterMap(f, s[1..])
      case None => FilterMap(f, s[1..])
  }

  /** `s.slice(0, n)`. */
  function Take<T>(s: seq<T>, n: nat): (r: seq<T>)
    ensures |r| == if |s| <= n then |s| else n
    ensures r <= s
  {
    if |s| <= n then s else s[..n]
  }

  /** `a` occurs in `b` with its elements in the same order, possibly with gaps. */
  predicate IsSubsequence<T(==)>(a: seq<T>, b: seq<T>)
    decreases |b|
  {
    if b == [] then a == []
    else (a != [] && a[0] == b[0] && IsSubsequence(a[1..], b[1..])) || IsSubsequence(a, b[1..])
  }

  /** The number of elements satisfying `p`: `s.filter(p).length`. */
  function Count<T(!new)>(p: T -> bool, s: seq<T>): nat {
    |Filter(p, s)|
  }

  lemma {:induction false} FilterIsSubsequence<T(!new)>(p: T -> bool, s: seq<T>)
    ensures IsSubsequence(Filter(p, s), s)
  {
    if s != [] {
      FilterIsSubsequence(p, s[1..]);
    }
  }

  /** A filter keeps every copy of an element it keeps: multiplicities are those of the input, or zero. */
  lemma {:induction false} FilterMultiset<T(!new)>(p: T -> bool, s: seq<T>)
    ensures forall x :: multiset(Filter(p, s))[x] == if p(x) then multiset(s)[x] else 0
  {
    if s != [] {
      FilterMultiset(p, s[1..]);
      assert s == [s[0]] + s[1..];
      assert multiset(s) == multiset([s[0]]) + multiset(s[1..]);
    }
  }

  /** Filtering distributes over concatenation: the relative order of survivors is kept. */
  lemma {:induction false} FilterConcat<T(!new)>(p: T -> bool, a: seq<T>, b: seq<T>)
    ensures Filter(p, a + b) == Filter(p, a) + Filter(p, b)
  {
    if a != [] {
      assert (a + b)[0] == a[0];
      assert (a + b)[1..] == a[1..] + b;
      FilterConcat(p, a[1..], b);
    } else {
      assert a + b == b;
    }
  }

  /** A filter removes something exactly when some element fails the predicate. */
  lemma {:induction false} FilterShrinks<T(!new)>(p: T -> bool, s: seq<T>)
    ensures |Filter(p, s)| < |s| <==> exists x :: x in s && !p(x)
    ensures Filter(p, s) == s <==> forall x :: x in s ==> p(x)
  {
    if s != [] {
      FilterShrinks(p, s[1..]);
      assert forall x :: x in s <==> x == s[0] || x in s[1..];
    }
  }

  lemma {:induction false} FilterMapConcat<T(!new), U>(f: T -> Option<U>, a: seq<T>, b: seq<T>)
    ensures FilterMap(f, a + b) == FilterMap(f, a) + FilterMap(f, b)
  {
    if a != [] {
      assert (a + b)[0] == a[0];
      assert (a + b)[1..] == a[1..] + b;
      FilterMapConcat(f, a[1..], b);
    } else {
      assert a + b == b;
    }
  }

  /**
   * A `map(...).filter(Boolean)` whose callback either drops an element or
   * rewrites it by `g` is a `filter` followed by a `map`.
   */
  lemma {:induction false} FilterMapIsMapOfFilter<T(!new), U>(f: T -> Option<U>, keep: T -> bool, g: T -> U, s: seq<T>)
    requires forall x :: x in s ==> f(x) == if keep(x) then Some(g(x)) else None
    ensures FilterMap(f, s) == Map(g, Filter(keep, s))
  {
    if s != [] {
      assert forall x :: x in s[1..] ==> x in s;
      FilterMapIsMapOfFilter(f, keep, g, s[1..]);
    }
  }

  /**
   * A `map(...).filter(Boolean)` returns a structurally equal array exactly when
   * its callback returned every element unchanged.
   */
  lemma {:induction false} FilterMapUnchanged<T(!new)>(f: T -> Option<T>, s: seq<T>)
    ensures FilterMap(f, s) == s <==> forall i :: 0 <= i < |s| ==> f(s[i]) == Some(s[i])
  {
    if forall i :: 0 <= i < |s| ==> f(s[i]) == Some(s[i]) {
      FilterMapKeepsAll(f, s);
    } else {
      var k :| 0 <= k < |s| && f(s[k]) != Some(s[k]);
      FilterMapChanges(f, s, k);
    }
  }

  lemma {:induction false} FilterMapKeepsAll<T(!new)>(f: T -> Option<T>, s: seq<T>)
    requires forall i :: 0 <= i < |s| ==> f(s[i]) == Some(s[i])
    ensures FilterMap(f, s) == s
  {
    if s != [] {
      FilterMapKeepsAll(f, s[1..]);
      assert [s[0]] + s[1..] == s;
    }
  }

  lemma {:induction false} FilterMapChanges<T(!new)>(f: T -> Option<T>, s: seq<T>, k: nat)
    requires k < |s| && f(s[k]) != Some(s[k])
    ensures FilterMap(f, s) != s
  {
    match f(s[0])
    case None =>
    case Some(y) =>
      if k > 0 {
        assert s[1..][k - 1] == s[k];
        FilterMapChanges(f, s[1..], k - 1);
        assert FilterMap(f, s)[1..] == FilterMap(f, s[1..]);
      }
  }

  /** A map whose callback returns every element unchanged returns the array it was given. */
  lemma {:induction false} MapIdentity<T(!new)>(f: T -> T, s: seq<T>)
    requires forall x :: x in s ==> f(x) == x
    ensures Map(f, s) == s
  {
    if s != [] {
      assert forall x :: x in s[1..] ==> x in s;
      MapIdentity(f, s[1..]);
    }
  }
}
