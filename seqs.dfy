/** Order-preserving removal from a list, as ArrayList.removeAll and Iterator.remove perform it. */
module Seqs {

  /** f applied to every element of s: a loop that updates each element of a list in turn. */
  function Map<T, U>(s: seq<T>, f: T -> U): (r: seq<U>)
    ensures |r| == |s|
    ensures forall i :: 0 <= i < |s| ==> r[i] == f(s[i])
  {
    seq(|s|, i requires 0 <= i < |s| => f(s[i]))
  }

  /** The elements of s that satisfy p, in their original order. */
  function Filter<T>(s: seq<T>, p: T -> bool): (r: seq<T>)
    ensures |r| <= |s|
    ensures forall x :: x in r ==> x in s && p(x)
  {
    if s == [] then []
    else
      var rest := Filter(s[..|s| - 1], p);
      if p(s[|s| - 1]) then rest + [s[|s| - 1]] else rest
  }

  /** Filtering one more element at the end either keeps it or drops it. */
  lemma FilterSnoc<T>(s: seq<T>, x: T, p: T -> bool)
    ensures Filter(s + [x], p) == Filter(s, p) + (if p(x) then [x] else [])
  {
    assert (s + [x])[..|s|] == s;
  }

  /** Nothing that satisfies p is lost. */
  lemma {:induction false} FilterKeepsAll<T>(s: seq<T>, p: T -> bool, x: T)
    requires x in s && p(x)
    ensures x in Filter(s, p)
  {
    var init := s[..|s| - 1];
    assert s == init + [s[|s| - 1]];
    if s[|s| - 1] != x {
      FilterKeepsAll(init, p, x);
    }
  }

  /** Filtering keeps every copy of a value that satisfies p and no copy of one that does not. */
  lemma {:induction false} FilterCount<T>(s: seq<T>, p: T -> bool, x: T)
    ensures multiset(Filter(s, p))[x] == if p(x) then multiset(s)[x] else 0
  {
    if s != [] {
      var init, last := s[..|s| - 1], s[|s| - 1];
      assert s == init + [last];
      FilterCount(init, p, x);
      FilterSnoc(init, last, p);
    }
  }

  /** a is b with some elements taken out, the rest in the same order. */
  ghost predicate IsSubsequence<T>(a: seq<T>, b: seq<T>)
    decreases |b|
  {
    || a == []
    || (&& b != []
        && (|| (a[|a| - 1] == b[|b| - 1] && IsSubsequence(a[..|a| - 1], b[..|b| - 1]))
            || IsSubsequence(a, b[..|b| - 1])))
  }

  /** Filtering keeps the survivors in their relative order. */
  lemma {:induction false} FilterIsSubsequence<T>(s: seq<T>, p: T -> bool)
    ensures IsSubsequence(Filter(s, p), s)
  {
    if s != [] {
      var init := s[..|s| - 1];
      FilterIsSubsequence(init, p);
      var rest := Filter(init, p);
      if p(s[|s| - 1]) {
        assert (rest + [s[|s| - 1]])[..|rest|] == rest;
      }
    }
  }

  /** The elements of s whose flag is not set, in order: what removeAll leaves when the
      flags mark the very objects collected for removal. */
  function Unflagged<T>(s: seq<T>, flagged: seq<bool>): (r: seq<T>)
    requires |flagged| == |s|
    ensures |r| <= |s|
  {
    if s == [] then []
    else
      var rest := Unflagged(s[..|s| - 1], flagged[..|s| - 1]);
      if flagged[|s| - 1] then rest else rest + [s[|s| - 1]]
  }

  /** Removing the flagged positions is filtering by the property the flags record. */
  lemma {:induction false} UnflaggedIsFilter<T>(s: seq<T>, flagged: seq<bool>, p: T -> bool)
    requires |flagged| == |s|
    requires forall i :: 0 <= i < |s| ==> flagged[i] == !p(s[i])
    ensures Unflagged(s, flagged) == Filter(s, p)
  {
    if s != [] {
      UnflaggedIsFilter(s[..|s| - 1], flagged[..|s| - 1], p);
    }
  }
}
