/**
 Table-level building blocks: a table is a sequence of rows in insertion
 order, and the handlers' queries are counts, filtered projections and
 first-match lookups over it.
 */
module Seqs {
  import opened Php

  /** `SELECT COUNT(*) ... WHERE p`. */
  function Count<T>(s: seq<T>, p: T -> bool): (n: nat)
    ensures n <= |s|
    ensures n == 0 <==> forall i :: 0 <= i < |s| ==> !p(s[i])
    decreases |s|
  {
    if s == [] then 0
    else Count(s[..|s| - 1], p) + (if p(s[|s| - 1]) then 1 else 0)
  }

  /** Counting the rows of a prefix one row longer adds that row's contribution. */
  lemma CountPrefixStep<T>(s: seq<T>, p: T -> bool, i: nat)
    requires i < |s|
    ensures Count(s[..i + 1], p) == Count(s[..i], p) + (if p(s[i]) then 1 else 0)
  {
    assert s[..i + 1][..i] == s[..i];
  }

  /** A prefix never holds more matching rows than the whole table. */
  lemma {:induction false} CountPrefixBound<T>(s: seq<T>, p: T -> bool, i: nat)
    requires i <= |s|
    ensures Count(s[..i], p) <= Count(s, p)
    decreases |s| - i
  {
    if i < |s| {
      CountPrefixStep(s, p, i);
      CountPrefixBound(s, p, i + 1);
    } else {
      assert s[..i] == s;
    }
  }

  /** A matching row at position i has strictly fewer matching rows before it than the table has in all. */
  lemma CountBeforeMatch<T>(s: seq<T>, p: T -> bool, i: nat)
    requires i < |s| && p(s[i])
    ensures Count(s[..i], p) < Count(s, p)
  {
    CountPrefixStep(s, p, i);
    CountPrefixBound(s, p, i + 1);
  }

  /** Appending one row adds its contribution to the count. */
  lemma CountSnoc<T>(s: seq<T>, p: T -> bool, x: T)
    ensures Count(s + [x], p) == Count(s, p) + (if p(x) then 1 else 0)
  {
    assert (s + [x])[..|s|] == s;
  }

  /**
   `SELECT f(x) ... WHERE p(x)` in table order: exactly the images of the
   matching rows, one per matching row.
   */
  function Select<T, U>(s: seq<T>, p: T -> bool, f: T -> U): (r: seq<U>)
    ensures |r| == Count(s, p)
    ensures forall i :: 0 <= i < |s| && p(s[i]) ==> f(s[i]) in r
    ensures forall y :: y in r ==> exists i :: 0 <= i < |s| && p(s[i]) && y == f(s[i])
    decreases |s|
  {
    if s == [] then []
    else
      var init := s[..|s| - 1];
      var rest := Select(init, p, f);
      assert forall i :: 0 <= i < |init| ==> init[i] == s[i];
      rest + (if p(s[|s| - 1]) then [f(s[|s| - 1])] else [])
  }

  /** Each value occurs in a selection exactly as often as there are matching rows projecting to it. */
  lemma {:induction false} SelectMultiplicity<T, U>(s: seq<T>, p: T -> bool, f: T -> U, y: U)
    ensures multiset(Select(s, p, f))[y] == Count(s, (x: T) => p(x) && f(x) == y)
    decreases |s|
  {
    if s != [] {
      SelectMultiplicity(s[..|s| - 1], p, f, y);
    }
  }

  /** Selection distributes over concatenation: rows of `a` are listed before rows of `b`. */
  lemma {:induction false} SelectAppend<T, U>(a: seq<T>, b: seq<T>, p: T -> bool, f: T -> U)
    ensures Select(a + b, p, f) == Select(a, p, f) + Select(b, p, f)
    decreases |b|
  {
    if b == [] {
      assert a + b == a;
    } else {
      var b' := b[..|b| - 1];
      assert (a + b)[..|a + b| - 1] == a + b';
      SelectAppend(a, b', p, f);
    }
  }

  /** The rows in the opposite order (`ORDER BY created_at DESC` over an insertion-ordered table). */
  function Reverse<T>(s: seq<T>): (r: seq<T>)
    ensures |r| == |s|
    ensures forall i :: 0 <= i < |s| ==> r[i] == s[|s| - 1 - i]
    decreases |s|
  {
    if s == [] then [] else [s[|s| - 1]] + Reverse(s[..|s| - 1])
  }

  /** Reversal swaps the two halves of a concatenation. */
  lemma ReverseAppend<T>(a: seq<T>, b: seq<T>)
    ensures Reverse(a + b) == Reverse(b) + Reverse(a)
  {
    var l, r := Reverse(a + b), Reverse(b) + Reverse(a);
    assert |l| == |r|;
    forall i | 0 <= i < |l|
      ensures l[i] == r[i]
    {
      if i < |b| {
        assert r[i] == b[|b| - 1 - i];
      } else {
        assert r[i] == a[|a| - 1 - (i - |b|)];
      }
    }
  }

  /** Reversal keeps exactly the same elements. */
  lemma ReverseMembers<T>(s: seq<T>)
    ensures forall x :: x in Reverse(s) <==> x in s
  {
    var r := Reverse(s);
    forall x | x in s
      ensures x in r
    {
      var i :| 0 <= i < |s| && s[i] == x;
      assert r[|s| - 1 - i] == x;
    }
  }

  /** PDO's `fetch()`: the first row satisfying `p`, if any. */
  function Find<T>(s: seq<T>, p: T -> bool): (r: Option<nat>)
    ensures r.None? <==> forall i :: 0 <= i < |s| ==> !p(s[i])
    ensures r.Some? ==> r.value < |s| && p(s[r.value]) && forall j :: 0 <= j < r.value ==> !p(s[j])
    decreases |s|
  {
    if s == [] then None
    else if p(s[0]) then Some(0)
    else
      match Find(s[1..], p)
      case None => None
      case Some(k) => Some(k + 1)
  }
}
