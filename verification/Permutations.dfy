/** Sequences with the same elements.

    Schedules, shuffles and merge orders enter the other modules as sequences of indices;
    what they have in common is that every index occurs once.  This module says what such
    a reordering keeps: the elements, their number, and the concatenation of parts taken
    in another order, as a multiset.  Removing the last element of one sequence from a
    permutation of it is the step of most inductions over permutations. */
module Permutations {

  ghost predicate Distinct<T>(s: seq<T>) {
    forall i, j :: 0 <= i < j < |s| ==> s[i] != s[j]
  }

  lemma DistinctConcat<T>(a: seq<T>, b: seq<T>)
    requires Distinct(a) && Distinct(b) && forall i :: 0 <= i < |a| ==> a[i] !in b
    ensures Distinct(a + b)
  {
  }

  /** Take the last element of s out of its permutation t. */
  lemma Remove<T>(s: seq<T>, t: seq<T>) returns (k: nat)
    requires s != [] && multiset(s) == multiset(t)
    ensures k < |t| && t[k] == s[|s| - 1]
    ensures multiset(s[..|s| - 1]) == multiset(t[..k] + t[k + 1..])
    ensures t == t[..k] + [t[k]] + t[k + 1..]
  {
    var n := |s| - 1;
    assert s == s[..n] + [s[n]];
    assert s[n] in multiset(t);
    k :| 0 <= k < |t| && t[k] == s[n];
    Without(t, k);
  }

  lemma Without<T>(t: seq<T>, k: nat)
    requires k < |t|
    ensures t == t[..k] + [t[k]] + t[k + 1..]
    ensures multiset(t[..k] + t[k + 1..]) == multiset(t) - multiset{t[k]}
  {
    assert t == t[..k] + [t[k]] + t[k + 1..];
  }

  lemma Empty<T>(s: seq<T>, t: seq<T>)
    requires s == [] && multiset(s) == multiset(t)
    ensures t == []
  {
    assert |multiset(t)| == |t|;
  }

  lemma DropLast<T>(s: seq<T>)
    requires s != []
    ensures multiset(s[..|s| - 1]) == multiset(s) - multiset{s[|s| - 1]}
  {
    assert s == s[..|s| - 1] + [s[|s| - 1]];
  }

  lemma SameLength<T>(s: seq<T>, t: seq<T>)
    requires multiset(s) == multiset(t)
    ensures |s| == |t|
  {
    assert |s| == |multiset(s)| == |multiset(t)| == |t|;
  }

  lemma SameFront<T>(s: seq<T>, t: seq<T>)
    requires s != [] && t != [] && multiset(s) == multiset(t) && s[|s| - 1] == t[|t| - 1]
    ensures multiset(s[..|s| - 1]) == multiset(t[..|t| - 1])
  {
    DropLast(s);
    DropLast(t);
  }

  lemma SameWhole<T>(s: seq<T>, t: seq<T>)
    requires s != [] && |s| == |t| && s[|s| - 1] == t[|t| - 1] && s[..|s| - 1] == t[..|t| - 1]
    ensures s == t
  {
    assert s == s[..|s| - 1] + [s[|s| - 1]];
  }

  lemma Member<T>(s: seq<T>, t: seq<T>, x: T)
    requires multiset(s) == multiset(t) && x in s
    ensures x in t
  {
    assert x in multiset(t);
  }

  lemma Split<T>(s: seq<T>, k: nat)
    requires k <= |s|
    ensures multiset(s) == multiset(s[..k]) + multiset(s[k..])
  {
    assert s == s[..k] + s[k..];
  }

  lemma {:induction false} CountOne<T>(s: seq<T>, x: T)
    requires Distinct(s)
    ensures multiset(s)[x] == if x in s then 1 else 0
  {
    if s != [] {
      CountOne(s[..|s| - 1], x);
      DropLast(s);
    }
  }

  /** Sequences without repetition and with the same members are permutations. */
  lemma SameSet<T(!new)>(a: seq<T>, b: seq<T>)
    requires Distinct(a)
    requires Distinct(b)
    requires forall x :: x in a <==> x in b
    ensures multiset(a) == multiset(b)
  {
    forall x ensures multiset(a)[x] == multiset(b)[x] {
      CountOne(a, x);
      CountOne(b, x);
    }
  }

  /** A quantity that is added up over the parts of a sequence does not depend on the order. */
  lemma {:induction false} AdditivePermutation<T(!new)>(f: seq<T> -> nat, s: seq<T>, t: seq<T>)
    requires multiset(s) == multiset(t)
    requires forall a, b :: f(a + b) == f(a) + f(b)
    ensures f(s) == f(t)
  {
    if s == [] {
      Empty(s, t);
    } else {
      var n := |s| - 1;
      var k := Remove(s, t);
      AdditivePermutation(f, s[..n], t[..k] + t[k + 1..]);
      assert f(s[..n] + [s[n]]) == f(s) by { assert s == s[..n] + [s[n]]; }
      assert f(t[..k] + [t[k]] + t[k + 1..]) == f(t);
    }
  }

  /** The parts named by `order`, one after the other. */
  function Concat<T>(parts: seq<seq<T>>, order: seq<nat>): seq<T>
    requires forall i :: 0 <= i < |order| ==> order[i] < |parts|
  {
    if order == [] then []
    else Concat(parts, order[..|order| - 1]) + parts[order[|order| - 1]]
  }

  lemma {:induction false} ConcatAppend<T>(parts: seq<seq<T>>, a: seq<nat>, b: seq<nat>)
    requires forall i :: 0 <= i < |a| ==> a[i] < |parts|
    requires forall i :: 0 <= i < |b| ==> b[i] < |parts|
    ensures Concat(parts, a + b) == Concat(parts, a) + Concat(parts, b)
  {
    if b == [] {
      assert a + b == a;
    } else {
      var n := |b| - 1;
      ConcatAppend(parts, a, b[..n]);
      assert (a + b)[..|a + b| - 1] == a + b[..n];
      assert (a + b)[|a + b| - 1] == b[n];
    }
  }

  lemma ConcatOne<T>(parts: seq<seq<T>>, a: seq<nat>, x: nat)
    requires x < |parts| && forall i :: 0 <= i < |a| ==> a[i] < |parts|
    ensures Concat(parts, a + [x]) == Concat(parts, a) + parts[x]
  {
    assert (a + [x])[..|a|] == a;
  }

  /** Another order collects the same elements. */
  lemma {:induction false} ConcatPermutation<T>(parts: seq<seq<T>>, a: seq<nat>, b: seq<nat>)
    requires multiset(a) == multiset(b)
    requires forall i :: 0 <= i < |a| ==> a[i] < |parts|
    requires forall i :: 0 <= i < |b| ==> b[i] < |parts|
    ensures multiset(Concat(parts, a)) == multiset(Concat(parts, b))
  {
    if a == [] {
      Empty(a, b);
    } else {
      var k := Remove(a, b);
      ConcatPermutation(parts, a[..|a| - 1], b[..k] + b[k + 1..]);
      ConcatAppend(parts, b[..k], b[k + 1..]);
      ConcatAppend(parts, b[..k] + [b[k]], b[k + 1..]);
      ConcatOne(parts, b[..k], b[k]);
    }
  }

  function Identity(n: nat): seq<nat> {
    seq(n, i => i)
  }

  lemma IdentityPermutation(order: seq<nat>, n: nat)
    requires Distinct(order)
    requires forall p: nat :: p in order <==> p < n
    ensures multiset(order) == multiset(Identity(n))
  {
    forall x: nat ensures x in Identity(n) <==> x < n {
      if x < n { assert Identity(n)[x] == x; }
    }
    SameSet(order, Identity(n));
  }
}
