/** The bounded result lists that every search loop fills. */
module TopK {
  import Permutations

  // A result heap of capacity k is modelled by the ascending sequence of the values it
  // holds; the slots still at the neutral value are left out.  For a similarity metric,
  // read each value as the negated similarity.  The list is compared with an independent
  // reference: sort every candidate, keep k.

  /** One result: a vector's id and its distance to the query. */
  datatype Hit = Hit(dis: real, id: int)

  function Distances(hits: seq<Hit>): (d: seq<real>)
    ensures |d| == |hits|
  {
    seq(|hits|, i requires 0 <= i < |hits| => hits[i].dis)
  }

  ghost predicate Sorted(h: seq<real>) {
    forall i, j :: 0 <= i < j < |h| ==> h[i] <= h[j]
  }

  function Insert(h: seq<real>, x: real): seq<real> {
    if h == [] then [x]
    else if x < h[0] then [x] + h
    else [h[0]] + Insert(h[1..], x)
  }

  function Sort(s: seq<real>): seq<real> {
    if s == [] then [] else Insert(Sort(s[..|s| - 1]), s[|s| - 1])
  }

  function Take(k: nat, h: seq<real>): seq<real> {
    if |h| <= k then h else h[..k]
  }

  /** The reference: the k least candidates in ascending order. */
  function Best(k: nat, s: seq<real>): seq<real> {
    Take(k, Sort(s))
  }

  /** Offer one candidate: it enters a full list only when strictly below the threshold. */
  function Push(k: nat, h: seq<real>, x: real): seq<real>
    requires k > 0
  {
    if |h| < k || x < h[|h| - 1] then Take(k, Insert(h, x)) else h
  }

  function PushAll(k: nat, h: seq<real>, s: seq<real>): seq<real>
    requires k > 0
    decreases |s|
  {
    if s == [] then h else PushAll(k, Push(k, h, s[0]), s[1..])
  }

  // ---- sorting ----

  lemma {:induction false} InsertElements(h: seq<real>, x: real)
    ensures |Insert(h, x)| == |h| + 1
    ensures multiset(Insert(h, x)) == multiset(h) + multiset{x}
  {
    if h != [] && x >= h[0] {
      InsertElements(h[1..], x);
      assert h == [h[0]] + h[1..];
    }
  }

  lemma {:induction false} InsertAtLeast(h: seq<real>, x: real, low: real)
    requires low <= x && forall i :: 0 <= i < |h| ==> low <= h[i]
    ensures forall i :: 0 <= i < |Insert(h, x)| ==> low <= Insert(h, x)[i]
  {
    if h != [] && x >= h[0] {
      InsertAtLeast(h[1..], x, low);
    }
  }

  lemma {:induction false} InsertSorted(h: seq<real>, x: real)
    requires Sorted(h)
    ensures Sorted(Insert(h, x))
  {
    if h != [] && x >= h[0] {
      InsertSorted(h[1..], x);
      InsertAtLeast(h[1..], x, h[0]);
    }
  }

  lemma {:induction false} SortSorted(s: seq<real>)
    ensures Sorted(Sort(s)) && |Sort(s)| == |s| && multiset(Sort(s)) == multiset(s)
  {
    if s != [] {
      SortSorted(s[..|s| - 1]);
      InsertSorted(Sort(s[..|s| - 1]), s[|s| - 1]);
      InsertElements(Sort(s[..|s| - 1]), s[|s| - 1]);
      assert s == s[..|s| - 1] + [s[|s| - 1]];
    }
  }

  lemma {:induction false} SortedUnique(a: seq<real>, b: seq<real>)
    requires Sorted(a) && Sorted(b) && multiset(a) == multiset(b)
    ensures a == b
  {
    Permutations.SameLength(a, b);
    if a != [] {
      LastEqual(a, b);
      Permutations.SameFront(a, b);
      SortedUnique(a[..|a| - 1], b[..|b| - 1]);
      Permutations.SameWhole(a, b);
    }
  }

  lemma LastEqual(a: seq<real>, b: seq<real>)
    requires Sorted(a) && Sorted(b) && multiset(a) == multiset(b) && a != [] && b != []
    ensures a[|a| - 1] == b[|b| - 1]
  {
    Permutations.Member(a, b, a[|a| - 1]);
    Permutations.Member(b, a, b[|b| - 1]);
  }

  /** The reference does not depend on the order in which candidates arrive. */
  lemma BestPermutation(k: nat, s: seq<real>, t: seq<real>)
    requires multiset(s) == multiset(t)
    ensures Best(k, s) == Best(k, t)
  {
    SortSorted(s);
    SortSorted(t);
    SortedUnique(Sort(s), Sort(t));
  }

  /** What the reference means, without its algorithm: an ascending part of the
      candidates, as long as k allows, that no omitted candidate undercuts. */
  lemma BestMeaning(k: nat, s: seq<real>)
    ensures Sorted(Best(k, s)) && |Best(k, s)| == if |s| <= k then |s| else k
    ensures multiset(Best(k, s)) <= multiset(s)
    ensures forall x, y :: x in multiset(s) - multiset(Best(k, s)) && y in Best(k, s) ==> y <= x
  {
    SortSorted(s);
    var h := Sort(s);
    if |h| > k {
      Permutations.Split(h, k);
      forall x, y | x in multiset(s) - multiset(h[..k]) && y in h[..k] ensures y <= x {
        assert x in multiset(h[k..]);
      }
    }
  }

  // ---- the bounded list agrees with the reference ----

  lemma {:induction false} TakeInsert(k: nat, h: seq<real>, x: real)
    ensures Take(k, Insert(h, x)) == Take(k, Insert(Take(k, h), x))
  {
    if |h| <= k {
    } else if x < h[0] || k == 0 {
    } else {
      TakeInsert(k - 1, h[1..], x);
      var t := Take(k, h);
      assert t[0] == h[0] && t[1..] == Take(k - 1, h[1..]);
      assert Take(k, [h[0]] + Insert(h[1..], x)) == [h[0]] + Take(k - 1, Insert(h[1..], x));
      assert Take(k, [h[0]] + Insert(t[1..], x)) == [h[0]] + Take(k - 1, Insert(t[1..], x));
    }
  }

  /** A candidate at or above the threshold of a full list changes nothing. */
  lemma {:induction false} InsertAbove(h: seq<real>, x: real)
    requires Sorted(h) && (h == [] || h[|h| - 1] <= x)
    ensures Insert(h, x) == h + [x]
  {
    if h != [] {
      InsertAbove(h[1..], x);
    }
  }

  lemma PushBest(k: nat, s: seq<real>, x: real)
    requires k > 0
    ensures Push(k, Best(k, s), x) == Best(k, s + [x])
  {
    SortSorted(s);
    var h := Best(k, s);
    assert (s + [x])[..|s|] == s;
    TakeInsert(k, Sort(s), x);
    if |h| == k && h[k - 1] <= x {
      InsertAbove(h, x);
    }
  }

  /** Pushing candidates one by one into a list that is best for s leaves it best for s + t. */
  lemma {:induction false} PushAllBest(k: nat, s: seq<real>, t: seq<real>)
    requires k > 0
    ensures PushAll(k, Best(k, s), t) == Best(k, s + t)
    decreases |t|
  {
    if t == [] {
      assert s + t == s;
    } else {
      PushBest(k, s, t[0]);
      PushAllBest(k, s + [t[0]], t[1..]);
      assert s + [t[0]] + t[1..] == s + t;
    }
  }

  lemma BestBest(k: nat, s: seq<real>)
    ensures Best(k, Best(k, s)) == Best(k, s)
  {
    SortSorted(s);
    SortSorted(Best(k, s));
    SortedUnique(Sort(Best(k, s)), Best(k, s));
  }

  /** Merging a list of best candidates of t is as good as offering all of t. */
  lemma MergeBest(k: nat, s: seq<real>, t: seq<real>)
    requires k > 0
    ensures PushAll(k, Best(k, s), Best(k, t)) == Best(k, s + t)
  {
    var bt := Best(k, t);
    PushAllBest(k, s, bt);
    BestPermutation(k, s + bt, bt + s);
    PushAllBest(k, bt, s);
    BestBest(k, t);
    PushAllBest(k, t, s);
    BestPermutation(k, s + t, t + s);
  }

  lemma BestEmpty(k: nat)
    ensures Best(k, []) == []
  {
  }
}
