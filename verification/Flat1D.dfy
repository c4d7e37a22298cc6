/** Exact nearest neighbours among real numbers: bisection in a permutation, then a
    window of ranks that grows on the nearer side. */
module Flat1D {
  // The distance of the results is the absolute difference; a list that the data cannot
  // fill is padded.

  import opened Arithmetic
  import FlatCodes

  datatype Distance = Infinite | Finite(value: real)

  function Abs(x: real): real { if x < 0.0 then -x else x }

  // ---- the sorted permutation ----

  /** perm lists the positions below its length, each once. */
  ghost predicate IsPermutation(perm: seq<nat>) {
    && (forall i :: 0 <= i < |perm| ==> perm[i] < |perm|)
    && (forall i, j :: 0 <= i < j < |perm| ==> perm[i] != perm[j])
    && (forall p: nat :: p < |perm| ==> p in perm)
  }

  /** perm lists the positions of xb in ascending order of value. */
  ghost predicate IsArgSort(xb: seq<real>, perm: seq<nat>) {
    && |perm| == |xb| && IsPermutation(perm)
    && forall i, j :: 0 <= i < j < |perm| ==> xb[perm[i]] <= xb[perm[j]]
  }

  /** Positions 0 .. n-1 in ascending order of value. */
  function ArgSort(xb: seq<real>, n: nat): seq<nat>
    requires n <= |xb|
  {
    if n == 0 then [] else Insert(xb, ArgSort(xb, n - 1), n - 1)
  }

  function Insert(xb: seq<real>, perm: seq<nat>, p: nat): seq<nat> {
    if perm == [] then [p]
    else if p < |xb| && perm[0] < |xb| && xb[p] < xb[perm[0]] then [p] + perm
    else [perm[0]] + Insert(xb, perm[1..], p)
  }

  ghost predicate Ascending(xb: seq<real>, perm: seq<nat>) {
    && (forall i :: 0 <= i < |perm| ==> perm[i] < |xb|)
    && (forall i, j :: 0 <= i < j < |perm| ==> xb[perm[i]] <= xb[perm[j]])
  }

  lemma {:induction false} InsertMembers(xb: seq<real>, perm: seq<nat>, p: nat)
    ensures |Insert(xb, perm, p)| == |perm| + 1
    ensures forall q :: q in Insert(xb, perm, p) <==> q == p || q in perm
  {
    if perm != [] { InsertMembers(xb, perm[1..], p); }
  }

  lemma {:induction false} InsertAscending(xb: seq<real>, perm: seq<nat>, p: nat)
    requires Ascending(xb, perm) && p < |xb|
    ensures Ascending(xb, Insert(xb, perm, p))
  {
    if perm != [] && xb[p] >= xb[perm[0]] {
      var r := Insert(xb, perm[1..], p);
      InsertAscending(xb, perm[1..], p);
      InsertMembers(xb, perm[1..], p);
      forall i | 0 <= i < |r| ensures xb[perm[0]] <= xb[r[i]] {
        assert r[i] in r;
        if r[i] != p {
          var j :| 0 <= j < |perm[1..]| && perm[1..][j] == r[i];
          assert perm[j + 1] == r[i];
        }
      }
    }
  }

  lemma {:induction false} InsertDistinct(xb: seq<real>, perm: seq<nat>, p: nat)
    requires (forall i, j :: 0 <= i < j < |perm| ==> perm[i] != perm[j]) && p !in perm
    ensures var r := Insert(xb, perm, p); forall i, j :: 0 <= i < j < |r| ==> r[i] != r[j]
  {
    if perm != [] {
      var r := Insert(xb, perm[1..], p);
      InsertDistinct(xb, perm[1..], p);
      InsertMembers(xb, perm[1..], p);
      assert perm[0] !in perm[1..];
      assert perm[0] !in r;
    }
  }

  lemma {:induction false} ArgSortCorrect(xb: seq<real>, n: nat)
    requires n <= |xb|
    ensures var r := ArgSort(xb, n);
            && |r| == n && Ascending(xb, r)
            && (forall i, j :: 0 <= i < j < |r| ==> r[i] != r[j])
            && (forall q: nat :: q in r <==> q < n)
  {
    if n > 0 {
      var m, front := n - 1, ArgSort(xb, n - 1);
      ArgSortCorrect(xb, m);
      InsertMembers(xb, front, m);
      InsertAscending(xb, front, m);
      InsertDistinct(xb, front, m);
    }
  }

  // ---- what a search must return ----

  function Dist(xb: seq<real>, q: real, p: nat): real
    requires p < |xb|
  {
    Abs(xb[p] - q)
  }

  /** One output slot. */
  datatype Slot = Slot(dis: Distance, id: int)

  const PADDING := Slot(Infinite, -1)

  /** The first m slots show points of xb and their distances; the others are padding. */
  ghost predicate Listed(xb: seq<real>, q: real, m: nat, out: seq<Slot>) {
    && m <= |out|
    && (forall j :: 0 <= j < m ==> 0 <= out[j].id < |xb| && out[j].dis == Finite(Dist(xb, q, out[j].id)))
    && (forall j :: m <= j < |out| ==> out[j] == PADDING)
  }

  /** Distinct labels in ascending distance. */
  ghost predicate Ranked(xb: seq<real>, q: real, m: nat, out: seq<Slot>)
    requires Listed(xb, q, m, out)
  {
    && (forall i, j :: 0 <= i < j < m ==> out[i].id != out[j].id)
    && (forall i, j :: 0 <= i < j < m ==> out[i].dis.value <= out[j].dis.value)
  }

  /** No point that is not returned is strictly closer than a returned one. */
  ghost predicate NoneCloser(xb: seq<real>, q: real, m: nat, out: seq<Slot>)
    requires Listed(xb, q, m, out)
  {
    forall p: nat, j :: p < |xb| && !Returned(out, p) && 0 <= j < m ==> out[j].dis.value <= Dist(xb, q, p)
  }

  /** Exactly min(k, |xb|) points, the nearest ones, nearest first. */
  ghost predicate IsKnn(xb: seq<real>, q: real, k: nat, out: seq<Slot>) {
    var m := Min(k, |xb|);
    |out| == k && Listed(xb, q, m, out) && Ranked(xb, q, m, out) && NoneCloser(xb, q, m, out)
  }

  ghost predicate Returned(out: seq<Slot>, p: int) {
    exists j :: 0 <= j < |out| && out[j].id == p
  }

  // ---- the expanding window of ranks ----

  /** Exactly the ranks strictly between lo and hi have been returned. */
  ghost predicate Covers(n: nat, ranks: seq<int>, lo: int, hi: int) {
    && -1 <= lo < hi <= n && |ranks| == hi - lo - 1
    && (forall j :: 0 <= j < |ranks| ==> lo < ranks[j] < hi)
    && (forall r :: lo < r < hi ==> r in ranks)
    && (forall i, j :: 0 <= i < j < |ranks| ==> ranks[i] != ranks[j])
  }

  /** They were returned nearest first, and are at least as near as both neighbours. */
  ghost predicate NearestFirst(v: seq<real>, q: real, ranks: seq<int>, lo: int, hi: int)
    requires Covers(|v|, ranks, lo, hi)
  {
    && (lo >= 0 ==> v[lo] <= q)
    && (hi < |v| ==> q < v[hi])
    && (forall i, j :: 0 <= i < j < |ranks| ==> Abs(v[ranks[i]] - q) <= Abs(v[ranks[j]] - q))
    && (forall j :: 0 <= j < |ranks| && lo >= 0 ==> Abs(v[ranks[j]] - q) <= q - v[lo])
    && (forall j :: 0 <= j < |ranks| && hi < |v| ==> Abs(v[ranks[j]] - q) <= v[hi] - q)
  }

  ghost predicate Window(v: seq<real>, q: real, ranks: seq<int>, lo: int, hi: int) {
    Covers(|v|, ranks, lo, hi) && NearestFirst(v, q, ranks, lo, hi)
  }

  ghost predicate Nondecreasing(v: seq<real>) {
    forall i, j :: 0 <= i <= j < |v| ==> v[i] <= v[j]
  }

  lemma CoversMore(n: nat, ranks: seq<int>, lo: int, hi: int, r: int, lo': int, hi': int)
    requires Covers(n, ranks, lo, hi)
    requires (r == lo >= 0 && lo' == lo - 1 && hi' == hi) || (r == hi < n && lo' == lo && hi' == hi + 1)
    ensures Covers(n, ranks + [r], lo', hi')
  {
    forall x | lo' < x < hi' ensures x in ranks + [r] {
      if x != r { assert x in ranks; }
    }
  }

  /** One more rank, no nearer than the others and no farther than the new neighbours. */
  lemma Widen(v: seq<real>, q: real, ranks: seq<int>, r: int, lo: int, hi: int)
    requires Covers(|v|, ranks + [r], lo, hi) && 0 <= r < |v|
    requires forall j :: 0 <= j < |ranks| ==> 0 <= ranks[j] < |v| && Abs(v[ranks[j]] - q) <= Abs(v[r] - q)
    requires forall i, j :: 0 <= i < j < |ranks| ==> Abs(v[ranks[i]] - q) <= Abs(v[ranks[j]] - q)
    requires lo >= 0 ==> v[lo] <= q && Abs(v[r] - q) <= q - v[lo]
    requires hi < |v| ==> q < v[hi] && Abs(v[r] - q) <= v[hi] - q
    ensures Window(v, q, ranks + [r], lo, hi)
  {
  }

  lemma TakeLeft(v: seq<real>, q: real, ranks: seq<int>, lo: int, hi: int)
    requires Nondecreasing(v) && Window(v, q, ranks, lo, hi) && lo >= 0
    requires hi < |v| ==> q - v[lo] <= v[hi] - q
    ensures Window(v, q, ranks + [lo], lo - 1, hi)
  {
    CoversMore(|v|, ranks, lo, hi, lo, lo - 1, hi);
    NearestNext(v, q, ranks, lo, hi, lo);
    Widen(v, q, ranks, lo, lo - 1, hi);
  }

  lemma TakeRight(v: seq<real>, q: real, ranks: seq<int>, lo: int, hi: int)
    requires Nondecreasing(v) && Window(v, q, ranks, lo, hi) && hi < |v|
    requires lo >= 0 ==> v[hi] - q <= q - v[lo]
    ensures Window(v, q, ranks + [hi], lo, hi + 1)
  {
    CoversMore(|v|, ranks, lo, hi, hi, lo, hi + 1);
    NearestNext(v, q, ranks, lo, hi, hi);
    Widen(v, q, ranks, hi, lo, hi + 1);
  }

  /** The next rank is no nearer than those returned before. */
  lemma NearestNext(v: seq<real>, q: real, ranks: seq<int>, lo: int, hi: int, r: int)
    requires Window(v, q, ranks, lo, hi) && (r == lo >= 0 || r == hi < |v|)
    ensures forall j :: 0 <= j < |ranks| ==> Abs(v[ranks[j]] - q) <= Abs(v[r] - q)
  {
  }

  /** Every entry of the permutation is a position of xb. */
  ghost predicate Reads(xb: seq<real>, perm: seq<nat>) {
    |perm| == |xb| && forall i :: 0 <= i < |perm| ==> perm[i] < |xb|
  }

  function Values(xb: seq<real>, perm: seq<nat>): (v: seq<real>)
    requires Reads(xb, perm)
    ensures |v| == |xb|
  {
    seq(|perm|, r requires 0 <= r < |perm| => xb[perm[r]])
  }

  /** The output shows the returned ranks, then padding. */
  ghost predicate Shown(out: seq<Slot>, v: seq<real>, perm: seq<nat>, q: real, ranks: seq<int>) {
    && |ranks| <= |out| && |v| == |perm|
    && (forall j :: 0 <= j < |ranks| ==> 0 <= ranks[j] < |perm|)
    && (forall j :: 0 <= j < |ranks| ==> out[j] == Slot(Finite(Abs(v[ranks[j]] - q)), perm[ranks[j]]))
    && (forall j :: |ranks| <= j < |out| ==> out[j] == PADDING)
  }

  /** A window of min(k, n) ranks is a correct answer. */
  lemma WindowIsKnn(xb: seq<real>, perm: seq<nat>, v: seq<real>, q: real, ranks: seq<int>, lo: int, hi: int,
                    out: seq<Slot>)
    requires IsArgSort(xb, perm) && v == Values(xb, perm) && Window(v, q, ranks, lo, hi)
    requires Shown(out, v, perm, q, ranks) && |ranks| == Min(|out|, |xb|)
    ensures IsKnn(xb, q, |out|, out)
  {
    ShownIsListed(xb, perm, v, q, ranks, out);
    ShownIsRanked(xb, perm, v, q, ranks, lo, hi, out);
    ShownIsNearest(xb, perm, v, q, ranks, lo, hi, out);
  }

  lemma ShownIsListed(xb: seq<real>, perm: seq<nat>, v: seq<real>, q: real, ranks: seq<int>, out: seq<Slot>)
    requires Reads(xb, perm) && v == Values(xb, perm) && Shown(out, v, perm, q, ranks)
    ensures Listed(xb, q, |ranks|, out)
  {
  }

  lemma ShownIsRanked(xb: seq<real>, perm: seq<nat>, v: seq<real>, q: real, ranks: seq<int>, lo: int, hi: int,
                      out: seq<Slot>)
    requires IsPermutation(perm) && Window(v, q, ranks, lo, hi)
    requires Shown(out, v, perm, q, ranks) && Listed(xb, q, |ranks|, out)
    ensures Ranked(xb, q, |ranks|, out)
  {
    forall i, j | 0 <= i < j < |ranks| ensures perm[ranks[i]] != perm[ranks[j]] {
      assert ranks[i] != ranks[j];
    }
  }

  lemma ShownIsNearest(xb: seq<real>, perm: seq<nat>, v: seq<real>, q: real, ranks: seq<int>, lo: int, hi: int,
                       out: seq<Slot>)
    requires IsArgSort(xb, perm) && v == Values(xb, perm) && Window(v, q, ranks, lo, hi)
    requires Shown(out, v, perm, q, ranks) && Listed(xb, q, |ranks|, out)
    ensures NoneCloser(xb, q, |ranks|, out)
  {
    forall p: nat, j | p < |xb| && !Returned(out, p) && 0 <= j < |ranks| ensures out[j].dis.value <= Dist(xb, q, p) {
      var r := RankOf(perm, p);
      NotReturned(perm, ranks, out, r);
      OutsideIsFarther(v, q, ranks, lo, hi, r, j);
    }
  }

  lemma RankOf(perm: seq<nat>, p: nat) returns (r: nat)
    requires IsPermutation(perm) && p < |perm|
    ensures r < |perm| && perm[r] == p
  {
    assert p in perm;
    var i :| 0 <= i < |perm| && perm[i] == p;
    r := i;
  }

  lemma NotReturned(perm: seq<nat>, ranks: seq<int>, out: seq<Slot>, r: int)
    requires 0 <= r < |perm| && |ranks| <= |out| && !Returned(out, perm[r])
    requires forall j :: 0 <= j < |ranks| ==> 0 <= ranks[j] < |perm| && out[j].id == perm[ranks[j]]
    ensures r !in ranks
  {
    forall i | 0 <= i < |ranks| ensures ranks[i] != r {
      assert out[i].id == perm[ranks[i]];
    }
  }

  lemma OutsideIsFarther(v: seq<real>, q: real, ranks: seq<int>, lo: int, hi: int, r: int, j: nat)
    requires Window(v, q, ranks, lo, hi) && Nondecreasing(v)
    requires 0 <= r < |v| && r !in ranks && j < |ranks|
    ensures Abs(v[ranks[j]] - q) <= Abs(v[r] - q)
  {
    assert r <= lo || hi <= r;
    if r <= lo {
      assert v[r] <= v[lo];
    } else {
      assert v[hi] <= v[r];
    }
  }

  // ---- what a search returns, whatever the permutation ----

  /** The bisection, between ranks i0 and i1. */
  function Bisected(v: seq<real>, q: real, i0: nat, i1: nat): (r: (int, int))
    requires i0 < i1 <= |v|
    requires v[i0] <= q && (i1 < |v| ==> q < v[i1])
    ensures i0 <= r.0 && r.1 == r.0 + 1 <= i1
    ensures v[r.0] <= q && (r.1 < |v| ==> q < v[r.1])
    decreases i1 - i0
  {
    if i0 + 1 == i1 then (i0, i1)
    else
      var imed := (i0 + i1) / 2;
      if v[imed] <= q then Bisected(v, q, imed, i1) else Bisected(v, q, i0, imed)
  }

  /** The ranks between which q lies; -1 and n stand for the two ends. */
  function Gap(v: seq<real>, q: real): (r: (int, int))
    ensures -1 <= r.0 && r.1 == r.0 + 1 <= |v|
    ensures (r.0 >= 0 ==> v[r.0] <= q) && (r.1 < |v| ==> q < v[r.1])
  {
    if v == [] || v[0] > q then (-1, 0)
    else if v[|v| - 1] <= q then (|v| - 1, |v|)
    else Bisected(v, q, 0, |v|)
  }

  /** The next k slots when ranks lo and hi come next: the nearer one, the right one on
      ties, then the side that is left, then padding. */
  function Continue(v: seq<real>, perm: seq<nat>, q: real, lo: int, hi: int, k: nat): (out: seq<Slot>)
    requires |perm| == |v| && -1 <= lo < |v| && 0 <= hi <= |v|
    ensures |out| == k
    decreases k
  {
    if k == 0 then []
    else if lo >= 0 && (hi == |v| || q - v[lo] < v[hi] - q) then
      [Slot(Finite(q - v[lo]), perm[lo])] + Continue(v, perm, q, lo - 1, hi, k - 1)
    else if hi < |v| then
      [Slot(Finite(v[hi] - q), perm[hi])] + Continue(v, perm, q, lo, hi + 1, k - 1)
    else
      [PADDING] + Continue(v, perm, q, lo, hi, k - 1)
  }

  function Answer(xb: seq<real>, perm: seq<nat>, q: real, k: nat): (out: seq<Slot>)
    requires Reads(xb, perm)
    ensures |out| == k
  {
    var v := Values(xb, perm);
    var gap := Gap(v, q);
    Continue(v, perm, q, gap.0, gap.1, k)
  }

  // ---- it is exact exactly when the permutation sorts the values ----

  /** What is filled so far, continued from ranks lo and hi, is the whole answer. */
  ghost predicate OnTrack(filled: seq<Slot>, v: seq<real>, perm: seq<nat>, q: real, lo: int, hi: int, k: nat,
                          all: seq<Slot>)
  {
    && |perm| == |v| && -1 <= lo < |v| && 0 <= hi <= |v| && |filled| <= k
    && filled + Continue(v, perm, q, lo, hi, k - |filled|) == all
  }

  /** The next slot is the one that Continue starts with. */
  lemma OneMore(filled: seq<Slot>, v: seq<real>, perm: seq<nat>, q: real, lo: int, hi: int, k: nat, all: seq<Slot>)
    requires OnTrack(filled, v, perm, q, lo, hi, k, all) && |filled| < k
    ensures lo >= 0 && (hi == |v| || q - v[lo] < v[hi] - q) ==>
              OnTrack(filled + [Slot(Finite(q - v[lo]), perm[lo])], v, perm, q, lo - 1, hi, k, all)
    ensures (lo < 0 && hi < |v|) || (lo >= 0 && hi < |v| && q - v[lo] >= v[hi] - q) ==>
              OnTrack(filled + [Slot(Finite(v[hi] - q), perm[hi])], v, perm, q, lo, hi + 1, k, all)
    ensures lo < 0 && hi == |v| ==> OnTrack(filled + [PADDING], v, perm, q, lo, hi, k, all)
  {
    var m := k - |filled| - 1;
    if lo >= 0 && (hi == |v| || q - v[lo] < v[hi] - q) {
      Regroup(filled, Slot(Finite(q - v[lo]), perm[lo]), Continue(v, perm, q, lo - 1, hi, m));
    } else if hi < |v| {
      Regroup(filled, Slot(Finite(v[hi] - q), perm[hi]), Continue(v, perm, q, lo, hi + 1, m));
    } else {
      Regroup(filled, PADDING, Continue(v, perm, q, lo, hi, m));
    }
  }

  lemma Regroup(out: seq<Slot>, slot: Slot, rest: seq<Slot>)
    ensures out + ([slot] + rest) == out + [slot] + rest
  {
  }

  /** The output so far shows a window of ranks, and is padded only after all of them. */
  ghost predicate Partway(v: seq<real>, perm: seq<nat>, q: real, ranks: seq<int>, lo: int, hi: int, out: seq<Slot>) {
    && |perm| == |v| && Window(v, q, ranks, lo, hi) && Shown(out, v, perm, q, ranks)
    && (|out| > |ranks| ==> lo == -1 && hi == |v|)
  }

  lemma LeftStep(v: seq<real>, perm: seq<nat>, q: real, ranks: seq<int>, lo: int, hi: int, out: seq<Slot>)
    requires Nondecreasing(v) && Partway(v, perm, q, ranks, lo, hi, out) && lo >= 0
    requires hi < |v| ==> q - v[lo] <= v[hi] - q
    ensures Partway(v, perm, q, ranks + [lo], lo - 1, hi, out + [Slot(Finite(q - v[lo]), perm[lo])])
  {
    TakeLeft(v, q, ranks, lo, hi);
  }

  lemma RightStep(v: seq<real>, perm: seq<nat>, q: real, ranks: seq<int>, lo: int, hi: int, out: seq<Slot>)
    requires Nondecreasing(v) && Partway(v, perm, q, ranks, lo, hi, out) && hi < |v|
    requires lo >= 0 ==> v[hi] - q <= q - v[lo]
    ensures Partway(v, perm, q, ranks + [hi], lo, hi + 1, out + [Slot(Finite(v[hi] - q), perm[hi])])
  {
    TakeRight(v, q, ranks, lo, hi);
  }

  /** Over sorted values, continuing from a window ends with a window. */
  lemma {:induction false} Complete(v: seq<real>, perm: seq<nat>, q: real, ranks: seq<int>, lo: int, hi: int,
                                    out: seq<Slot>, all: seq<Slot>)
    returns (ranks': seq<int>, lo': int, hi': int)
    requires Nondecreasing(v) && Partway(v, perm, q, ranks, lo, hi, out)
    requires OnTrack(out, v, perm, q, lo, hi, |all|, all)
    ensures Partway(v, perm, q, ranks', lo', hi', all)
    decreases |all| - |out|
  {
    if |out| == |all| {
      assert out + [] == out;
      ranks', lo', hi' := ranks, lo, hi;
    } else {
      OneMore(out, v, perm, q, lo, hi, |all|, all);
      if lo >= 0 && (hi == |v| || q - v[lo] < v[hi] - q) {
        LeftStep(v, perm, q, ranks, lo, hi, out);
        ranks', lo', hi' :=
          Complete(v, perm, q, ranks + [lo], lo - 1, hi, out + [Slot(Finite(q - v[lo]), perm[lo])], all);
      } else if hi < |v| {
        RightStep(v, perm, q, ranks, lo, hi, out);
        ranks', lo', hi' :=
          Complete(v, perm, q, ranks + [hi], lo, hi + 1, out + [Slot(Finite(v[hi] - q), perm[hi])], all);
      } else {
        ranks', lo', hi' := Complete(v, perm, q, ranks, lo, hi, out + [PADDING], all);
      }
    }
  }

  lemma SortedIsExact(xb: seq<real>, perm: seq<nat>, q: real, k: nat)
    requires IsArgSort(xb, perm)
    ensures IsKnn(xb, q, k, Answer(xb, perm, q, k))
  {
    var v, all := Values(xb, perm), Answer(xb, perm, q, k);
    var gap := Gap(v, q);
    assert [] + all == all;
    var ranks, lo, hi := Complete(v, perm, q, [], gap.0, gap.1, [], all);
    WindowIsKnn(xb, perm, v, q, ranks, lo, hi, all);
  }

  /** With nothing on the left the values come out in the order of the permutation. */
  lemma {:induction false} RightRun(v: seq<real>, perm: seq<nat>, q: real, hi: nat, k: nat, j: nat)
    requires |perm| == |v| && hi + k <= |v| && j < k
    ensures Continue(v, perm, q, -1, hi, k)[j] == Slot(Finite(v[hi + j] - q), perm[hi + j])
    decreases k
  {
    if j > 0 {
      RightRun(v, perm, q, hi + 1, k - 1, j - 1);
    }
  }

  lemma {:induction false} LowerBound(v: seq<real>) returns (q: real)
    ensures forall i :: 0 <= i < |v| ==> q < v[i]
  {
    if v == [] {
      q := 0.0;
    } else {
      var n := |v| - 1;
      var low := LowerBound(v[..n]);
      q := if low < v[n] then low else v[n] - 1.0;
      forall i | 0 <= i < |v| ensures q < v[i] {
        assert i < n ==> v[..n][i] == v[i];
      }
    }
  }

  /** A query below all values, asking for all of them, brings the order to light. */
  lemma UnsortedIsWrong(xb: seq<real>, perm: seq<nat>) returns (q: real)
    requires |perm| == |xb| && IsPermutation(perm) && !IsArgSort(xb, perm)
    ensures |xb| > 0 && !IsKnn(xb, q, |xb|, Answer(xb, perm, q, |xb|))
  {
    var v, n := Values(xb, perm), |xb|;
    q := LowerBound(v);
    var out := Answer(xb, perm, q, n);
    var i, j :| 0 <= i < j < n && xb[perm[i]] > xb[perm[j]];
    assert Gap(v, q) == (-1, 0);
    RightRun(v, perm, q, 0, n, i);
    RightRun(v, perm, q, 0, n, j);
    assert out[i].dis.value > out[j].dis.value;
  }

  /** Every accepted search is exact if and only if the permutation sorts the values. */
  lemma ExactIffSorted(xb: seq<real>, perm: seq<nat>)
    requires |perm| == |xb| && IsPermutation(perm)
    ensures IsArgSort(xb, perm) <==>
            forall q: real, k: nat {:trigger Answer(xb, perm, q, k)} :: IsKnn(xb, q, k, Answer(xb, perm, q, k))
  {
    if IsArgSort(xb, perm) {
      forall q: real, k: nat ensures IsKnn(xb, q, k, Answer(xb, perm, q, k)) {
        SortedIsExact(xb, perm, q, k);
      }
    } else {
      var q := UnsortedIsWrong(xb, perm);
      assert !IsKnn(xb, q, |xb|, Answer(xb, perm, q, |xb|));
    }
  }

  // ---- the index ----

  /** The index: the stored values and a permutation, up to date or not. */
  class IndexFlat1D {
    var xb: seq<real>
    var perm: seq<nat>
    const continuousUpdate: bool

    /** Every operation, inherited ones included, keeps this. */
    ghost predicate Valid()
      reads this
    {
      IsPermutation(perm)
    }

    constructor (continuousUpdate: bool)
      ensures Valid() && xb == [] && perm == [] && this.continuousUpdate == continuousUpdate
    {
      this.continuousUpdate := continuousUpdate;
      xb, perm := [], [];
    }

    method UpdatePermutation()
      modifies this
      ensures Valid() && xb == old(xb) && IsArgSort(xb, perm)
    {
      perm := ArgSort(xb, |xb|);
      ArgSortCorrect(xb, |xb|);
    }

    method Add(x: seq<real>)
      requires Valid()
      modifies this
      ensures Valid() && xb == old(xb) + x
      ensures if continuousUpdate then IsArgSort(xb, perm) else perm == old(perm)
    {
      xb := xb + x;
      if continuousUpdate {
        UpdatePermutation();
      }
    }

    method Reset()
      modifies this
      ensures Valid() && xb == [] && perm == []
    {
      xb, perm := [], [];
    }

    /** Inherited: codes are appended without an update, also with continuousUpdate. */
    method AddSaCodes(x: seq<real>)
      requires Valid()
      modifies this
      ensures Valid() && xb == old(xb) + x && perm == old(perm)
    {
      xb := xb + x;
    }

    /** Inherited: the other index is reset, this one is not updated. */
    method MergeFrom(other: IndexFlat1D, addId: int) returns (thrown: bool)
      requires Valid() && other.Valid()
      modifies this, other
      ensures Valid() && other.Valid() && (thrown <==> addId != 0)
      ensures thrown ==> xb == old(xb) && perm == old(perm) && other.xb == old(other.xb) && other.perm == old(other.perm)
      ensures !thrown ==> other.xb == [] && other.perm == []
      ensures !thrown && other != this ==> xb == old(xb) + old(other.xb) && perm == old(perm)
    {
      if addId != 0 {
        return true;
      }
      xb := xb + other.xb;
      other.Reset();
      return false;
    }

    /** Inherited: an index whose permutation is up to date keeps it so exactly when
        nothing is removed. */
    method RemoveIds(gone: int -> bool)
      requires Valid()
      modifies this
      ensures Valid() && xb == FlatCodes.Kept(old(xb), gone) && perm == old(perm)
      ensures old(IsArgSort(xb, perm)) ==> (IsArgSort(xb, perm) <==> xb == old(xb))
    {
      ghost var before := xb;
      xb := FlatCodes.Kept(xb, gone);
      if |xb| == |before| {
        FlatCodes.KeptAll(before, gone);
      }
    }

    /** Inherited: the values move, the permutation does not. */
    method PermuteEntries(order: seq<nat>)
      requires Valid() && |order| == |xb| && forall i :: 0 <= i < |order| ==> order[i] < |xb|
      modifies this
      ensures Valid() && perm == old(perm) && |xb| == old(|xb|)
      ensures forall i :: 0 <= i < |order| ==> xb[i] == old(xb)[order[i]]
    {
      var before := xb;
      xb := seq(|order|, i requires 0 <= i < |order| => before[order[i]]);
    }

    /** The k nearest neighbours of q; refused exactly when k is 0 or the lengths of
        values and permutation differ.  An accepted search returns the answer of its
        permutation, which is exact if the permutation sorts the values. */
    method Search(q: real, k: nat, D: array<Distance>, I: array<int>) returns (ok: bool)
      requires Valid() && D.Length == k && I.Length == k
      modifies D, I
      ensures ok <==> k > 0 && |perm| == |xb|
      ensures ok ==> Filled(D, I, k) == Answer(xb, perm, q, k)
      ensures ok && IsArgSort(xb, perm) ==> IsKnn(xb, q, k, Filled(D, I, k))
      ensures !ok ==> D[..] == old(D[..]) && I[..] == old(I[..])
    {
      if !(k > 0 && |perm| == |xb|) {
        return false;
      }
      FindNearest(xb, perm, q, k, D, I);
      ExactIffSorted(xb, perm);
      return true;
    }
  }

  // ---- the search loops ----

  function Slots(dis: seq<Distance>, labels: seq<int>): (out: seq<Slot>)
    requires |dis| == |labels|
    ensures |out| == |dis|
  {
    seq(|dis|, j requires 0 <= j < |dis| => Slot(dis[j], labels[j]))
  }

  function Filled(D: array<Distance>, I: array<int>, wp: nat): (out: seq<Slot>)
    requires wp <= D.Length && wp <= I.Length
    reads D, I
  {
    Slots(D[..wp], I[..wp])
  }

  /** Write one output slot. */
  method Emit(D: array<Distance>, I: array<int>, wp: nat, d: Distance, id: int)
    requires wp < D.Length && wp < I.Length
    modifies D, I
    ensures Filled(D, I, wp + 1) == old(Filled(D, I, wp)) + [Slot(d, id)]
  {
    D[wp], I[wp] := d, id;
  }

  /** Bisection, expansion to both sides, then to the side that has points left. */
  method FindNearest(xb: seq<real>, perm: seq<nat>, q: real, k: nat, D: array<Distance>, I: array<int>)
    requires Reads(xb, perm) && k > 0 && D.Length == k && I.Length == k
    modifies D, I
    ensures Filled(D, I, k) == Answer(xb, perm, q, k)
  {
    ghost var v, all := Values(xb, perm), Answer(xb, perm, q, k);
    var i0, i1 := Locate(xb, perm, q);
    assert Filled(D, I, 0) == [] && [] + all == all;
    var wp;
    i0, i1, wp := Expand(xb, perm, q, k, D, I, i0, i1, all);
    if i0 < 0 {
      FinishRight(xb, perm, q, k, D, I, wp, i1, all);
    } else if i1 >= |xb| {
      FinishLeft(xb, perm, q, k, D, I, wp, i0, all);
    }
    assert Filled(D, I, k) + [] == Filled(D, I, k);
  }

  /** The ranks between which q lies, in any permutation. */
  method Locate(xb: seq<real>, perm: seq<nat>, q: real) returns (i0: int, i1: int)
    requires Reads(xb, perm)
    ensures (i0, i1) == Gap(Values(xb, perm), q)
  {
    i0, i1 := 0, |xb|;
    if |xb| == 0 {
      return -1, 0;
    }
    if xb[perm[i0]] > q {
      return -1, 0;
    }
    if xb[perm[i1 - 1]] <= q {
      return |xb| - 1, |xb|;
    }
    ghost var v := Values(xb, perm);
    while i0 + 1 < i1
      invariant 0 <= i0 < i1 <= |xb|
      invariant v[i0] <= q && (i1 < |xb| ==> q < v[i1])
      invariant Bisected(v, q, i0, i1) == Gap(v, q)
      decreases i1 - i0
    {
      var imed := (i0 + i1) / 2;
      if xb[perm[imed]] <= q {
        i0 := imed;
      } else {
        i1 := imed;
      }
    }
  }

  /** Take the nearer neighbour, the right one on ties, while both sides have points. */
  method Expand(xb: seq<real>, perm: seq<nat>, q: real, k: nat, D: array<Distance>, I: array<int>, lo0: int, hi0: int,
                ghost all: seq<Slot>)
    returns (lo: int, hi: int, wp: nat)
    requires Reads(xb, perm) && D.Length == k && I.Length == k
    requires OnTrack(Filled(D, I, 0), Values(xb, perm), perm, q, lo0, hi0, k, all)
    modifies D, I
    ensures wp <= k && OnTrack(Filled(D, I, wp), Values(xb, perm), perm, q, lo, hi, k, all)
    ensures wp == k || lo == -1 || hi == |xb|
  {
    lo, hi, wp := lo0, hi0, 0;
    while wp < k && lo >= 0 && hi < |xb|
      invariant wp <= k && OnTrack(Filled(D, I, wp), Values(xb, perm), perm, q, lo, hi, k, all)
      decreases k - wp
    {
      lo, hi := EmitNearer(xb, perm, q, k, D, I, wp, lo, hi, all);
      wp := wp + 1;
    }
  }

  method EmitNearer(xb: seq<real>, perm: seq<nat>, q: real, k: nat, D: array<Distance>, I: array<int>, wp: nat,
                    lo0: int, hi0: int, ghost all: seq<Slot>)
    returns (lo: int, hi: int)
    requires Reads(xb, perm) && D.Length == I.Length == k > wp && lo0 >= 0 && hi0 < |xb|
    requires OnTrack(Filled(D, I, wp), Values(xb, perm), perm, q, lo0, hi0, k, all)
    modifies D, I
    ensures OnTrack(Filled(D, I, wp + 1), Values(xb, perm), perm, q, lo, hi, k, all)
  {
    lo, hi := lo0, hi0;
    var xleft, xright := xb[perm[lo]], xb[perm[hi]];
    OneMore(Filled(D, I, wp), Values(xb, perm), perm, q, lo, hi, k, all);
    if q - xleft < xright - q {
      Emit(D, I, wp, Finite(q - xleft), perm[lo]);
      lo := lo - 1;
    } else {
      Emit(D, I, wp, Finite(xright - q), perm[hi]);
      hi := hi + 1;
    }
  }

  /** Nothing is left below: grow to the right, then pad. */
  method FinishRight(xb: seq<real>, perm: seq<nat>, q: real, k: nat, D: array<Distance>, I: array<int>,
                     wp0: nat, hi0: int, ghost all: seq<Slot>)
    requires Reads(xb, perm) && D.Length == I.Length == k >= wp0
    requires OnTrack(Filled(D, I, wp0), Values(xb, perm), perm, q, -1, hi0, k, all)
    modifies D, I
    ensures Filled(D, I, k) == all
  {
    var hi, wp := hi0, wp0;
    while wp < k
      invariant wp <= k && OnTrack(Filled(D, I, wp), Values(xb, perm), perm, q, -1, hi, k, all)
    {
      OneMore(Filled(D, I, wp), Values(xb, perm), perm, q, -1, hi, k, all);
      if hi < |xb| {
        Emit(D, I, wp, Finite(xb[perm[hi]] - q), perm[hi]);
        hi := hi + 1;
      } else {
        Emit(D, I, wp, Infinite, -1);
      }
      wp := wp + 1;
    }
  }

  /** Nothing is left above: grow to the left, then pad. */
  method FinishLeft(xb: seq<real>, perm: seq<nat>, q: real, k: nat, D: array<Distance>, I: array<int>,
                    wp0: nat, lo0: int, ghost all: seq<Slot>)
    requires Reads(xb, perm) && D.Length == I.Length == k >= wp0
    requires OnTrack(Filled(D, I, wp0), Values(xb, perm), perm, q, lo0, |xb|, k, all)
    modifies D, I
    ensures Filled(D, I, k) == all
  {
    var lo, wp := lo0, wp0;
    while wp < k
      invariant wp <= k && OnTrack(Filled(D, I, wp), Values(xb, perm), perm, q, lo, |xb|, k, all)
    {
      OneMore(Filled(D, I, wp), Values(xb, perm), perm, q, lo, |xb|, k, all);
      if lo >= 0 {
        Emit(D, I, wp, Finite(q - xb[perm[lo]]), perm[lo]);
        lo := lo - 1;
      } else {
        Emit(D, I, wp, Infinite, -1);
      }
      wp := wp + 1;
    }
  }

  // ---- two ways to an accepted search with a wrong answer ----

  /** Remove the first of two values, add another below the one that stays, search
      below both: the length check passes, and the farther value is returned. */
  method WrongAfterRemoval() returns (index: IndexFlat1D, ok: bool, D: array<Distance>, I: array<int>)
    ensures index.xb == [2.0, 1.0] && index.perm == [0, 1] && D.Length == I.Length == 1
    ensures ok && I[0] == 0 && !IsKnn(index.xb, 0.0, 1, Filled(D, I, 1))
  {
    index := new IndexFlat1D(false);
    index.Add([1.0, 2.0]);
    index.UpdatePermutation();
    TwoSorted(index.xb, index.perm);
    index.RemoveIds(i => i == 0);
    KeptSecond(1.0, 2.0);
    index.Add([1.0]);
    ok, D, I := SearchOne(index, 0.0);
  }

  /** Exchange two values: nothing is removed, and the same happens. */
  method WrongAfterPermuting() returns (index: IndexFlat1D, ok: bool, D: array<Distance>, I: array<int>)
    ensures index.xb == [2.0, 1.0] && index.perm == [0, 1] && D.Length == I.Length == 1
    ensures ok && I[0] == 0 && !IsKnn(index.xb, 0.0, 1, Filled(D, I, 1))
  {
    index := new IndexFlat1D(false);
    index.Add([1.0, 2.0]);
    index.UpdatePermutation();
    TwoSorted(index.xb, index.perm);
    index.PermuteEntries([1, 0]);
    assert index.xb == [2.0, 1.0];
    ok, D, I := SearchOne(index, 0.0);
  }

  method SearchOne(index: IndexFlat1D, q: real) returns (ok: bool, D: array<Distance>, I: array<int>)
    requires index.Valid() && index.xb == [2.0, 1.0] && index.perm == [0, 1] && q == 0.0
    ensures D.Length == I.Length == 1 && ok && I[0] == 0 && !IsKnn(index.xb, q, 1, Filled(D, I, 1))
  {
    D, I := new Distance[1], new int[1];
    ok := index.Search(q, 1, D, I);
    var v := Values(index.xb, index.perm);
    assert Continue(v, index.perm, q, -1, 0, 1)[0] == Slot(Finite(2.0), 0);
    var out := Filled(D, I, 1);
    assert out[0] == Slot(Finite(2.0), 0);
    assert !Returned(out, 1) && Dist(index.xb, q, 1) == 1.0;
  }

  lemma TwoSorted(xb: seq<real>, perm: seq<nat>)
    requires xb == [1.0, 2.0] && IsArgSort(xb, perm)
    ensures perm == [0, 1]
  {
    assert xb[perm[0]] <= xb[perm[1]] && perm[0] != perm[1];
  }

  lemma KeptSecond(a: real, b: real)
    ensures FlatCodes.Kept([a, b], i => i == 0) == [b]
  {
    var gone := i => i == 0;
    FlatCodes.KeptNext([a, b], gone, 1);
    FlatCodes.KeptNext([a, b], gone, 0);
    assert [a, b][..2] == [a, b] && [a, b][..1] == [a];
  }
}
