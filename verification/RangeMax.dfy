/** Range search with an adaptive radius. */
module RangeMax {
  import Permutations
  import TopK
  import opened Vectors
  import opened Wrappers

  // The queries come in batches; whenever the results outgrow a limit, the radius is
  // tightened and applied to everything found so far.

  type Hit = TopK.Hit

  /** A query, seen as all database points with their distance to it (or, when
      `keepMax`, their similarity), in the order in which the index reports them. */
  type Query = seq<Hit>

  /** Range search is strict. */
  predicate Within(d: real, radius: real, keepMax: bool) {
    if keepMax then d > radius else d < radius
  }

  predicate NoLooser(radius: real, than: real, keepMax: bool) {
    if keepMax then radius >= than else radius <= than
  }

  function Kept(hits: seq<Hit>, radius: real, keepMax: bool): (kept: seq<Hit>)
    ensures |kept| <= |hits|
  {
    if hits == [] then []
    else
      var n := |hits| - 1;
      Kept(hits[..n], radius, keepMax) + if Within(hits[n].dis, radius, keepMax) then [hits[n]] else []
  }

  function KeptParts(parts: seq<seq<Hit>>, radius: real, keepMax: bool): (r: seq<seq<Hit>>)
    ensures |r| == |parts|
  {
    seq(|parts|, i requires 0 <= i < |parts| => Kept(parts[i], radius, keepMax))
  }

  function Counts(parts: seq<seq<Hit>>): (r: seq<nat>)
    ensures |r| == |parts|
  {
    seq(|parts|, i requires 0 <= i < |parts| => |parts[i]|)
  }

  function Cumsum(counts: seq<nat>): (lims: seq<nat>)
    ensures |lims| == |counts| + 1 && lims[0] == 0
  {
    if counts == [] then [0]
    else
      var n := |counts| - 1;
      var lims := Cumsum(counts[..n]);
      lims + [lims[n] + counts[n]]
  }

  // ---- filtering ----

  /** Exactly the hits strictly within the radius are kept, each as often as it was there. */
  lemma {:induction false} KeptMeaning(hits: seq<Hit>, radius: real, keepMax: bool, h: Hit)
    ensures multiset(Kept(hits, radius, keepMax))[h]
            == if (if keepMax then h.dis > radius else h.dis < radius) then multiset(hits)[h] else 0
  {
    if hits != [] {
      var n := |hits| - 1;
      KeptMeaning(hits[..n], radius, keepMax, h);
      assert hits == hits[..n] + [hits[n]];
    }
  }

  lemma {:induction false} KeptConcat(a: seq<Hit>, b: seq<Hit>, radius: real, keepMax: bool)
    ensures Kept(a + b, radius, keepMax) == Kept(a, radius, keepMax) + Kept(b, radius, keepMax)
  {
    if b == [] {
      assert a + b == a;
    } else {
      var n := |b| - 1;
      KeptConcat(a, b[..n], radius, keepMax);
      assert (a + b)[..|a + b| - 1] == a + b[..n];
      assert (a + b)[|a + b| - 1] == b[n];
    }
  }

  /** Filtering twice with ever tighter radii is filtering with the tighter one. */
  lemma {:induction false} KeptTwice(hits: seq<Hit>, radius: real, tighter: real, keepMax: bool)
    requires NoLooser(tighter, radius, keepMax)
    ensures Kept(Kept(hits, radius, keepMax), tighter, keepMax) == Kept(hits, tighter, keepMax)
  {
    if hits != [] {
      var n := |hits| - 1;
      KeptTwice(hits[..n], radius, tighter, keepMax);
      if Within(hits[n].dis, radius, keepMax) {
        KeptConcat(Kept(hits[..n], radius, keepMax), [hits[n]], tighter, keepMax);
      } else {
        assert Kept(hits, radius, keepMax) == Kept(hits[..n], radius, keepMax);
      }
    }
  }

  lemma {:induction false} KeptAreWithin(hits: seq<Hit>, radius: real, keepMax: bool)
    ensures forall i :: 0 <= i < |Kept(hits, radius, keepMax)| ==> Within(Kept(hits, radius, keepMax)[i].dis, radius, keepMax)
  {
    if hits != [] {
      KeptAreWithin(hits[..|hits| - 1], radius, keepMax);
    }
  }

  lemma {:induction false} KeptFlatten(parts: seq<seq<Hit>>, radius: real, keepMax: bool)
    ensures Kept(Join(parts), radius, keepMax) == Join(KeptParts(parts, radius, keepMax))
  {
    if parts != [] {
      var n := |parts| - 1;
      KeptFlatten(parts[..n], radius, keepMax);
      KeptConcat(Join(parts[..n]), parts[n], radius, keepMax);
      assert KeptParts(parts, radius, keepMax)[..n] == KeptParts(parts[..n], radius, keepMax);
    }
  }

  /** The limits cut the flat results into the results of the single queries. */
  lemma {:induction false} LimitsCut(parts: seq<seq<Hit>>, q: nat)
    requires q < |parts|
    ensures var lims := Cumsum(Counts(parts));
            && lims[q] <= lims[q + 1] <= lims[|parts|] == |Join(parts)|
            && Join(parts)[lims[q]..lims[q + 1]] == parts[q]
    decreases |parts|
  {
    var n := |parts| - 1;
    CountsFront(parts, n);
    LimitsEnd(parts[..n]);
    if q < n {
      LimitsCut(parts[..n], q);
      CutOfFront(Join(parts[..n]), parts[n], Cumsum(Counts(parts))[q], Cumsum(Counts(parts))[q + 1]);
    } else {
      CutOfLast(Join(parts[..n]), parts[n]);
    }
  }

  lemma CountsFront(parts: seq<seq<Hit>>, n: nat)
    requires |parts| == n + 1
    ensures Counts(parts)[..n] == Counts(parts[..n])
    ensures Cumsum(Counts(parts)) == Cumsum(Counts(parts[..n])) + [Cumsum(Counts(parts[..n]))[n] + |parts[n]|]
  {
    assert Counts(parts)[..n] == Counts(parts[..n]);
  }

  lemma CutOfFront(a: seq<Hit>, b: seq<Hit>, lo: nat, hi: nat)
    requires lo <= hi <= |a|
    ensures (a + b)[lo..hi] == a[lo..hi]
  {
  }

  lemma CutOfLast(a: seq<Hit>, b: seq<Hit>)
    ensures (a + b)[|a|..|a| + |b|] == b
  {
  }

  lemma {:induction false} LimitsEnd(parts: seq<seq<Hit>>)
    ensures Cumsum(Counts(parts))[|parts|] == |Join(parts)|
  {
    if parts != [] {
      var n := |parts| - 1;
      assert Counts(parts)[..n] == Counts(parts[..n]);
      LimitsEnd(parts[..n]);
    }
  }

  // ---- the radius ----

  /** How many values a radius admits. */
  function Admitted(d: seq<real>, radius: real, keepMax: bool): (n: nat)
    ensures n <= |d|
  {
    if d == [] then 0
    else Admitted(d[..|d| - 1], radius, keepMax) + if Within(d[|d| - 1], radius, keepMax) then 1 else 0
  }

  lemma {:induction false} AdmittedKept(hits: seq<Hit>, radius: real, keepMax: bool)
    ensures |Kept(hits, radius, keepMax)| == Admitted(TopK.Distances(hits), radius, keepMax)
  {
    if hits != [] {
      var n := |hits| - 1;
      AdmittedKept(hits[..n], radius, keepMax);
      assert TopK.Distances(hits)[..n] == TopK.Distances(hits[..n]);
    }
  }

  lemma {:induction false} AdmittedConcat(a: seq<real>, b: seq<real>, radius: real, keepMax: bool)
    ensures Admitted(a + b, radius, keepMax) == Admitted(a, radius, keepMax) + Admitted(b, radius, keepMax)
  {
    if b == [] {
      assert a + b == a;
    } else {
      var n := |b| - 1;
      AdmittedConcat(a, b[..n], radius, keepMax);
      assert (a + b)[..|a + b| - 1] == a + b[..n];
      assert (a + b)[|a + b| - 1] == b[n];
    }
  }

  lemma AdmittedPermutation(a: seq<real>, b: seq<real>, radius: real, keepMax: bool)
    requires multiset(a) == multiset(b)
    ensures Admitted(a, radius, keepMax) == Admitted(b, radius, keepMax)
  {
    var count := (u: seq<real>) => Admitted(u, radius, keepMax);
    forall u, v ensures count(u + v) == count(u) + count(v) {
      AdmittedConcat(u, v, radius, keepMax);
    }
    Permutations.AdditivePermutation(count, a, b);
  }

  lemma {:induction false} AdmittedUniform(d: seq<real>, radius: real, keepMax: bool, all: bool)
    requires forall i :: 0 <= i < |d| ==> Within(d[i], radius, keepMax) == all
    ensures Admitted(d, radius, keepMax) == if all then |d| else 0
  {
    if d != [] {
      AdmittedUniform(d[..|d| - 1], radius, keepMax, all);
    }
  }

  /** The value that a partial sort puts at the target place, counted from the best. */
  function OrderStatistic(d: seq<real>, target: nat, keepMax: bool): real
    requires target < |d|
  {
    TopK.SortSorted(d);
    var sorted := TopK.Sort(d);
    if keepMax then sorted[|d| - 1 - target] else sorted[target]
  }

  /** It is one of the values, admits at most `target` of them, and any looser radius
      admits more. */
  lemma TightestRadius(d: seq<real>, target: nat, keepMax: bool, looser: real)
    requires target < |d|
    ensures OrderStatistic(d, target, keepMax) in d
    ensures Admitted(d, OrderStatistic(d, target, keepMax), keepMax) <= target
    ensures Within(OrderStatistic(d, target, keepMax), looser, keepMax) ==> Admitted(d, looser, keepMax) > target
  {
    TopK.SortSorted(d);
    var sorted := TopK.Sort(d);
    var radius := OrderStatistic(d, target, keepMax);
    Permutations.Member(sorted, d, radius);
    AdmittedPermutation(d, sorted, radius, keepMax);
    AdmittedPermutation(d, sorted, looser, keepMax);
    if keepMax {
      AboveSorted(sorted, |d| - 1 - target, radius, looser);
    } else {
      BelowSorted(sorted, target, radius, looser);
    }
  }

  lemma BelowSorted(sorted: seq<real>, target: nat, radius: real, looser: real)
    requires TopK.Sorted(sorted) && target < |sorted| && radius == sorted[target]
    ensures Admitted(sorted, radius, false) <= target
    ensures radius < looser ==> Admitted(sorted, looser, false) > target
  {
    SplitAdmitted(sorted, target, radius, false);
    AdmittedUniform(sorted[target..], radius, false, false);
    if radius < looser {
      SplitAdmitted(sorted, target + 1, looser, false);
      AdmittedUniform(sorted[..target + 1], looser, false, true);
    }
  }

  lemma AboveSorted(sorted: seq<real>, cut: nat, radius: real, looser: real)
    requires TopK.Sorted(sorted) && cut < |sorted| && radius == sorted[cut]
    ensures Admitted(sorted, radius, true) <= |sorted| - 1 - cut
    ensures radius > looser ==> Admitted(sorted, looser, true) > |sorted| - 1 - cut
  {
    SplitAdmitted(sorted, cut + 1, radius, true);
    AdmittedUniform(sorted[..cut + 1], radius, true, false);
    if radius > looser {
      SplitAdmitted(sorted, cut, looser, true);
      AdmittedUniform(sorted[cut..], looser, true, true);
    }
  }

  lemma SplitAdmitted(d: seq<real>, cut: nat, radius: real, keepMax: bool)
    requires cut <= |d|
    ensures Admitted(d, radius, keepMax)
            == Admitted(d[..cut], radius, keepMax) + Admitted(d[cut..], radius, keepMax)
  {
    assert d == d[..cut] + d[cut..];
    AdmittedConcat(d[..cut], d[cut..], radius, keepMax);
  }

  // ---- the batches ----

  datatype Batch = Batch(nres: seq<nat>, hits: seq<Hit>)

  /** The result of range search over a batch of queries. */
  function Searched(queries: seq<Query>, radius: real, keepMax: bool): Batch {
    Batch(Counts(KeptParts(queries, radius, keepMax)), Join(KeptParts(queries, radius, keepMax)))
  }

  /** Everything found so far is the range search of its queries at one radius. */
  ghost predicate AllSearched(res: seq<Batch>, batches: seq<seq<Query>>, radius: real, keepMax: bool) {
    |res| == |batches| && forall b :: 0 <= b < |res| ==> res[b] == Searched(batches[b], radius, keepMax)
  }

  lemma LimitsNext(parts: seq<seq<Hit>>, q: nat)
    requires q < |parts|
    ensures Cumsum(Counts(parts[..q + 1]))
            == Cumsum(Counts(parts[..q])) + [Cumsum(Counts(parts[..q]))[q] + |parts[q]|]
  {
    assert Counts(parts[..q + 1])[..q] == Counts(parts[..q]);
  }

  /** The index's own search: limits and hits. */
  method RangeSearch(queries: seq<Query>, radius: real, keepMax: bool) returns (lims: seq<nat>, hits: seq<Hit>)
    ensures lims == Cumsum(Counts(KeptParts(queries, radius, keepMax)))
    ensures hits == Join(KeptParts(queries, radius, keepMax))
  {
    lims, hits := [0], [];
    var parts := KeptParts(queries, radius, keepMax);
    for q := 0 to |queries|
      invariant |lims| == q + 1 && lims == Cumsum(Counts(parts[..q]))
      invariant hits == Join(parts[..q])
    {
      JoinNext(parts, q);
      LimitsNext(parts, q);
      lims, hits := lims + [lims[q] + |parts[q]|], hits + parts[q];
    }
    assert parts[..|queries|] == parts;
  }

  /** The differences of consecutive limits are the counts. */
  method Differences(lims: seq<nat>, ghost counts: seq<nat>) returns (nres: seq<nat>)
    requires lims == Cumsum(counts)
    ensures nres == counts
  {
    nres := [];
    for q := 0 to |lims| - 1
      invariant nres == counts[..q]
    {
      CumsumStep(counts, q);
      nres := nres + [lims[q + 1] - lims[q]];
    }
  }

  lemma {:induction false} CumsumStep(counts: seq<nat>, q: nat)
    requires q < |counts|
    ensures Cumsum(counts)[q + 1] == Cumsum(counts)[q] + counts[q]
  {
    if q < |counts| - 1 {
      CumsumStep(counts[..|counts| - 1], q);
    }
  }

  function Select(hits: seq<Hit>, mask: seq<bool>): (r: seq<Hit>)
    requires |mask| == |hits|
  {
    if hits == [] then []
    else
      var n := |hits| - 1;
      Select(hits[..n], mask[..n]) + if mask[n] then [hits[n]] else []
  }

  function Trues(mask: seq<bool>): nat {
    if mask == [] then 0 else Trues(mask[..|mask| - 1]) + if mask[|mask| - 1] then 1 else 0
  }

  function Mask(hits: seq<Hit>, radius: real, keepMax: bool): (mask: seq<bool>)
    ensures |mask| == |hits|
  {
    seq(|hits|, i requires 0 <= i < |hits| => Within(hits[i].dis, radius, keepMax))
  }

  lemma {:induction false} SelectKept(hits: seq<Hit>, radius: real, keepMax: bool)
    ensures Select(hits, Mask(hits, radius, keepMax)) == Kept(hits, radius, keepMax)
    ensures Trues(Mask(hits, radius, keepMax)) == |Kept(hits, radius, keepMax)|
  {
    if hits != [] {
      var n := |hits| - 1;
      SelectKept(hits[..n], radius, keepMax);
      assert Mask(hits, radius, keepMax)[..n] == Mask(hits[..n], radius, keepMax);
    }
  }

  lemma MaskSlice(hits: seq<Hit>, radius: real, keepMax: bool, lo: nat, hi: nat)
    requires lo <= hi <= |hits|
    ensures Mask(hits, radius, keepMax)[lo..hi] == Mask(hits[lo..hi], radius, keepMax)
  {
  }

  /** The mask over the place of query i counts what the radius leaves of it. */
  lemma MaskCounts(parts: seq<seq<Hit>>, radius: real, keepMax: bool, i: nat, o: nat)
    requires i < |parts| && o == Cumsum(Counts(parts))[i]
    ensures o + |parts[i]| == Cumsum(Counts(parts))[i + 1] <= |Join(parts)|
    ensures Trues(Mask(Join(parts), radius, keepMax)[o..o + |parts[i]|]) == |Kept(parts[i], radius, keepMax)|
  {
    CumsumStep(Counts(parts), i);
    LimitsCut(parts, i);
    MaskSlice(Join(parts), radius, keepMax, o, o + |parts[i]|);
    SelectKept(parts[i], radius, keepMax);
  }

  lemma CountOf(parts: seq<seq<Hit>>, radius: real, keepMax: bool, i: nat)
    requires i < |parts|
    ensures Counts(parts)[i] == |parts[i]|
    ensures Counts(KeptParts(parts, radius, keepMax))[i] == |Kept(parts[i], radius, keepMax)|
  {
  }

  lemma NextCount(parts: seq<seq<Hit>>, radius: real, keepMax: bool, i: nat, o: nat, nr: nat)
    requires i < |parts| && o == Cumsum(Counts(parts))[i] && nr == Counts(parts)[i]
    ensures o + nr == Cumsum(Counts(parts))[i + 1] <= |Join(parts)|
    ensures Trues(Mask(Join(parts), radius, keepMax)[o..o + nr]) == Counts(KeptParts(parts, radius, keepMax))[i]
  {
    CountOf(parts, radius, keepMax, i);
    MaskCounts(parts, radius, keepMax, i, o);
  }

  /** Restrict one batch to a tighter radius, query by query. */
  method ThresholdRadius(batch: Batch, radius: real, keepMax: bool, ghost parts: seq<seq<Hit>>) returns (r: Batch)
    requires batch.nres == Counts(parts) && batch.hits == Join(parts)
    ensures r.nres == Counts(KeptParts(parts, radius, keepMax))
    ensures r.hits == Join(KeptParts(parts, radius, keepMax))
  {
    var mask := Mask(batch.hits, radius, keepMax);
    var newNres := NewCounts(batch.nres, mask, radius, keepMax, parts);
    SelectKept(batch.hits, radius, keepMax);
    KeptFlatten(parts, radius, keepMax);
    r := Batch(newNres, Select(batch.hits, mask));
  }

  /** Walk over the places of the queries in the mask and count. */
  method NewCounts(nres: seq<nat>, mask: seq<bool>, radius: real, keepMax: bool, ghost parts: seq<seq<Hit>>)
    returns (newNres: seq<nat>)
    requires nres == Counts(parts) && mask == Mask(Join(parts), radius, keepMax)
    ensures newNres == Counts(KeptParts(parts, radius, keepMax))
  {
    newNres := [];
    var o := 0;
    ghost var lims, counts := Cumsum(nres), Counts(KeptParts(parts, radius, keepMax));
    for i := 0 to |nres|
      invariant o == lims[i]
      invariant newNres == counts[..i]
    {
      var nr := nres[i];
      NextCount(parts, radius, keepMax, i, o, nr);
      newNres := newNres + [Trues(mask[o..o + nr])];
      o := o + nr;
    }
  }

  // ---- all batches together ----

  function HitsOf(res: seq<Batch>): seq<Hit> {
    if res == [] then [] else HitsOf(res[..|res| - 1]) + res[|res| - 1].hits
  }

  function NresOf(res: seq<Batch>): seq<nat> {
    if res == [] then [] else NresOf(res[..|res| - 1]) + res[|res| - 1].nres
  }

  function Queries(batches: seq<seq<Query>>): seq<Query> {
    if batches == [] then [] else Queries(batches[..|batches| - 1]) + batches[|batches| - 1]
  }

  /** All points of all queries. */
  function Universe(batches: seq<seq<Query>>): seq<Hit> {
    Join(Queries(batches))
  }

  lemma SearchedConcat(a: seq<Query>, b: seq<Query>, radius: real, keepMax: bool)
    ensures Join(KeptParts(a + b, radius, keepMax))
            == Searched(a, radius, keepMax).hits + Searched(b, radius, keepMax).hits
    ensures Counts(KeptParts(a + b, radius, keepMax))
            == Searched(a, radius, keepMax).nres + Searched(b, radius, keepMax).nres
  {
    KeptPartsConcat(a, b, radius, keepMax);
    JoinConcat(KeptParts(a, radius, keepMax), KeptParts(b, radius, keepMax));
  }

  lemma KeptPartsConcat(a: seq<Query>, b: seq<Query>, radius: real, keepMax: bool)
    ensures KeptParts(a + b, radius, keepMax) == KeptParts(a, radius, keepMax) + KeptParts(b, radius, keepMax)
  {
  }

  lemma {:induction false} BatchesAre(res: seq<Batch>, batches: seq<seq<Query>>, radius: real, keepMax: bool)
    requires AllSearched(res, batches, radius, keepMax)
    ensures HitsOf(res) == Join(KeptParts(Queries(batches), radius, keepMax))
    ensures NresOf(res) == Counts(KeptParts(Queries(batches), radius, keepMax))
  {
    if res != [] {
      var n := |res| - 1;
      BatchesAre(res[..n], batches[..n], radius, keepMax);
      assert res[n] == Searched(batches[n], radius, keepMax);
      SearchedConcat(Queries(batches[..n]), batches[n], radius, keepMax);
    }
  }

  lemma HitsAre(res: seq<Batch>, batches: seq<seq<Query>>, radius: real, keepMax: bool)
    requires AllSearched(res, batches, radius, keepMax)
    ensures HitsOf(res) == Kept(Universe(batches), radius, keepMax)
  {
    BatchesAre(res, batches, radius, keepMax);
    KeptFlatten(Queries(batches), radius, keepMax);
  }

  lemma KeptPartsTwice(parts: seq<seq<Hit>>, radius: real, tighter: real, keepMax: bool)
    requires NoLooser(tighter, radius, keepMax)
    ensures KeptParts(KeptParts(parts, radius, keepMax), tighter, keepMax) == KeptParts(parts, tighter, keepMax)
  {
    forall i | 0 <= i < |parts|
      ensures Kept(Kept(parts[i], radius, keepMax), tighter, keepMax) == Kept(parts[i], tighter, keepMax)
    {
      KeptTwice(parts[i], radius, tighter, keepMax);
    }
  }

  /** The order statistic of the current results, used as the next radius. */
  lemma NextRadius(all: seq<Hit>, radius: real, target: nat, keepMax: bool, next: real)
    requires target < |Kept(all, radius, keepMax)|
    requires next == OrderStatistic(TopK.Distances(Kept(all, radius, keepMax)), target, keepMax)
    ensures NoLooser(next, radius, keepMax) && |Kept(all, next, keepMax)| <= target
    ensures forall looser: real :: NoLooser(looser, radius, keepMax) && Within(next, looser, keepMax) ==>
              |Kept(all, looser, keepMax)| > target
  {
    var hits := Kept(all, radius, keepMax);
    KeptAreWithin(all, radius, keepMax);
    TightestRadius(TopK.Distances(hits), target, keepMax, next);
    AdmittedKept(hits, next, keepMax);
    KeptTwice(all, radius, next, keepMax);
    forall looser: real | NoLooser(looser, radius, keepMax) && Within(next, looser, keepMax)
      ensures |Kept(all, looser, keepMax)| > target
    {
      TightestRadius(TopK.Distances(hits), target, keepMax, looser);
      AdmittedKept(hits, looser, keepMax);
      KeptTwice(all, radius, looser, keepMax);
    }
  }

  /** Restrict every batch to a tighter radius, in place. */
  method ThresholdAll(res: seq<Batch>, radius: real, keepMax: bool, ghost batches: seq<seq<Query>>, ghost before: real)
    returns (r: seq<Batch>, totres: nat)
    requires AllSearched(res, batches, before, keepMax) && NoLooser(radius, before, keepMax)
    ensures AllSearched(r, batches, radius, keepMax) && totres == |HitsOf(r)|
  {
    r, totres := res, 0;
    for b := 0 to |res|
      invariant |r| == |res| == |batches|
      invariant forall c :: 0 <= c < b ==> r[c] == Searched(batches[c], radius, keepMax)
      invariant forall c :: b <= c < |r| ==> r[c] == Searched(batches[c], before, keepMax)
      invariant totres == |HitsOf(r[..b])|
    {
      var batch := ThresholdOne(r[b], radius, keepMax, batches[b], before);
      totres := totres + |batch.hits|;
      assert r[b := batch][..b + 1][..b] == r[..b];
      r := r[b := batch];
    }
    assert r[..|r|] == r;
  }

  method ThresholdOne(batch: Batch, radius: real, keepMax: bool, ghost queries: seq<Query>, ghost before: real)
    returns (r: Batch)
    requires batch == Searched(queries, before, keepMax) && NoLooser(radius, before, keepMax)
    ensures r == Searched(queries, radius, keepMax)
  {
    KeptPartsTwice(queries, before, radius, keepMax);
    r := ThresholdRadius(batch, radius, keepMax, KeptParts(queries, before, keepMax));
  }

  /** The loosest radius, up to the one before, that leaves at most `target` of the hits. */
  ghost predicate Loosest(all: seq<Hit>, before: real, after: real, target: nat, keepMax: bool) {
    && NoLooser(after, before, keepMax) && |Kept(all, after, keepMax)| <= target
    && forall looser: real :: NoLooser(looser, before, keepMax) && Within(after, looser, keepMax) ==>
         |Kept(all, looser, keepMax)| > target
  }

  /** What a batch does to the radius, `all` being the hits of the queries so far: nothing if those within it
      fit the upper limit; otherwise they exceed the lower one, and it is tightened to that. */
  ghost predicate Step(all: seq<Hit>, before: real, after: real, lo: nat, hi: nat, keepMax: bool) {
    if |Kept(all, before, keepMax)| <= hi then after == before
    else |Kept(all, before, keepMax)| > lo && Loosest(all, before, after, lo, keepMax)
  }

  datatype Applied = Applied(radius: real, totres: nat, res: seq<Batch>)

  /** Find the radius that leaves at most `target` results and apply it; an assertion
      fails when there are not more results than that. */
  method ApplyMaxres(res: seq<Batch>, target: nat, keepMax: bool, ghost batches: seq<seq<Query>>, ghost radius: real)
    returns (r: Option<Applied>)
    requires AllSearched(res, batches, radius, keepMax)
    ensures r.None? <==> |Kept(Universe(batches), radius, keepMax)| <= target
    ensures r.Some? ==>
              && AllSearched(r.value.res, batches, r.value.radius, keepMax)
              && Loosest(Universe(batches), radius, r.value.radius, target, keepMax)
              && r.value.totres == |Kept(Universe(batches), r.value.radius, keepMax)| <= target
  {
    HitsAre(res, batches, radius, keepMax);
    var all := HitsOf(res);
    if |all| <= target {
      return None;
    }
    var next := OrderStatistic(TopK.Distances(all), target, keepMax);
    NextRadius(Universe(batches), radius, target, keepMax, next);
    var res', totres := ThresholdAll(res, next, keepMax, batches, radius);
    HitsAre(res', batches, next, keepMax);
    return Some(Applied(next, totres, res'));
  }

  /** The batches are searched at one radius, which the last of them may have tightened, and their results
      fit the limits. */
  ghost predicate Processed(batches: seq<seq<Query>>, before: real, now: Applied, lo: nat, hi: nat, keepMax: bool) {
    match now
    case Applied(at, totres, res) =>
      && AllSearched(res, batches, at, keepMax) && totres == |HitsOf(res)|
      && NoLooser(at, before, keepMax) && (totres <= hi || hi < totres <= lo)
      && Step(Universe(batches), before, at, lo, hi, keepMax)
  }

  /** One batch of queries: afterwards the results fit the limit again. */
  method ProcessBatch(res: seq<Batch>, radius: real, totres: nat, queries: seq<Query>, lo: nat, hi: nat, keepMax: bool,
                      ghost batches: seq<seq<Query>>, ghost more: seq<seq<Query>>)
    returns (r: Option<Applied>)
    requires more == batches + [queries]
    requires AllSearched(res, batches, radius, keepMax) && totres == |HitsOf(res)|
    ensures r.None? <==> hi < |Kept(Universe(more), radius, keepMax)| <= lo
    ensures r.Some? ==> Processed(more, radius, r.value, lo, hi, keepMax)
    ensures r.Some? && |Kept(Universe(more), radius, keepMax)| > hi ==> r.value.totres <= lo
  {
    var lims, hits := RangeSearch(queries, radius, keepMax);
    var nres := Differences(lims, Counts(KeptParts(queries, radius, keepMax)));
    var res' := res + [Batch(nres, hits)];
    assert res'[..|res|] == res;
    var totres' := totres + |hits|;
    HitsAre(res', more, radius, keepMax);
    if totres' > hi {
      r := ApplyMaxres(res', lo, keepMax, more, radius);
      if r.Some? {
        HitsAre(r.value.res, more, r.value.radius, keepMax);
      }
    } else {
      r := Some(Applied(radius, totres', res'));
    }
  }

  /** The i-th value of a ladder of hits, from the best on. */
  function Rung(i: nat, keepMax: bool): real {
    if keepMax then -(i as real) else i as real
  }

  function Ladder(n: nat, keepMax: bool): seq<Hit> {
    seq(n, i requires 0 <= i < n => TopK.Hit(Rung(i, keepMax), i))
  }

  lemma {:induction false} LadderKept(n: nat, m: nat, keepMax: bool)
    requires m <= n
    ensures |Kept(Ladder(n, keepMax), Rung(m, keepMax), keepMax)| == m
  {
    if n > 0 {
      assert Ladder(n, keepMax)[..n - 1] == Ladder(n - 1, keepMax);
      if m < n {
        LadderKept(n - 1, m, keepMax);
      } else {
        LadderAll(n - 1, Rung(m, keepMax), keepMax);
      }
    }
  }

  lemma {:induction false} LadderAll(n: nat, radius: real, keepMax: bool)
    requires n > 0 ==> Within(Rung(n - 1, keepMax), radius, keepMax)
    ensures |Kept(Ladder(n, keepMax), radius, keepMax)| == n
  {
    if n > 0 {
      assert Ladder(n, keepMax)[..n - 1] == Ladder(n - 1, keepMax);
      LadderAll(n - 1, radius, keepMax);
    }
  }

  lemma TighterKeepsLess(all: seq<Hit>, tighter: real, radius: real, keepMax: bool)
    requires NoLooser(tighter, radius, keepMax)
    ensures |Kept(all, tighter, keepMax)| <= |Kept(all, radius, keepMax)|
  {
    KeptTwice(all, radius, tighter, keepMax);
  }

  /** The limit holds only because min_results does not exceed max_results: for all other
      limits and both metrics there is a query after whose batch it does not. */
  method LimitBroken(lo: nat, hi: nat, keepMax: bool) returns (all: seq<Hit>, r: Option<Applied>)
    requires lo > hi
    ensures |all| == lo + 1 && r.Some? && r.value.totres == lo > hi
  {
    all := Ladder(lo + 1, keepMax);
    LadderKept(lo + 1, lo + 1, keepMax);
    r := SearchOne(all, Rung(lo + 1, keepMax), lo, hi, keepMax);
    RungReached(all, lo, r.value.radius, keepMax);
  }

  /** The first batch, of a single query. */
  method SearchOne(all: seq<Hit>, radius: real, lo: nat, hi: nat, keepMax: bool) returns (r: Option<Applied>)
    requires |Kept(all, radius, keepMax)| > hi
    ensures r.None? <==> |Kept(all, radius, keepMax)| <= lo
    ensures r.Some? ==> r.value.totres == |Kept(all, r.value.radius, keepMax)| <= lo
    ensures r.Some? ==>
              forall looser: real :: NoLooser(looser, radius, keepMax) && Within(r.value.radius, looser, keepMax) ==>
                |Kept(all, looser, keepMax)| > lo
  {
    ghost var none: seq<seq<Query>> := [];
    OneQuery(none, all);
    r := ProcessBatch([], radius, 0, [all], lo, hi, keepMax, none, none + [[all]]);
    if r.Some? {
      HitsAre(r.value.res, none + [[all]], r.value.radius, keepMax);
    }
  }

  /** A radius that no looser one can replace has reached the rung of the target. */
  lemma RungReached(all: seq<Hit>, lo: nat, radius: real, keepMax: bool)
    requires all == Ladder(lo + 1, keepMax)
    requires forall looser: real :: NoLooser(looser, Rung(lo + 1, keepMax), keepMax) && Within(radius, looser, keepMax) ==>
               |Kept(all, looser, keepMax)| > lo
    ensures |Kept(all, radius, keepMax)| >= lo
  {
    LadderKept(lo + 1, lo, keepMax);
    assert !Within(radius, Rung(lo, keepMax), keepMax);
    TighterKeepsLess(all, Rung(lo, keepMax), radius, keepMax);
  }

  lemma OneQuery(none: seq<seq<Query>>, all: seq<Hit>)
    requires none == []
    ensures Universe(none + [[all]]) == all
  {
    assert [[all]][..0] == [] && none + [[all]] == [[all]];
    assert Queries([[all]]) == [] + [all] == [all];
    JoinOne(all);
  }

  /** The radius before the first batch and after each of the following ones. */
  ghost predicate Steps(batches: seq<seq<Query>>, radii: seq<real>, lo: nat, hi: nat, keepMax: bool) {
    && 0 < |radii| <= |batches| + 1
    && forall i {:trigger radii[i]} :: 0 < i < |radii| ==>
         Step(Universe(batches[..i]), radii[i - 1], radii[i], lo, hi, keepMax)
  }

  ghost predicate Reached(batches: seq<seq<Query>>, radii: seq<real>, radius: real, lo: nat, hi: nat, keepMax: bool,
                          n: nat, at: real)
  {
    |radii| == n + 1 && radii[0] == radius && radii[n] == at && Steps(batches, radii, lo, hi, keepMax)
  }

  lemma ReachedNext(batches: seq<seq<Query>>, radii: seq<real>, radius: real, lo: nat, hi: nat, keepMax: bool,
                    n: nat, next: nat, after: real)
    requires next == n + 1 <= |batches| && |radii| == next
    requires Reached(batches, radii, radius, lo, hi, keepMax, n, radii[n])
    requires Step(Universe(batches[..next]), radii[n], after, lo, hi, keepMax)
    ensures Reached(batches, radii + [after], radius, lo, hi, keepMax, next, after)
  {
  }

  /** The search fails without batches, or in a batch whose results exceed the upper limit only; it ends with
      the last radius, clipped to the lower limit if that is wanted. */
  ghost predicate Ending(batches: seq<seq<Query>>, radii: seq<real>, lo: nat, hi: nat, clipToMin: bool, keepMax: bool,
                         r: Outcome)
    requires Steps(batches, radii, lo, hi, keepMax)
  {
    var n, last := |radii|, radii[|radii| - 1];
    match r
    case Failure => batches == [] || (n <= |batches| && hi < |Kept(Universe(batches[..n]), last, keepMax)| <= lo)
    case Results(at, _, _) =>
      && n == |batches| + 1 > 1
      && if clipToMin && |Kept(Universe(batches), last, keepMax)| > lo then Loosest(Universe(batches), last, at, lo, keepMax)
         else at == last
  }

  lemma {:induction false} MoreBatches(batches: seq<seq<Query>>, n: nat, radius: real, keepMax: bool)
    requires n <= |batches|
    ensures |Kept(Universe(batches[..n]), radius, keepMax)| <= |Kept(Universe(batches), radius, keepMax)|
  {
    if n == |batches| {
      assert batches[..n] == batches;
    } else {
      var m := |batches| - 1;
      MoreBatches(batches[..m], n, radius, keepMax);
      assert batches[..m][..n] == batches[..n];
      JoinConcat(Queries(batches[..m]), batches[m]);
      KeptConcat(Universe(batches[..m]), Join(batches[m]), radius, keepMax);
    }
  }

  datatype Outcome = Failure | Results(radius: real, lims: seq<nat>, hits: seq<Hit>)

  /** The loop over the batches, with the radius after each of them. */
  method SearchAll(batches: seq<seq<Query>>, radius: real, lo: nat, hi: nat, keepMax: bool)
    returns (r: Option<Applied>, ghost radii: seq<real>)
    ensures Steps(batches, radii, lo, hi, keepMax) && radii[0] == radius
    ensures r.None? ==>
              && |radii| <= |batches|
              && hi < |Kept(Universe(batches[..|radii|]), radii[|radii| - 1], keepMax)| <= lo
    ensures r.Some? ==>
              && |radii| == |batches| + 1 && r.value.radius == radii[|batches|]
              && AllSearched(r.value.res, batches, r.value.radius, keepMax) && r.value.totres == |HitsOf(r.value.res)|
              && NoLooser(r.value.radius, radius, keepMax)
              && (r.value.totres <= hi || hi < r.value.totres <= lo)
              && (|Kept(Universe(batches), radius, keepMax)| <= hi ==> r.value.radius == radius)
  {
    radii := [radius];
    var now := Applied(radius, 0, []);
    for i := 0 to |batches|
      invariant Running(batches, radius, lo, hi, keepMax, i, now)
      invariant Reached(batches, radii, radius, lo, hi, keepMax, i, now.radius)
    {
      var applied := NextBatch(batches, radius, lo, hi, keepMax, i, i + 1, now);
      if applied.None? {
        return None, radii;
      }
      now := applied.value;
      ReachedNext(batches, radii, radius, lo, hi, keepMax, i, i + 1, now.radius);
      radii := radii + [now.radius];
    }
    AllBatches(batches, radius, lo, hi, keepMax, now);
    return Some(now), radii;
  }

  lemma AllBatches(batches: seq<seq<Query>>, radius: real, lo: nat, hi: nat, keepMax: bool, now: Applied)
    requires Running(batches, radius, lo, hi, keepMax, |batches|, now)
    ensures AllSearched(now.res, batches, now.radius, keepMax) && now.totres == |HitsOf(now.res)|
    ensures NoLooser(now.radius, radius, keepMax) && (now.totres <= hi || hi < now.totres <= lo)
    ensures |Kept(Universe(batches), radius, keepMax)| <= hi ==> now.radius == radius
  {
    assert batches[..|batches|] == batches;
  }

  /** What the loop knows after n batches. */
  ghost predicate Running(batches: seq<seq<Query>>, radius: real, lo: nat, hi: nat, keepMax: bool, n: nat, now: Applied) {
    match now
    case Applied(at, totres, res) =>
      && n <= |batches| && AllSearched(res, batches[..n], at, keepMax) && totres == |HitsOf(res)|
      && NoLooser(at, radius, keepMax) && (totres <= hi || hi < totres <= lo)
      && (at != radius ==> |Kept(Universe(batches[..n]), radius, keepMax)| > hi)
  }

  method NextBatch(batches: seq<seq<Query>>, ghost radius: real, lo: nat, hi: nat, keepMax: bool, i: nat, ghost next: nat,
                   now: Applied)
    returns (r: Option<Applied>)
    requires i < |batches| && next == i + 1 && Running(batches, radius, lo, hi, keepMax, i, now)
    ensures r.None? ==> hi < |Kept(Universe(batches[..next]), now.radius, keepMax)| <= lo
    ensures r.Some? ==> Running(batches, radius, lo, hi, keepMax, next, r.value)
    ensures r.Some? ==> Step(Universe(batches[..next]), now.radius, r.value.radius, lo, hi, keepMax)
  {
    ghost var before, more := batches[..i], batches[..next];
    assert before + [batches[i]] == more;
    r := ProcessBatch(now.res, now.radius, now.totres, batches[i], lo, hi, keepMax, before, more);
    if r.Some? {
      RunningNext(batches, radius, lo, hi, keepMax, i, next, now, r.value);
    }
  }

  lemma RunningNext(batches: seq<seq<Query>>, radius: real, lo: nat, hi: nat, keepMax: bool, i: nat, next: nat,
                    now: Applied, b: Applied)
    requires i < |batches| && next == i + 1 && Running(batches, radius, lo, hi, keepMax, i, now)
    requires Processed(batches[..next], now.radius, b, lo, hi, keepMax)
    ensures Running(batches, radius, lo, hi, keepMax, next, b)
  {
    BatchPrefix(batches, i, next, radius, keepMax);
  }

  lemma BatchPrefix(batches: seq<seq<Query>>, i: nat, next: nat, radius: real, keepMax: bool)
    requires i < |batches| && next == i + 1
    ensures |Kept(Universe(batches[..i]), radius, keepMax)| <= |Kept(Universe(batches[..next]), radius, keepMax)|
  {
    MoreBatches(batches[..next], i, radius, keepMax);
    assert batches[..next][..i] == batches[..i];
  }

  /** The search with given limits. */
  method SearchWithin(batches: seq<seq<Query>>, radius: real, lo: nat, hi: nat, clipToMin: bool, keepMax: bool)
    returns (r: Outcome, ghost radii: seq<real>)
    ensures Steps(batches, radii, lo, hi, keepMax) && radii[0] == radius
    ensures Ending(batches, radii, lo, hi, clipToMin, keepMax, r)
    ensures r.Results? ==>
              && r.hits == Join(KeptParts(Queries(batches), r.radius, keepMax))
              && r.lims == Cumsum(Counts(KeptParts(Queries(batches), r.radius, keepMax)))
              && NoLooser(r.radius, radius, keepMax)
              && (|r.hits| <= hi || hi < |r.hits| <= lo)
              && (clipToMin ==> |r.hits| <= lo)
              && (!clipToMin && |Kept(Universe(batches), radius, keepMax)| <= hi ==> r.radius == radius)
  {
    var applied;
    applied, radii := SearchAll(batches, radius, lo, hi, keepMax);
    if applied.None? {
      return Failure, radii;
    }
    var at, totres, res := applied.value.radius, applied.value.totres, applied.value.res;
    HitsAre(res, batches, at, keepMax);
    if clipToMin && totres > lo {
      applied := ApplyMaxres(res, lo, keepMax, batches, at);
      at, totres, res := applied.value.radius, applied.value.totres, applied.value.res;
      HitsAre(res, batches, at, keepMax);
    }
    if res == [] {
      return Failure, radii;
    }
    BatchesAre(res, batches, at, keepMax);
    return Results(at, Cumsum(NresOf(res)), HitsOf(res)), radii;
  }

  /** The whole search: its results are those of one range search of all queries at the final
      radius.  The limits are the given ones; without min_results the lower one is four
      fifths of max_results, without max_results the upper one is one and a half times
      min_results, both rounded down. */
  method RangeSearchMaxResults(batches: seq<seq<Query>>, radius: real, maxResults: Option<nat>, minResults: Option<nat>,
                               clipToMin: bool, keepMax: bool)
    returns (r: Outcome, ghost radii: seq<real>)
    ensures r.Results? ==>
              && r.hits == Join(KeptParts(Queries(batches), r.radius, keepMax))
              && r.lims == Cumsum(Counts(KeptParts(Queries(batches), r.radius, keepMax)))
              && NoLooser(r.radius, radius, keepMax)
    // the limits that the caller asked for
    ensures r.Results? && maxResults.Some? && (minResults.None? || minResults.value <= maxResults.value) ==>
              |r.hits| <= maxResults.value
    ensures r.Results? && maxResults.None? && minResults.Some? ==> |r.hits| <= minResults.value * 3 / 2
    ensures r.Results? && minResults.Some? && (clipToMin || (maxResults.Some? && |r.hits| > maxResults.value)) ==>
              |r.hits| <= minResults.value
    ensures r.Results? && clipToMin && minResults.None? && maxResults.Some? ==> |r.hits| <= maxResults.value * 8 / 10
    // a radius at which the hits do not exceed them stays
    ensures r.Results? && !clipToMin && maxResults.Some? ==>
              |Kept(Universe(batches), radius, keepMax)| <= maxResults.value ==> r.radius == radius
    ensures r.Results? && !clipToMin && maxResults.None? && minResults.Some? ==>
              |Kept(Universe(batches), radius, keepMax)| <= minResults.value * 3 / 2 ==> r.radius == radius
    // batch by batch
    ensures maxResults.Some? || minResults.Some? ==>
              var lo := if minResults.Some? then minResults.value else maxResults.value * 8 / 10;
              var hi := if maxResults.Some? then maxResults.value else minResults.value * 3 / 2;
              && Steps(batches, radii, lo, hi, keepMax) && radii[0] == radius
              && Ending(batches, radii, lo, hi, clipToMin, keepMax, r)
    // failures
    ensures (maxResults.None? && minResults.None?) || batches == [] ==> r.Failure?
    ensures r.Failure? && batches != [] ==>
              (maxResults.None? && minResults.None?)
              || (maxResults.Some? && minResults.Some? && minResults.value > maxResults.value)
  {
    if maxResults.None? && minResults.None? {
      return Failure, [radius];
    }
    var lo := if minResults.Some? then minResults.value else maxResults.value * 8 / 10;
    var hi := if maxResults.Some? then maxResults.value else minResults.value * 3 / 2;
    r, radii := SearchWithin(batches, radius, lo, hi, clipToMin, keepMax);
  }
}
