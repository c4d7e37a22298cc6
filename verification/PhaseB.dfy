/** Grouping and merging of the partitioned reverse edges, and why the merged
    graph depends neither on the fill order of the buffer nor on the schedule. */
module PhaseB {
  import Permutations
  import opened ReverseEdges
  import opened Vectors

  /** One merge: all sources that gained node `dest` as a neighbour on `level`. */
  datatype Call = Call(level: int, dest: int, incoming: seq<int>)

  /** The comparator handed to the sort. */
  predicate Before(a: Edge, b: Edge) {
    if a.level != b.level then a.level < b.level else a.dest < b.dest
  }

  ghost predicate Sorted(s: seq<Edge>) {
    forall i, j :: 0 <= i < j < |s| ==> !Before(s[j], s[i])
  }

  predicate KeyIs(e: Edge, level: int, dest: int) {
    e.level == level && e.dest == dest
  }

  /** The source of an edge, if the edge carries the key. */
  ghost function SourceOf(e: Edge, level: int, dest: int): multiset<int> {
    if KeyIs(e, level, dest) then multiset{e.src} else multiset{}
  }

  /** The reference: all sources recorded for one (level, dest). */
  ghost function Sources(s: seq<Edge>, level: int, dest: int): multiset<int> {
    if s == [] then multiset{}
    else Sources(s[..|s| - 1], level, dest) + SourceOf(s[|s| - 1], level, dest)
  }

  /** How many calls concern one (level, dest). */
  ghost function KeyCount(calls: seq<Call>, level: int, dest: int): nat {
    if calls == [] then 0
    else
      KeyCount(calls[..|calls| - 1], level, dest)
      + var c := calls[|calls| - 1]; if c.level == level && c.dest == dest then 1 else 0
  }

  /** One call per (level, dest) present in s, carrying exactly its sources. */
  ghost predicate Groups(calls: seq<Call>, s: seq<Edge>) {
    && (forall l, d :: KeyCount(calls, l, d) <= 1)
    && (forall c :: c in calls ==> multiset(c.incoming) == Sources(s, c.level, c.dest) && c.incoming != [])
    && (forall e :: e in s ==> KeyCount(calls, e.level, e.dest) > 0)
  }

  // ---- sources and key counts ----

  lemma SourcesLast(s: seq<Edge>, front: seq<Edge>, e: Edge, l: int, d: int)
    requires s == front + [e]
    ensures Sources(s, l, d) == Sources(front, l, d) + SourceOf(e, l, d)
  {
    assert s[..|s| - 1] == front;
  }

  lemma {:induction false} SourcesConcat(s: seq<Edge>, t: seq<Edge>, l: int, d: int)
    ensures Sources(s + t, l, d) == Sources(s, l, d) + Sources(t, l, d)
  {
    if t == [] {
      assert s + t == s;
    } else {
      var front, e := t[..|t| - 1], t[|t| - 1];
      SourcesConcat(s, front, l, d);
      LastApart(s, t, front, e);
      SourcesLast(t, front, e, l, d);
      SourcesLast(s + t, s + front, e, l, d);
    }
  }

  lemma {:induction false} SourcesNone(s: seq<Edge>, l: int, d: int)
    requires forall e :: e in s ==> !KeyIs(e, l, d)
    ensures Sources(s, l, d) == multiset{}
  {
    if s != [] {
      SourcesNone(s[..|s| - 1], l, d);
    }
  }

  /** A node receives a source as often as there are edges to it from there. */
  lemma {:induction false} SourcesMeaning(s: seq<Edge>, l: int, d: int, v: int)
    ensures Sources(s, l, d)[v] == multiset(s)[Edge(l, d, v)]
  {
    if s != [] {
      var front, e := s[..|s| - 1], s[|s| - 1];
      SourcesMeaning(front, l, d, v);
      OneMore(s, front, e, l, d, v);
    }
  }

  lemma OneMore(s: seq<Edge>, front: seq<Edge>, e: Edge, l: int, d: int, v: int)
    requires s == front + [e]
    ensures multiset(s)[Edge(l, d, v)] == multiset(front)[Edge(l, d, v)] + SourceOf(e, l, d)[v]
  {
    assert e == Edge(e.level, e.dest, e.src);
  }

  /** Which sources a node receives does not depend on the fill order. */
  lemma SourcesPermutation(s: seq<Edge>, t: seq<Edge>, l: int, d: int)
    requires multiset(s) == multiset(t)
    ensures Sources(s, l, d) == Sources(t, l, d)
  {
    forall x ensures Sources(s, l, d)[x] == Sources(t, l, d)[x] {
      var times := (u: seq<Edge>) => Sources(u, l, d)[x];
      forall u, v ensures times(u + v) == times(u) + times(v) {
        SourcesConcat(u, v, l, d);
      }
      Permutations.AdditivePermutation(times, s, t);
    }
  }

  lemma {:induction false} KeyCountConcat(a: seq<Call>, b: seq<Call>, l: int, d: int)
    ensures KeyCount(a + b, l, d) == KeyCount(a, l, d) + KeyCount(b, l, d)
  {
    if b == [] {
      assert a + b == a;
    } else {
      KeyCountConcat(a, b[..|b| - 1], l, d);
      assert (a + b)[..|a + b| - 1] == a + b[..|b| - 1];
    }
  }

  lemma KeyCountPermutation(a: seq<Call>, b: seq<Call>, l: int, d: int)
    requires multiset(a) == multiset(b)
    ensures KeyCount(a, l, d) == KeyCount(b, l, d)
  {
    var count := (u: seq<Call>) => KeyCount(u, l, d);
    forall u, v ensures count(u + v) == count(u) + count(v) {
      KeyCountConcat(u, v, l, d);
    }
    Permutations.AdditivePermutation(count, a, b);
  }

  lemma {:induction false} KeyCountWitness(calls: seq<Call>, l: int, d: int)
    ensures KeyCount(calls, l, d) > 0 <==> exists c :: c in calls && c.level == l && c.dest == d
  {
    if calls != [] {
      var n := |calls| - 1;
      KeyCountWitness(calls[..n], l, d);
      assert calls == calls[..n] + [calls[n]];
    }
  }

  // ---- sorting one bucket ----

  function InsertEdge(s: seq<Edge>, e: Edge): seq<Edge> {
    if s == [] then [e]
    else if Before(e, s[0]) then [e] + s
    else [s[0]] + InsertEdge(s[1..], e)
  }

  function SortEdges(s: seq<Edge>): seq<Edge> {
    if s == [] then [] else InsertEdge(SortEdges(s[..|s| - 1]), s[|s| - 1])
  }

  lemma {:induction false} InsertEdgeSorted(s: seq<Edge>, e: Edge)
    requires Sorted(s)
    ensures Sorted(InsertEdge(s, e)) && multiset(InsertEdge(s, e)) == multiset(s) + multiset{e}
    ensures |InsertEdge(s, e)| == |s| + 1
  {
    if s == [] {
    } else if Before(e, s[0]) {
      assert forall i :: 0 <= i < |s| ==> !Before(s[i], e);
    } else {
      var rest, r := s[1..], InsertEdge(s[1..], e);
      InsertEdgeSorted(rest, e);
      assert s == [s[0]] + rest;
      forall i | 0 <= i < |r| ensures !Before(r[i], s[0]) {
        assert r[i] in multiset(r);
        assert r[i] == e || r[i] in rest;
      }
      SortedCons(s[0], r);
    }
  }

  lemma SortedCons(x: Edge, r: seq<Edge>)
    requires Sorted(r) && forall i :: 0 <= i < |r| ==> !Before(r[i], x)
    ensures Sorted([x] + r)
  {
  }

  lemma {:induction false} SortEdgesSorted(s: seq<Edge>)
    ensures Sorted(SortEdges(s)) && multiset(SortEdges(s)) == multiset(s) && |SortEdges(s)| == |s|
  {
    if s != [] {
      var n := |s| - 1;
      SortEdgesSorted(s[..n]);
      InsertEdgeSorted(SortEdges(s[..n]), s[n]);
      assert s == s[..n] + [s[n]];
    }
  }

  method Sort(part: seq<Edge>) returns (s: seq<Edge>)
    ensures Sorted(s) && multiset(s) == multiset(part) && |s| == |part|
  {
    s := SortEdges(part);
    SortEdgesSorted(part);
  }

  /** The library sort: nothing is promised about the order of equal keys. */
  method SortRange(edges: array<Edge>, lo: nat, hi: nat)
    requires lo <= hi <= edges.Length
    modifies edges
    ensures Sorted(edges[lo..hi]) && multiset(edges[lo..hi]) == multiset(old(edges[lo..hi]))
    ensures forall i, j :: lo <= i < j < hi ==>
              edges[i].level < edges[j].level || (edges[i].level == edges[j].level && edges[i].dest <= edges[j].dest)
    ensures forall i :: 0 <= i < lo || hi <= i < edges.Length ==> edges[i] == old(edges[i])
  {
    var s := Sort(edges[lo..hi]);
    Store(edges, lo, s);
    assert edges[lo..hi] == s;
    forall i, j | lo <= i < j < hi
      ensures edges[i].level < edges[j].level || (edges[i].level == edges[j].level && edges[i].dest <= edges[j].dest)
    {
      assert s[i - lo] == edges[i] && s[j - lo] == edges[j];
      assert !Before(s[j - lo], s[i - lo]);
    }
  }

  method Store(edges: array<Edge>, lo: nat, s: seq<Edge>)
    requires lo + |s| <= edges.Length
    modifies edges
    ensures edges[lo..lo + |s|] == s
    ensures forall i :: 0 <= i < lo || lo + |s| <= i < edges.Length ==> edges[i] == old(edges[i])
  {
    for i := 0 to |s|
      invariant forall j :: lo <= j < lo + i ==> edges[j] == s[j - lo]
      invariant forall j :: 0 <= j < lo || lo + |s| <= j < edges.Length ==> edges[j] == old(edges[j])
    {
      edges[lo + i] := s[i];
    }
  }

  // ---- grouping one sorted bucket ----

  /** Length of the leading run of equal keys. */
  function RunLength(s: seq<Edge>): (h: nat)
    requires s != []
    ensures 0 < h <= |s|
    ensures forall i :: 0 <= i < h ==> KeyIs(s[i], s[0].level, s[0].dest)
    ensures h < |s| ==> !KeyIs(s[h], s[0].level, s[0].dest)
  {
    if |s| == 1 || !KeyIs(s[1], s[0].level, s[0].dest) then 1 else 1 + RunLength(s[1..])
  }

  function Srcs(s: seq<Edge>): seq<int> {
    seq(|s|, i requires 0 <= i < |s| => s[i].src)
  }

  function Runs(s: seq<Edge>): seq<Call>
    decreases |s|
  {
    if s == [] then []
    else
      var h := RunLength(s);
      [Call(s[0].level, s[0].dest, Srcs(s[..h]))] + Runs(s[h..])
  }

  /** Walk a sorted bucket; each maximal run of equal keys becomes one call. */
  method GroupRange(edges: array<Edge>, lo: nat, hi: nat) returns (calls: seq<Call>)
    requires lo <= hi <= edges.Length
    ensures calls == Runs(edges[lo..hi])
  {
    calls := [];
    var g := lo;
    while g < hi
      invariant lo <= g <= hi
      invariant calls + Runs(edges[g..hi]) == Runs(edges[lo..hi])
    {
      var h := RunEnd(edges, g, hi);
      var incoming := CollectSources(edges, g, h);
      var call := Call(edges[g].level, edges[g].dest, incoming);
      RunsUnfold(edges, g, h, hi);
      Associate(calls, [call], Runs(edges[h..hi]));
      calls := calls + [call];
      g := h;
    }
    assert edges[g..hi] == [];
  }

  lemma RunsUnfold(edges: array<Edge>, g: nat, h: nat, hi: nat)
    requires g < h <= hi <= edges.Length && h - g == RunLength(edges[g..hi])
    ensures Runs(edges[g..hi]) == [Call(edges[g].level, edges[g].dest, Srcs(edges[g..h]))] + Runs(edges[h..hi])
  {
    Slices(edges, g, h, hi);
    RunsFirst(edges[g..hi], h - g, edges[g..h], edges[h..hi]);
  }

  lemma RunsFirst(s: seq<Edge>, h: nat, front: seq<Edge>, rest: seq<Edge>)
    requires s != [] && h == RunLength(s) && front == s[..h] && rest == s[h..]
    ensures Runs(s) == [Call(s[0].level, s[0].dest, Srcs(front))] + Runs(rest)
  {
  }

  lemma Slices(edges: array<Edge>, g: nat, h: nat, hi: nat)
    requires g <= h <= hi <= edges.Length
    ensures edges[g..hi][..h - g] == edges[g..h] && edges[g..hi][h - g..] == edges[h..hi]
  {
  }

  lemma Associate(a: seq<Call>, b: seq<Call>, c: seq<Call>)
    ensures a + (b + c) == (a + b) + c
  {
  }

  method RunEnd(edges: array<Edge>, g: nat, hi: nat) returns (h: nat)
    requires g < hi <= edges.Length
    ensures g < h <= hi && h - g == RunLength(edges[g..hi])
  {
    h := g + 1;
    ghost var s := edges[g..hi];
    while h < hi && edges[h].level == edges[g].level && edges[h].dest == edges[g].dest
      invariant g < h <= g + RunLength(s)
    {
      assert KeyIs(s[h - g], s[0].level, s[0].dest);
      h := h + 1;
    }
    assert h < hi ==> s[h - g] == edges[h];
  }

  method CollectSources(edges: array<Edge>, g: nat, h: nat) returns (incoming: seq<int>)
    requires g <= h <= edges.Length
    ensures incoming == Srcs(edges[g..h])
  {
    incoming := [];
    for kk := g to h
      invariant incoming == Srcs(edges[g..kk])
    {
      incoming := incoming + [edges[kk].src];
    }
  }

  lemma {:induction false} SourcesOfRun(s: seq<Edge>, l: int, d: int)
    requires forall i :: 0 <= i < |s| ==> KeyIs(s[i], l, d)
    ensures Sources(s, l, d) == multiset(Srcs(s))
  {
    if s != [] {
      var n := |s| - 1;
      SourcesOfRun(s[..n], l, d);
      assert Srcs(s) == Srcs(s[..n]) + [s[n].src];
      assert KeyIs(s[n], l, d);
    }
  }

  /** In a sorted bucket the key of the leading run does not come back. */
  lemma RunIsolated(s: seq<Edge>, h: nat, front: seq<Edge>, rest: seq<Edge>)
    requires s != [] && Sorted(s) && h == RunLength(s) && front == s[..h] && rest == s[h..]
    ensures s == front + rest && front != [] && Sorted(rest)
    ensures forall i :: 0 <= i < |front| ==> KeyIs(front[i], s[0].level, s[0].dest)
    ensures forall e :: e in rest ==> !KeyIs(e, s[0].level, s[0].dest)
  {
    if h < |s| {
      assert !Before(s[h], s[0]);
      forall i | h <= i < |s| ensures !KeyIs(s[i], s[0].level, s[0].dest) {
        assert !Before(s[i], s[h]);
      }
    }
  }

  /** A key has a call exactly when an edge carries it. */
  lemma KeyPresent(calls: seq<Call>, s: seq<Edge>, l: int, d: int)
    requires Groups(calls, s)
    ensures KeyCount(calls, l, d) > 0 <==> exists e :: e in s && KeyIs(e, l, d)
  {
    KeyCountWitness(calls, l, d);
    if KeyCount(calls, l, d) > 0 {
      var c :| c in calls && c.level == l && c.dest == d;
      assert c.incoming[0] in multiset(c.incoming);
      if forall e :: e in s ==> !KeyIs(e, l, d) {
        SourcesNone(s, l, d);
      }
    }
  }

  ghost predicate DisjointKeys(s: seq<Edge>, t: seq<Edge>) {
    forall e, f :: e in s && f in t ==> !KeyIs(f, e.level, e.dest)
  }

  /** Groups of edge lists without common keys combine. */
  lemma GroupsConcat(a: seq<Call>, s: seq<Edge>, b: seq<Call>, t: seq<Edge>)
    requires Groups(a, s) && Groups(b, t) && DisjointKeys(s, t)
    ensures Groups(a + b, s + t)
  {
    forall l, d ensures KeyCount(a + b, l, d) <= 1 {
      KeyCountConcat(a, b, l, d);
      KeyPresent(a, s, l, d);
      KeyPresent(b, t, l, d);
    }
    forall c | c in a + b ensures multiset(c.incoming) == Sources(s + t, c.level, c.dest) {
      SourcesConcat(s, t, c.level, c.dest);
      if c in a {
        SourcesOther(a, s, t, c);
      } else {
        SourcesOther(b, t, s, c);
      }
    }
    forall e | e in s + t ensures KeyCount(a + b, e.level, e.dest) > 0 {
      KeyCountConcat(a, b, e.level, e.dest);
    }
  }

  lemma SourcesOther(a: seq<Call>, s: seq<Edge>, t: seq<Edge>, c: Call)
    requires Groups(a, s) && c in a
    requires DisjointKeys(s, t) || DisjointKeys(t, s)
    ensures Sources(t, c.level, c.dest) == multiset{}
  {
    KeyCountWitness(a, c.level, c.dest);
    KeyPresent(a, s, c.level, c.dest);
    SourcesNone(t, c.level, c.dest);
  }

  /** The runs of a sorted bucket are its groups. */
  lemma {:induction false} RunsAreGroups(s: seq<Edge>)
    requires Sorted(s)
    ensures Groups(Runs(s), s)
    decreases |s|
  {
    if s != [] {
      var h := RunLength(s);
      var front, rest := s[..h], s[h..];
      RunIsolated(s, h, front, rest);
      RunsAreGroups(rest);
      FirstRun(s, Runs(s), front, s[0].level, s[0].dest, rest, Runs(rest));
    }
  }

  /** A run of one key before edges without that key. */
  lemma FirstRun(s: seq<Edge>, all: seq<Call>, front: seq<Edge>, l: int, d: int, rest: seq<Edge>, calls: seq<Call>)
    requires s == front + rest && all == [Call(l, d, Srcs(front))] + calls
    requires front != [] && (forall i :: 0 <= i < |front| ==> KeyIs(front[i], l, d))
    requires Groups(calls, rest) && (forall e :: e in rest ==> !KeyIs(e, l, d))
    ensures Groups(all, s)
  {
    OneRun(front, l, d);
    GroupsConcat([Call(l, d, Srcs(front))], front, calls, rest);
  }

  lemma OneRun(s: seq<Edge>, l: int, d: int)
    requires s != [] && forall i :: 0 <= i < |s| ==> KeyIs(s[i], l, d)
    ensures Groups([Call(l, d, Srcs(s))], s)
  {
    var calls := [Call(l, d, Srcs(s))];
    SourcesOfRun(s, l, d);
    assert calls[..0] == [] && |Srcs(s)| == |s|;
    forall e | e in s ensures KeyCount(calls, e.level, e.dest) > 0 {
      assert KeyIs(e, l, d);
    }
  }

  /** Grouping looks at the collection of edges, not at their order. */
  lemma GroupsPermutation(calls: seq<Call>, s: seq<Edge>, t: seq<Edge>)
    requires Groups(calls, s) && multiset(s) == multiset(t)
    ensures Groups(calls, t)
  {
    forall c | c in calls ensures multiset(c.incoming) == Sources(t, c.level, c.dest) {
      SourcesPermutation(s, t, c.level, c.dest);
    }
    forall e | e in t ensures KeyCount(calls, e.level, e.dest) > 0 {
      assert e in multiset(t);
      assert e in s;
    }
  }

  // ---- the whole phase ----

  method MergeBucket(edges: array<Edge>, lo: nat, hi: nat) returns (calls: seq<Call>)
    requires lo <= hi <= edges.Length
    modifies edges
    ensures Groups(calls, old(edges[lo..hi]))
    ensures forall i :: 0 <= i < lo || hi <= i < edges.Length ==> edges[i] == old(edges[i])
  {
    ghost var s := edges[lo..hi];
    SortRange(edges, lo, hi);
    calls := GroupRange(edges, lo, hi);
    RunsAreGroups(edges[lo..hi]);
    GroupsPermutation(calls, edges[lo..hi], s);
  }

  /** Regroup the first `total` edges and issue the merge calls bucket by bucket. */
  method MergeReverseEdges(edges: array<Edge>, total: nat) returns (byBucket: seq<seq<Call>>)
    requires total <= edges.Length
    modifies edges
    ensures |byBucket| == NUM_BUCKETS
    ensures forall b, c :: 0 <= b < NUM_BUCKETS && c in byBucket[b] ==> c.dest % NUM_BUCKETS == b
    ensures Groups(Join(byBucket), old(edges[..total]))
  {
    ghost var s0 := edges[..total];
    var bstart := ComputeStarts(edges, total);
    StartsHold(s0, bstart);
    SliceOfBuffer(edges, total);
    PartitionByBucket(edges, total, bstart);
    SliceOfBuffer(edges, total);
    ghost var s := edges[..total];
    StartsPermutation(s0, s, bstart);
    byBucket := MergeBuckets(edges, total, bstart);
    BucketsDisjoint(byBucket, s, bstart);
    AllGroups(byBucket, s, bstart);
    GroupsPermutation(Join(byBucket), s, s0);
  }

  method MergeBuckets(edges: array<Edge>, total: nat, bstart: seq<nat>) returns (byBucket: seq<seq<Call>>)
    requires total <= edges.Length && Starts(edges[..total], bstart)
    modifies edges
    ensures |byBucket| == NUM_BUCKETS
    ensures forall b :: 0 <= b < NUM_BUCKETS ==> Groups(byBucket[b], old(edges[..total])[bstart[b]..bstart[b + 1]])
  {
    ghost var s := edges[..total];
    byBucket := [];
    for b := 0 to NUM_BUCKETS
      invariant |byBucket| == b
      invariant forall i :: bstart[b] <= i < total ==> edges[i] == s[i]
      invariant forall c :: 0 <= c < b ==> Groups(byBucket[c], s[bstart[c]..bstart[c + 1]])
    {
      var lo, hi := bstart[b], bstart[b + 1];
      assert lo <= hi <= total;
      assert edges[lo..hi] == s[lo..hi];
      var calls := MergeBucket(edges, lo, hi);
      byBucket := byBucket + [calls];
    }
  }

  ghost predicate BucketGroups(byBucket: seq<seq<Call>>, s: seq<Edge>, bstart: seq<nat>) {
    && Starts(s, bstart) && |byBucket| == NUM_BUCKETS
    && (forall b :: 0 <= b < NUM_BUCKETS ==> Filled(s, bstart[b], bstart[b + 1], b))
    && (forall b :: 0 <= b < NUM_BUCKETS ==> Groups(byBucket[b], s[bstart[b]..bstart[b + 1]]))
  }

  /** No destination is handled by two buckets. */
  lemma BucketsDisjoint(byBucket: seq<seq<Call>>, s: seq<Edge>, bstart: seq<nat>)
    requires BucketGroups(byBucket, s, bstart)
    ensures forall b, c :: 0 <= b < NUM_BUCKETS && c in byBucket[b] ==> c.dest % NUM_BUCKETS == b
  {
    forall b, c | 0 <= b < NUM_BUCKETS && c in byBucket[b] ensures c.dest % NUM_BUCKETS == b {
      var seg := s[bstart[b]..bstart[b + 1]];
      KeyCountWitness(byBucket[b], c.level, c.dest);
      KeyPresent(byBucket[b], seg, c.level, c.dest);
      var e :| e in seg && KeyIs(e, c.level, c.dest);
      assert Filled(s, bstart[b], bstart[b + 1], b);
    }
  }

  lemma {:induction false} FlattenGroups(byBucket: seq<seq<Call>>, s: seq<Edge>, bstart: seq<nat>, b: nat)
    requires BucketGroups(byBucket, s, bstart) && b <= NUM_BUCKETS
    ensures bstart[b] <= |s| && Groups(Join(byBucket[..b]), s[..bstart[b]])
    ensures forall e :: e in s[..bstart[b]] ==> Bucket(e) < b
  {
    if b > 0 {
      FlattenGroups(byBucket, s, bstart, b - 1);
      var lo, hi := bstart[b - 1], bstart[b];
      assert Filled(s, lo, hi, b - 1);
      assert byBucket[..b][..b - 1] == byBucket[..b - 1];
      assert s[..hi] == s[..lo] + s[lo..hi];
      forall e, f | e in s[..lo] && f in s[lo..hi] ensures !KeyIs(f, e.level, e.dest) {
        assert Bucket(f) == b - 1;
      }
      GroupsConcat(Join(byBucket[..b - 1]), s[..lo], byBucket[b - 1], s[lo..hi]);
    }
  }

  lemma AllGroups(byBucket: seq<seq<Call>>, s: seq<Edge>, bstart: seq<nat>)
    requires BucketGroups(byBucket, s, bstart)
    ensures Groups(Join(byBucket), s)
  {
    FlattenGroups(byBucket, s, bstart, NUM_BUCKETS);
    assert byBucket[..NUM_BUCKETS] == byBucket && s[..bstart[NUM_BUCKETS]] == s;
  }

  // ---- determinism of the merged graph ----

  /** Neighbour lists by (level, node). */
  type Graph = map<(int, int), seq<int>>

  /** The merge of one node: it reads its own list and the set of new sources
      (it sorts them and drops duplicates first). */
  type MergeRule = (int, int, seq<int>, set<int>) -> seq<int>

  function Row(g: Graph, l: int, d: int): seq<int> {
    if (l, d) in g then g[(l, d)] else []
  }

  function ApplyCall(rule: MergeRule, g: Graph, c: Call): Graph {
    g[(c.level, c.dest) := rule(c.level, c.dest, Row(g, c.level, c.dest), set v | v in c.incoming)]
  }

  function ApplyCalls(rule: MergeRule, g: Graph, calls: seq<Call>): Graph {
    if calls == [] then g
    else ApplyCall(rule, ApplyCalls(rule, g, calls[..|calls| - 1]), calls[|calls| - 1])
  }

  /** Every node's final list is one merge of its initial list with the set of its
      sources, and nodes without reverse edges keep their list. */
  lemma {:induction false} ApplyGroups(rule: MergeRule, g: Graph, calls: seq<Call>, s: seq<Edge>, l: int, d: int)
    requires forall a, b :: KeyCount(calls, a, b) <= 1
    requires forall c :: c in calls ==> multiset(c.incoming) == Sources(s, c.level, c.dest)
    ensures Row(ApplyCalls(rule, g, calls), l, d)
            == if KeyCount(calls, l, d) == 0 then Row(g, l, d)
               else rule(l, d, Row(g, l, d), set v | v in Sources(s, l, d))
  {
    if calls != [] {
      var n := |calls| - 1;
      var c := calls[n];
      forall a, b ensures KeyCount(calls[..n], a, b) <= 1 {
        assert KeyCount(calls, a, b) <= 1;
      }
      ApplyGroups(rule, g, calls[..n], s, l, d);
      assert KeyCount(calls, c.level, c.dest) <= 1;
      if c.level == l && c.dest == d {
        assert (set v | v in c.incoming) == (set v | v in Sources(s, l, d)) by {
          assert forall v :: v in c.incoming <==> v in multiset(c.incoming);
        }
      }
    }
  }

  /** Determinism: two fill orders of the buffer (s and t) and two schedules of
      their merge calls (a and b) leave the same neighbour list on every node, if
      they start from the same lists. */
  lemma MergedGraphDeterministic(rule: MergeRule, g: Graph, a: seq<Call>, s: seq<Edge>,
                                 h: Graph, b: seq<Call>, t: seq<Edge>, l: int, d: int)
    requires Groups(a, s) && Groups(b, t) && multiset(s) == multiset(t) && Row(g, l, d) == Row(h, l, d)
    ensures Row(ApplyCalls(rule, g, a), l, d) == Row(ApplyCalls(rule, h, b), l, d)
  {
    GroupsPermutation(b, t, s);
    ApplyGroups(rule, g, a, s, l, d);
    ApplyGroups(rule, h, b, s, l, d);
    KeyPresent(a, s, l, d);
    KeyPresent(b, s, l, d);
  }

  /** Any schedule of the calls of all buckets still issues each group once. */
  lemma AnySchedule(calls: seq<Call>, order: seq<Call>, s: seq<Edge>)
    requires Groups(calls, s) && multiset(order) == multiset(calls)
    ensures Groups(order, s)
  {
    forall l, d ensures KeyCount(order, l, d) == KeyCount(calls, l, d) {
      KeyCountPermutation(order, calls, l, d);
    }
    forall c | c in order ensures c in calls {
      assert c in multiset(order);
    }
  }
}
