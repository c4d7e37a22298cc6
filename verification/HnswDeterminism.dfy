/** The deterministic build, end to end: whatever the interleavings and schedules of its
    batches, the links are the same. */
module HnswDeterminism {
  import HnswBuild
  import Permutations
  import PhaseA
  import opened PhaseB
  import opened ReverseEdges
  import opened Snapshot

  /** What phase B finds in the buffer after a complete phase A. */
  ghost predicate LeavesBuffer(edges: seq<seq<Edge>>, run: seq<PhaseA.Fill>, content: seq<Edge>) {
    && PhaseA.Run(edges, run) && PhaseA.Done(edges, run[|run| - 1])
    && |content| == run[|run| - 1].counter
    && forall i :: 0 <= i < |content| ==>
         i in run[|run| - 1].buffer && run[|run| - 1].buffer[i] == content[i]
  }

  /** The same reverse edges: two fills of the buffer and two schedules of phase B. */
  lemma BatchDeterministic(edges: seq<seq<Edge>>, rule: MergeRule,
                           g: Graph, run: seq<PhaseA.Fill>, s: seq<Edge>, a: seq<Call>,
                           h: Graph, run': seq<PhaseA.Fill>, t: seq<Edge>, b: seq<Call>)
    requires LeavesBuffer(edges, run, s) && Groups(a, s)
    requires LeavesBuffer(edges, run', t) && Groups(b, t)
    requires SameLinks(g, h)
    ensures SameLinks(ApplyCalls(rule, g, a), ApplyCalls(rule, h, b))
  {
    BufferContent(edges, run, s);
    BufferContent(edges, run', t);
    forall l, d ensures Row(ApplyCalls(rule, g, a), l, d) == Row(ApplyCalls(rule, h, b), l, d) {
      assert Row(g, l, d) == Row(h, l, d);
      MergedGraphDeterministic(rule, g, a, s, h, b, t, l, d);
    }
  }

  lemma BufferContent(edges: seq<seq<Edge>>, run: seq<PhaseA.Fill>, content: seq<Edge>)
    requires LeavesBuffer(edges, run, content)
    ensures multiset(content) == multiset(Permutations.Concat(edges, Permutations.Identity(|edges|)))
  {
    var c := PhaseA.FilledBuffer(edges, run);
    assert content == c;
  }

  // ---- one batch ----

  /** One possible course of a batch: the searches `trace`, the fill `run` of the buffer with
      their reverse edges, its content, and the merge calls. */
  ghost predicate Course(search: Search, rule: MergeRule, points: seq<nat>, g: Graph, g': Graph, trace: seq<State>,
                         run: seq<PhaseA.Fill>, content: seq<Edge>, calls: seq<Call>)
  {
    && Run(search, points, g, trace) && AllStopped(search, points, trace[|trace| - 1])
    && LeavesBuffer(AllEdges(points, trace[|trace| - 1].hist), run, content) && Groups(calls, content)
    && g' == ApplyCalls(rule, trace[|trace| - 1].g, calls)
  }

  /** The batch may turn graph g into graph g'. */
  ghost predicate BatchRun(search: Search, rule: MergeRule, points: seq<nat>, g: Graph, g': Graph) {
    exists trace, run, content, calls :: Course(search, rule, points, g, g', trace, run, content, calls)
  }

  /** Two runs of a batch over the same links. */
  lemma NextBatch(search: Search, rule: MergeRule, points: seq<nat>, entry: int, done: set<int>,
                  g: Graph, g': Graph, h: Graph, h': Graph)
    requires FollowsLinks(search, entry) && SameLinks(g, h)
    requires Ready(g, points, entry, done) && Ready(h, points, entry, done)
    requires BatchRun(search, rule, points, g, g') && BatchRun(search, rule, points, h, h')
    ensures SameLinks(g', h')
  {
    var u: seq<State>, run, s, a :| Course(search, rule, points, g, g', u, run, s, a);
    var v: seq<State>, run', t, b :| Course(search, rule, points, h, h', v, run', t, b);
    var x, y := u[|u| - 1], v[|v| - 1];
    RunInv(search, points, entry, done, g, u, |u| - 1);
    RunInv(search, points, entry, done, h, v, |v| - 1);
    SameSearches(search, points, entry, done, g, x, h, y);
    BatchDeterministic(AllEdges(points, x.hist), rule, x.g, run, s, a, y.g, run', t, b);
  }

  // ---- links lead to inserted points only ----

  /** The merge keeps old links and adds sources, nothing else. */
  ghost predicate MergesSources(rule: MergeRule) {
    forall l, d, row: seq<int>, srcs: set<int> {:trigger rule(l, d, row, srcs)} ::
      forall v :: v in rule(l, d, row, srcs) ==> v in row || v in srcs
  }

  lemma {:induction false} SourceHasEdge(s: seq<Edge>, l: int, d: int, v: int)
    requires v in Sources(s, l, d)
    ensures Edge(l, d, v) in s
  {
    var n := |s| - 1;
    if s != [] && v in Sources(s[..n], l, d) {
      SourceHasEdge(s[..n], l, d, v);
    }
  }

  lemma {:induction false} ConcatMember(edges: seq<seq<Edge>>, n: nat, e: Edge)
    requires n <= |edges| && e in Permutations.Concat(edges, Permutations.Identity(n))
    ensures exists k :: 0 <= k < n && e in edges[k]
  {
    if n > 0 {
      var front := Permutations.Identity(n - 1);
      assert Permutations.Identity(n) == front + [n - 1];
      Permutations.ConcatOne(edges, front, n - 1);
      if e in Permutations.Concat(edges, front) {
        ConcatMember(edges, n - 1, e);
      }
    }
  }

  /** The edges in the buffer lead from points of the batch to old nodes. */
  lemma BufferLeads(search: Search, points: seq<nat>, entry: int, done: set<int>, g: Graph, s: State,
                    run: seq<PhaseA.Fill>, content: seq<Edge>, e: Edge)
    requires Inv(search, points, entry, done, g, s) && LeavesBuffer(AllEdges(points, s.hist), run, content)
    requires e in content
    ensures e.dest in done && e.src in points
  {
    var edges := AllEdges(points, s.hist);
    BufferContent(edges, run, content);
    Permutations.Member(content, Permutations.Concat(edges, Permutations.Identity(|edges|)), e);
    ConcatMember(edges, |edges|, e);
    var k :| 0 <= k < |edges| && e in edges[k];
    assert Isolated(search, entry, done, g, points[k], s.hist[k]);
    EdgesLead(points[k], s.hist[k], done);
  }

  /** Where a link can come from after the merge. */
  lemma MergedLink(rule: MergeRule, g: Graph, calls: seq<Call>, s: seq<Edge>, l: int, d: int, v: int)
    requires MergesSources(rule) && Groups(calls, s) && v in Row(ApplyCalls(rule, g, calls), l, d)
    ensures v in Row(g, l, d) || Edge(l, d, v) in s
  {
    ApplyGroups(rule, g, calls, s, l, d);
    var srcs := set x | x in Sources(s, l, d);
    assert v in Row(g, l, d) || v in rule(l, d, Row(g, l, d), srcs);
    if v !in Row(g, l, d) {
      assert v in srcs;
      SourceHasEdge(s, l, d, v);
    }
  }

  function Members(points: seq<nat>): (s: set<int>)
    ensures forall v: int :: v in s <==> v in points
  {
    if points == [] then {}
    else
      assert points == points[..|points| - 1] + [points[|points| - 1]];
      Members(points[..|points| - 1]) + {points[|points| - 1]}
  }

  /** After the batch its points are among the linked ones, and nothing else has changed. */
  lemma BatchClosed(search: Search, rule: MergeRule, points: seq<nat>, entry: int, done: set<int>, g: Graph, g': Graph)
    requires FollowsLinks(search, entry) && MergesSources(rule) && Ready(g, points, entry, done)
    requires BatchRun(search, rule, points, g, g')
    ensures Closed(g', done + Members(points))
  {
    var trace: seq<State>, run, content, calls :| Course(search, rule, points, g, g', trace, run, content, calls);
    var s, more := trace[|trace| - 1], done + Members(points);
    RunInv(search, points, entry, done, g, trace, |trace| - 1);
    forall l, d, v {:trigger v in Row(g', l, d)} | v in Row(g', l, d) ensures d in more && v in more {
      InsertedLink(search, rule, points, entry, done, g, s, run, content, calls, more, l, d, v);
    }
    assert Closed(g', more);
  }

  lemma InsertedLink(search: Search, rule: MergeRule, points: seq<nat>, entry: int, done: set<int>, g: Graph, s: State,
                     run: seq<PhaseA.Fill>, content: seq<Edge>, calls: seq<Call>, more: set<int>, l: int, d: int, v: int)
    requires Ready(g, points, entry, done) && Inv(search, points, entry, done, g, s) && MergesSources(rule)
    requires LeavesBuffer(AllEdges(points, s.hist), run, content) && Groups(calls, content)
    requires v in Row(ApplyCalls(rule, s.g, calls), l, d) && more == done + Members(points)
    ensures d in more && v in more
  {
    MergedLink(rule, s.g, calls, content, l, d, v);
    if v in Row(s.g, l, d) {
      SearchedLink(search, points, entry, done, g, s, l, d, v);
    } else {
      BufferLeads(search, points, entry, done, g, s, run, content, Edge(l, d, v));
    }
  }

  lemma SearchedLink(search: Search, points: seq<nat>, entry: int, done: set<int>, g: Graph, s: State, l: int, d: int, v: int)
    requires Ready(g, points, entry, done) && Inv(search, points, entry, done, g, s) && v in Row(s.g, l, d)
    ensures (d in done || d in points) && v in done
  {
    if d in points {
      var k :| 0 <= k < |points| && points[k] == d;
      assert Isolated(search, entry, done, g, points[k], s.hist[k]) && OwnRows(s.g, points[k], s.hist[k]);
      assert v in Own(s.hist[k], l);
    } else {
      assert Row(s.g, l, d) == Row(g, l, d);
      ClosedAt(g, done, l, d, v);
    }
  }

  // ---- all batches ----

  /** graphs[i] is the graph before batch i of one possible build along the log. */
  ghost predicate Build(searches: seq<Search>, rule: MergeRule, log: seq<HnswBuild.Batch>, graphs: seq<Graph>) {
    && |searches| == |log| && 0 < |graphs| <= |log| + 1
    && forall i :: 0 <= i < |graphs| - 1 ==> BatchRun(searches[i], rule, log[i].points, graphs[i], graphs[i + 1])
  }

  ghost predicate Lawful(searches: seq<Search>, rule: MergeRule, log: seq<HnswBuild.Batch>) {
    && |searches| == |log| && MergesSources(rule)
    && forall i :: 0 <= i < |log| ==> FollowsLinks(searches[i], log[i].entryPoint)
  }

  function Below(n: nat): (s: set<int>)
    ensures forall v: int :: v in s <==> 0 <= v < n
  {
    if n == 0 then {} else Below(n - 1) + {n - 1}
  }

  /** The nodes that are linked before batch i: the n0 old ones and the earlier batches. */
  ghost function Linked(n0: nat, log: seq<HnswBuild.Batch>, i: nat): set<int>
    requires i <= |log|
  {
    Below(n0) + Members(HnswBuild.PointsOf(log[..i]))
  }

  /** What AddVertices promises of its log, as far as it matters here. */
  ghost predicate LogOf(prior: int, levels: seq<nat>, theta: nat, log: seq<HnswBuild.Batch>, n0: nat) {
    && HnswBuild.History(prior, levels, theta, log) && -1 <= prior < n0
    && Permutations.Distinct(HnswBuild.PointsOf(log)) && forall x :: x in HnswBuild.PointsOf(log) ==> n0 <= x
  }

  lemma {:induction false} PointsSplit(log: seq<HnswBuild.Batch>, i: nat) returns (rest: seq<nat>)
    requires i < |log|
    ensures HnswBuild.PointsOf(log) == HnswBuild.PointsOf(log[..i]) + log[i].points + rest
    ensures HnswBuild.PointsOf(log[..i + 1]) == HnswBuild.PointsOf(log[..i]) + log[i].points
  {
    var n := |log| - 1;
    assert log[..i + 1][..i] == log[..i];
    if i == n {
      assert log[..i + 1] == log;
      rest := [];
    } else {
      var r := PointsSplit(log[..n], i);
      assert log[..n][..i] == log[..i];
      rest := r + log[n].points;
    }
  }

  lemma DistinctParts(a: seq<nat>, b: seq<nat>, c: seq<nat>)
    requires Permutations.Distinct(a + b + c)
    ensures Permutations.Distinct(b) && forall i :: 0 <= i < |b| ==> b[i] !in a
  {
    var s := a + b + c;
    forall i, j | 0 <= i < j < |b| ensures b[i] != b[j] {
      assert s[|a| + i] == b[i] && s[|a| + j] == b[j];
    }
    forall i, j | 0 <= i < |b| && 0 <= j < |a| ensures b[i] != a[j] {
      assert s[|a| + i] == b[i] && s[j] == a[j];
    }
  }

  lemma NewPoints(a: seq<nat>, b: seq<nat>, c: seq<nat>, n0: nat)
    requires (forall x :: x in a + b + c ==> n0 <= x) && forall k :: 0 <= k < |b| ==> b[k] !in a
    ensures forall k :: 0 <= k < |b| ==> b[k] !in Below(n0) + Members(a)
  {
    forall k | 0 <= k < |b| ensures b[k] !in Below(n0) + Members(a) {
      assert b[k] in a + b + c;
    }
  }

  /** Before batch i its points are out of reach, and its entry point is linked. */
  lemma BatchReady(prior: int, levels: seq<nat>, theta: nat, log: seq<HnswBuild.Batch>, n0: nat, i: nat, g: Graph)
    requires LogOf(prior, levels, theta, log, n0) && i < |log| && Closed(g, Linked(n0, log, i))
    ensures Ready(g, log[i].points, log[i].entryPoint, Linked(n0, log, i))
    ensures Linked(n0, log, i + 1) == Linked(n0, log, i) + Members(log[i].points)
  {
    var before, points := HnswBuild.PointsOf(log[..i]), log[i].points;
    var rest := PointsSplit(log, i);
    DistinctParts(before, points, rest);
    NewPoints(before, points, rest, n0);
    EntryLinked(prior, levels, theta, log, n0, i);
    MembersConcat(before, points);
  }

  lemma EntryLinked(prior: int, levels: seq<nat>, theta: nat, log: seq<HnswBuild.Batch>, n0: nat, i: nat)
    requires HnswBuild.History(prior, levels, theta, log) && -1 <= prior < n0 && i < |log|
    ensures log[i].entryPoint in Linked(n0, log, i)
            || (|log[i].points| == 1 && log[i].points[0] == log[i].entryPoint)
  {
    HnswBuild.HistoryAt(prior, levels, theta, log, i);
  }

  lemma MembersConcat(a: seq<nat>, b: seq<nat>)
    ensures Members(a + b) == Members(a) + Members(b)
  {
  }

  /** Two builds along the log of an addition, from the same links among the old nodes: with
      whatever interleavings and schedules of their batches, they have the same links after
      every batch, and these lead to inserted points only. */
  lemma {:induction false} BuildDeterministic(searches: seq<Search>, rule: MergeRule, prior: int, levels: seq<nat>,
                                              theta: nat, log: seq<HnswBuild.Batch>, n0: nat,
                                              a: seq<Graph>, b: seq<Graph>, n: nat)
    requires Lawful(searches, rule, log) && LogOf(prior, levels, theta, log, n0)
    requires Build(searches, rule, log, a) && Build(searches, rule, log, b)
    requires SameLinks(a[0], b[0]) && Closed(a[0], Linked(n0, log, 0)) && n < |a| && n < |b|
    ensures SameLinks(a[n], b[n]) && Closed(a[n], Linked(n0, log, n)) && Closed(b[n], Linked(n0, log, n))
  {
    if n == 0 {
      SameClosed(a[0], b[0], Linked(n0, log, 0));
    } else {
      var i := n - 1;
      BuildDeterministic(searches, rule, prior, levels, theta, log, n0, a, b, i);
      BatchReady(prior, levels, theta, log, n0, i, a[i]);
      BatchReady(prior, levels, theta, log, n0, i, b[i]);
      assert BatchRun(searches[i], rule, log[i].points, a[i], a[i + 1]);
      assert BatchRun(searches[i], rule, log[i].points, b[i], b[i + 1]);
      var done := Linked(n0, log, i);
      NextBatch(searches[i], rule, log[i].points, log[i].entryPoint, done, a[i], a[n], b[i], b[n]);
      BatchClosed(searches[i], rule, log[i].points, log[i].entryPoint, done, a[i], a[n]);
      BatchClosed(searches[i], rule, log[i].points, log[i].entryPoint, done, b[i], b[n]);
    }
  }

  lemma SameClosed(g: Graph, h: Graph, done: set<int>)
    requires SameLinks(g, h) && Closed(g, done)
    ensures Closed(h, done)
  {
    forall l, d, v {:trigger v in Row(h, l, d)} | v in Row(h, l, d) ensures d in done && v in done {
      assert Row(g, l, d) == Row(h, l, d);
      ClosedAt(g, done, l, d, v);
    }
  }

  /** The log that AddVertices leaves is such a log. */
  lemma AddedLog(prior: int, levels: seq<nat>, theta: nat, log: seq<HnswBuild.Batch>, n0: nat, n: nat, left: multiset<nat>)
    requires HnswBuild.History(prior, levels, theta, log) && -1 <= prior < n0
    requires multiset(HnswBuild.PointsOf(log)) + left == multiset(HnswBuild.Ids(n0, n))
    ensures LogOf(prior, levels, theta, log, n0)
  {
    var points, ids := HnswBuild.PointsOf(log), HnswBuild.Ids(n0, n);
    forall x ensures multiset(points)[x] <= 1 && (x in points ==> n0 <= x) {
      Permutations.CountOne(ids, x);
      assert multiset(points)[x] <= multiset(ids)[x];
      assert x in points ==> x in multiset(ids);
    }
    forall i, j | 0 <= i < j < |points| ensures points[i] != points[j] {
      if points[i] == points[j] {
        CountTwo(points, i, j);
      }
    }
  }

  lemma CountTwo(s: seq<nat>, i: nat, j: nat)
    requires i < j < |s| && s[i] == s[j]
    ensures multiset(s)[s[i]] >= 2
  {
    Permutations.Split(s, j);
    assert s[i] in s[..j] && s[j] in s[j..];
  }

  /** An addition, with a log along which every build is deterministic. */
  method AddVertices(hnsw: HnswBuild.Hnsw, levels: seq<nat>, n0: nat, n: nat, initLevel0: bool)
    returns (log: seq<HnswBuild.Batch>)
    requires n0 + n == |levels| && forall i :: n0 <= i < n0 + n ==> levels[i] >= 1
    requires hnsw.Valid(levels) && hnsw.entryPoint < n0
    modifies hnsw
    ensures LogOf(old(hnsw.entryPoint), levels, HnswBuild.Theta(n0 + n), log, n0)
  {
    ghost var prior := hnsw.entryPoint;
    log := hnsw.AddVertices(levels, n0, n, initLevel0);
    ghost var left := if initLevel0 then multiset{} else multiset(HnswBuild.Bucket(levels, n0, n, 0));
    AddedLog(prior, levels, HnswBuild.Theta(n0 + n), log, n0, n, left);
  }
}
