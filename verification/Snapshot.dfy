/** Phase A of the deterministic HNSW build: the searches of a batch run while other threads
    write the rows of their own points, and see nothing of it. */
module Snapshot {
  import opened Permutations
  import opened PhaseB
  import opened ReverseEdges

  /** What a search has done so far: rows it read, links it wrote into its own rows. */
  datatype Event = Saw(level: int, node: int, row: seq<int>) | Linked(level: int, other: int)

  /** What it does next: read a row, write a link, or end. */
  datatype Action = Look(level: int, node: int) | Put(level: int, other: int) | Stop

  /** The search for the links of a point, as a function of what it has done so far. */
  type Search = (int, seq<Event>) -> Action

  /** The search has met node v: its entry point, or a node in a row that it read. */
  ghost predicate Knows(entry: int, h: seq<Event>, v: int) {
    v == entry || exists i :: 0 <= i < |h| && h[i].Saw? && v in h[i].row
  }

  /** A search reads rows of nodes that it has met, and links its point to such nodes only,
      never to itself. */
  ghost predicate FollowsLinks(search: Search, entry: int) {
    forall p: int, h: seq<Event> {:trigger search(p, h)} ::
      && (search(p, h).Look? ==> Knows(entry, h, search(p, h).node))
      && (search(p, h).Put? ==> Knows(entry, h, search(p, h).other) && search(p, h).other != p)
  }

  // ---- all searches of a batch at once ----

  /** The shared graph, and the history of each point of the batch. */
  datatype State = State(g: Graph, hist: seq<seq<Event>>)

  function Start(g: Graph, points: seq<nat>): State {
    State(g, seq(|points|, _ => []))
  }

  /** Point number k does its next step on the shared graph. */
  ghost predicate Moves(search: Search, points: seq<nat>, k: nat, s: State, s': State) {
    && k < |points| == |s.hist|
    && match search(points[k], s.hist[k])
       case Look(l, d) => s' == State(s.g, s.hist[k := s.hist[k] + [Saw(l, d, Row(s.g, l, d))]])
       case Put(l, o) =>
         s' == State(s.g[(l, points[k]) := Row(s.g, l, points[k]) + [o]], s.hist[k := s.hist[k] + [Linked(l, o)]])
       case Stop => false
  }

  ghost predicate Step(search: Search, points: seq<nat>, s: State, s': State) {
    exists k :: Moves(search, points, k, s, s')
  }

  /** An interleaving of the searches of a batch, from graph g on. */
  ghost predicate Run(search: Search, points: seq<nat>, g: Graph, run: seq<State>) {
    && run != [] && run[0] == Start(g, points)
    && forall i :: 0 <= i < |run| - 1 ==> Step(search, points, run[i], run[i + 1])
  }

  ghost predicate AllStopped(search: Search, points: seq<nat>, s: State) {
    |s.hist| == |points| && forall k :: 0 <= k < |points| ==> search(points[k], s.hist[k]).Stop?
  }

  // ---- one search alone ----

  /** The links that a search has written on one level. */
  function Own(h: seq<Event>, l: int): seq<int> {
    if h == [] then []
    else
      var e := h[|h| - 1];
      Own(h[..|h| - 1], l) + if e.Linked? && e.level == l then [e.other] else []
  }

  /** The row of node d as point p sees it when nobody else writes. */
  function View(g: Graph, p: int, h: seq<Event>, l: int, d: int): seq<int> {
    if d == p then Row(g, l, d) + Own(h, l) else Row(g, l, d)
  }

  /** The first n steps of the search of point p, alone on the graph g. */
  function Solo(search: Search, g: Graph, p: int, n: nat): seq<Event> {
    if n == 0 then []
    else
      var h := Solo(search, g, p, n - 1);
      match search(p, h)
      case Look(l, d) => h + [Saw(l, d, View(g, p, h, l, d))]
      case Put(l, o) => h + [Linked(l, o)]
      case Stop => h
  }

  ghost predicate Alone(search: Search, g: Graph, p: int, h: seq<Event>) {
    h == Solo(search, g, p, |h|)
  }

  // ---- what is out of reach ----

  /** Only nodes of `done` have links, and only to nodes of `done`. */
  ghost predicate Closed(g: Graph, done: set<int>) {
    forall l, d, v {:trigger v in Row(g, l, d)} :: v in Row(g, l, d) ==> d in done && v in done
  }

  /** A batch of new points over a closed graph.  The entry point is linked already, or it is
      the only point of the batch. */
  ghost predicate Ready(g: Graph, points: seq<nat>, entry: int, done: set<int>) {
    && Closed(g, done) && Distinct(points)
    && (forall k :: 0 <= k < |points| ==> points[k] !in done)
    && (entry in done || (|points| == 1 && points[0] == entry))
  }

  /** The search of p has met no other point of the batch, and linked p to old nodes only. */
  ghost predicate Unaware(entry: int, p: int, h: seq<Event>, done: set<int>) {
    && (forall v :: Knows(entry, h, v) ==> v in done || v == p)
    && (forall l, v :: v in Own(h, l) ==> v in done)
  }

  /** The rows of point p hold the links that its search has written. */
  ghost predicate OwnRows(g: Graph, p: int, h: seq<Event>) {
    forall l :: Row(g, l, p) == Own(h, l)
  }

  /** The search of p has done what it would have done alone on g. */
  ghost predicate Isolated(search: Search, entry: int, done: set<int>, g: Graph, p: int, h: seq<Event>) {
    Alone(search, g, p, h) && Unaware(entry, p, h, done)
  }

  ghost predicate OldRows(g: Graph, g': Graph, points: seq<nat>) {
    forall l, d :: d !in points ==> Row(g', l, d) == Row(g, l, d)
  }

  /** Every search is isolated; the rows of the points hold their own links, all other rows
      are as before. */
  ghost predicate Inv(search: Search, points: seq<nat>, entry: int, done: set<int>, g: Graph, s: State) {
    OldRows(g, s.g, points) && AllIsolated(search, points, entry, done, g, s.hist) && AllOwn(s.g, points, s.hist)
  }

  ghost predicate AllIsolated(search: Search, points: seq<nat>, entry: int, done: set<int>, g: Graph, hist: seq<seq<Event>>) {
    |hist| == |points| && forall k :: 0 <= k < |points| ==> Isolated(search, entry, done, g, points[k], hist[k])
  }

  ghost predicate AllOwn(g: Graph, points: seq<nat>, hist: seq<seq<Event>>) {
    |hist| == |points| && forall k :: 0 <= k < |points| ==> OwnRows(g, points[k], hist[k])
  }

  lemma OneIsolated(search: Search, points: seq<nat>, entry: int, done: set<int>, g: Graph, hist: seq<seq<Event>>,
                    k: nat, h: seq<Event>)
    requires AllIsolated(search, points, entry, done, g, hist) && k < |points|
    requires Isolated(search, entry, done, g, points[k], h)
    ensures AllIsolated(search, points, entry, done, g, hist[k := h])
  {
  }

  lemma OwnNext(h: seq<Event>, e: Event, l: int)
    ensures Own(h + [e], l) == Own(h, l) + if e.Linked? && e.level == l then [e.other] else []
  {
    assert (h + [e])[..|h|] == h;
  }

  lemma KnowsNext(entry: int, h: seq<Event>, e: Event, v: int)
    requires Knows(entry, h + [e], v)
    ensures Knows(entry, h, v) || (e.Saw? && v in e.row)
  {
    if v != entry {
      var i :| 0 <= i < |h + [e]| && (h + [e])[i].Saw? && v in (h + [e])[i].row;
      if i < |h| {
        assert h[i].Saw? && v in h[i].row;
      }
    }
  }

  lemma ClosedAt(g: Graph, done: set<int>, l: int, d: int, v: int)
    requires Closed(g, done) && v in Row(g, l, d)
    ensures d in done && v in done
  {
  }

  lemma NoLinksYet(g: Graph, p: int, done: set<int>)
    requires Closed(g, done) && p !in done
    ensures OwnRows(g, p, [])
  {
    forall l ensures Row(g, l, p) == Own([], l) {
      if Row(g, l, p) != [] {
        ClosedAt(g, done, l, p, Row(g, l, p)[0]);
      }
    }
  }

  lemma StartInv(search: Search, points: seq<nat>, entry: int, done: set<int>, g: Graph)
    requires Ready(g, points, entry, done)
    ensures Inv(search, points, entry, done, g, Start(g, points))
  {
    forall k | 0 <= k < |points|
      ensures Isolated(search, entry, done, g, points[k], []) && OwnRows(g, points[k], [])
    {
      NoLinksYet(g, points[k], done);
      forall v | Knows(entry, [], v) ensures v in done || v == points[k] {
        assert v == entry;
      }
    }
  }

  /** The row that a search reads is the one that it would read alone. */
  lemma SeesOwnView(points: seq<nat>, done: set<int>, g: Graph, g': Graph, p: int, h: seq<Event>, l: int, d: int)
    requires Closed(g, done) && OldRows(g, g', points) && OwnRows(g', p, h) && p !in done
    requires forall k :: 0 <= k < |points| ==> points[k] !in done
    requires d in done || d == p
    ensures Row(g', l, d) == View(g, p, h, l, d)
  {
    if d == p {
      NoLinksYet(g, p, done);
      assert Row(g, l, p) == Own([], l);
    }
  }

  lemma ViewIsOld(done: set<int>, g: Graph, entry: int, p: int, h: seq<Event>, l: int, d: int, v: int)
    requires Closed(g, done) && Unaware(entry, p, h, done) && v in View(g, p, h, l, d)
    ensures v in done
  {
    if d == p {
      assert v in Row(g, l, d) || v in Own(h, l);
    }
  }

  /** One step of a search alone. */
  lemma SoloNext(search: Search, g: Graph, p: int, h: seq<Event>, e: Event)
    requires Alone(search, g, p, h)
    requires match search(p, h)
             case Look(l, d) => e == Saw(l, d, View(g, p, h, l, d))
             case Put(l, o) => e == Linked(l, o)
             case Stop => false
    ensures Alone(search, g, p, h + [e])
  {
    assert Solo(search, g, p, |h| + 1) == h + [e];
  }

  lemma LookIsolated(search: Search, entry: int, done: set<int>, g: Graph, p: int, h: seq<Event>, l: int, d: int,
                     row: seq<int>)
    requires Closed(g, done) && Isolated(search, entry, done, g, p, h)
    requires search(p, h) == Look(l, d) && row == View(g, p, h, l, d)
    ensures Isolated(search, entry, done, g, p, h + [Saw(l, d, row)])
    ensures forall m :: Own(h + [Saw(l, d, row)], m) == Own(h, m)
  {
    var e := Saw(l, d, row);
    SoloNext(search, g, p, h, e);
    forall m ensures Own(h + [e], m) == Own(h, m) {
      OwnNext(h, e, m);
    }
    forall v | Knows(entry, h + [e], v) ensures v in done || v == p {
      KnowsNext(entry, h, e, v);
      if v in row {
        ViewIsOld(done, g, entry, p, h, l, d, v);
      }
    }
  }

  lemma PutIsolated(search: Search, entry: int, done: set<int>, g: Graph, p: int, h: seq<Event>, l: int, o: int)
    requires Isolated(search, entry, done, g, p, h)
    requires search(p, h) == Put(l, o) && o in done
    ensures Isolated(search, entry, done, g, p, h + [Linked(l, o)])
    ensures forall m :: Own(h + [Linked(l, o)], m) == Own(h, m) + if m == l then [o] else []
  {
    var e := Linked(l, o);
    SoloNext(search, g, p, h, e);
    forall m ensures Own(h + [e], m) == Own(h, m) + if m == l then [o] else [] {
      OwnNext(h, e, m);
    }
    forall v | Knows(entry, h + [e], v) ensures v in done || v == p {
      KnowsNext(entry, h, e, v);
    }
  }

  lemma LookInv(search: Search, points: seq<nat>, entry: int, done: set<int>, g: Graph, s: State, k: nat,
                l: int, d: int, h': seq<Event>)
    requires Ready(g, points, entry, done) && Inv(search, points, entry, done, g, s)
    requires k < |points| && search(points[k], s.hist[k]) == Look(l, d) && (d in done || d == points[k])
    requires h' == s.hist[k] + [Saw(l, d, Row(s.g, l, d))]
    ensures Inv(search, points, entry, done, g, State(s.g, s.hist[k := h']))
  {
    var p, h := points[k], s.hist[k];
    assert Isolated(search, entry, done, g, p, h) && OwnRows(s.g, p, h);
    SeesOwnView(points, done, g, s.g, p, h, l, d);
    LookIsolated(search, entry, done, g, p, h, l, d, Row(s.g, l, d));
    OneIsolated(search, points, entry, done, g, s.hist, k, h');
    assert OwnRows(s.g, p, h');
  }

  lemma PutInv(search: Search, points: seq<nat>, entry: int, done: set<int>, g: Graph, s: State, k: nat,
               l: int, o: int, h': seq<Event>, g': Graph)
    requires Ready(g, points, entry, done) && Inv(search, points, entry, done, g, s)
    requires k < |points| && search(points[k], s.hist[k]) == Put(l, o) && o in done
    requires h' == s.hist[k] + [Linked(l, o)] && g' == s.g[(l, points[k]) := Row(s.g, l, points[k]) + [o]]
    ensures Inv(search, points, entry, done, g, State(g', s.hist[k := h']))
  {
    var p, h := points[k], s.hist[k];
    assert Isolated(search, entry, done, g, p, h) && OwnRows(s.g, p, h);
    PutIsolated(search, entry, done, g, p, h, l, o);
    OneIsolated(search, points, entry, done, g, s.hist, k, h');
    PutRows(s.g, g', p, h, h', l, o);
    OtherRows(points, s.hist, g, s.g, g', k, l, Row(s.g, l, p) + [o], h');
  }

  /** Writing the row of one point leaves the rows of all other nodes. */
  lemma OtherRows(points: seq<nat>, hist: seq<seq<Event>>, old': Graph, g: Graph, g': Graph, k: nat, l: int, row: seq<int>,
                  h: seq<Event>)
    requires k < |points| == |hist| && Distinct(points) && g' == g[(l, points[k]) := row]
    requires OldRows(old', g, points) && AllOwn(g, points, hist) && OwnRows(g', points[k], h)
    ensures OldRows(old', g', points) && AllOwn(g', points, hist[k := h])
  {
    forall m, d | d !in points ensures Row(g', m, d) == Row(old', m, d) {
      assert points[k] in points;
    }
    forall j, m | 0 <= j < |points| && j != k ensures Row(g', m, points[j]) == Own(hist[j], m) {
      assert OwnRows(g, points[j], hist[j]);
      assert Row(g, m, points[j]) == Own(hist[j], m);
      assert points[j] != points[k];
    }
  }

  lemma PutRows(g: Graph, g': Graph, p: int, h: seq<Event>, h': seq<Event>, l: int, o: int)
    requires OwnRows(g, p, h) && g' == g[(l, p) := Row(g, l, p) + [o]]
    requires forall m :: Own(h', m) == Own(h, m) + if m == l then [o] else []
    ensures OwnRows(g', p, h')
  {
    forall m ensures Row(g', m, p) == Own(h', m) {
      assert Row(g, m, p) == Own(h, m);
    }
  }

  /** Every step of every search keeps this. */
  lemma StepInv(search: Search, points: seq<nat>, entry: int, done: set<int>, g: Graph, s: State, s': State)
    requires FollowsLinks(search, entry) && Ready(g, points, entry, done) && Inv(search, points, entry, done, g, s)
    requires Step(search, points, s, s')
    ensures Inv(search, points, entry, done, g, s')
  {
    var k: nat :| Moves(search, points, k, s, s');
    assert Isolated(search, entry, done, g, points[k], s.hist[k]);
    match search(points[k], s.hist[k])
    case Look(l, d) => LookInv(search, points, entry, done, g, s, k, l, d, s'.hist[k]);
    case Put(l, o) => PutInv(search, points, entry, done, g, s, k, l, o, s'.hist[k], s'.g);
  }

  /** In every state of every interleaving each search has done what it does alone on the
      graph before the batch. */
  lemma {:induction false} RunInv(search: Search, points: seq<nat>, entry: int, done: set<int>, g: Graph, run: seq<State>, i: nat)
    requires FollowsLinks(search, entry) && Ready(g, points, entry, done) && Run(search, points, g, run) && i < |run|
    ensures Inv(search, points, entry, done, g, run[i])
  {
    if i == 0 {
      StartInv(search, points, entry, done, g);
    } else {
      RunInv(search, points, entry, done, g, run, i - 1);
      assert Step(search, points, run[i - 1], run[i - 1 + 1]);
      StepInv(search, points, entry, done, g, run[i - 1], run[i]);
    }
  }

  // ---- two runs ----

  ghost predicate SameLinks(g: Graph, h: Graph) {
    forall l, d :: Row(g, l, d) == Row(h, l, d)
  }

  lemma {:induction false} SoloSame(search: Search, g: Graph, g': Graph, p: int, n: nat)
    requires SameLinks(g, g')
    ensures Solo(search, g, p, n) == Solo(search, g', p, n)
  {
    if n > 0 {
      SoloSame(search, g, g', p, n - 1);
      var h := Solo(search, g, p, n - 1);
      match search(p, h)
      case Look(l, d) => assert Row(g, l, d) == Row(g', l, d);
      case _ =>
    }
  }

  /** A search that has ended stays as it is. */
  lemma {:induction false} SoloEnded(search: Search, g: Graph, p: int, n: nat, m: nat)
    requires n <= m && search(p, Solo(search, g, p, n)).Stop?
    ensures Solo(search, g, p, m) == Solo(search, g, p, n)
  {
    if n < m {
      SoloEnded(search, g, p, n, m - 1);
    }
  }

  lemma SameHistory(search: Search, g: Graph, p: int, h: seq<Event>, h': seq<Event>)
    requires Alone(search, g, p, h) && search(p, h).Stop? && Alone(search, g, p, h') && search(p, h').Stop?
    ensures h == h'
  {
    if |h| <= |h'| {
      SoloEnded(search, g, p, |h|, |h'|);
    } else {
      SoloEnded(search, g, p, |h'|, |h|);
    }
  }

  /** Two complete interleavings over the same links end with the same histories and the
      same links. */
  lemma SameSearches(search: Search, points: seq<nat>, entry: int, done: set<int>,
                     g: Graph, s: State, g': Graph, s': State)
    requires SameLinks(g, g')
    requires Inv(search, points, entry, done, g, s) && AllStopped(search, points, s)
    requires Inv(search, points, entry, done, g', s') && AllStopped(search, points, s')
    ensures s.hist == s'.hist && SameLinks(s.g, s'.g)
  {
    forall k | 0 <= k < |points| ensures s.hist[k] == s'.hist[k] {
      SoloSame(search, g, g', points[k], |s'.hist[k]|);
      assert Isolated(search, entry, done, g, points[k], s.hist[k]);
      assert Isolated(search, entry, done, g', points[k], s'.hist[k]);
      SameHistory(search, g, points[k], s.hist[k], s'.hist[k]);
    }
    forall l, d ensures Row(s.g, l, d) == Row(s'.g, l, d) {
      if d in points {
        var k :| 0 <= k < |points| && points[k] == d;
        assert OwnRows(s.g, points[k], s.hist[k]) && OwnRows(s'.g, points[k], s'.hist[k]);
        assert Row(s.g, l, d) == Own(s.hist[k], l) == Row(s'.g, l, d);
      } else {
        assert Row(g, l, d) == Row(g', l, d);
      }
    }
  }

  // ---- reverse edges ----

  /** The reverse edges of a point: one per link that its search wrote, in order. */
  function EdgesOf(p: int, h: seq<Event>): seq<Edge> {
    if h == [] then []
    else
      var e := h[|h| - 1];
      EdgesOf(p, h[..|h| - 1]) + if e.Linked? then [Edge(e.level, e.other, p)] else []
  }

  function AllEdges(points: seq<nat>, hist: seq<seq<Event>>): (edges: seq<seq<Edge>>)
    requires |hist| == |points|
    ensures |edges| == |points|
  {
    seq(|points|, k requires 0 <= k < |points| => EdgesOf(points[k], hist[k]))
  }

  /** One for each link, as often as that was written. */
  lemma {:induction false} EdgesMeaning(p: int, h: seq<Event>, l: int, o: int)
    ensures multiset(EdgesOf(p, h))[Edge(l, o, p)] == multiset(Own(h, l))[o]
  {
    if h != [] {
      EdgesMeaning(p, h[..|h| - 1], l, o);
    }
  }

  /** They lead to old nodes, from the point. */
  lemma {:induction false} EdgesLead(p: int, h: seq<Event>, done: set<int>)
    requires forall l, v :: v in Own(h, l) ==> v in done
    ensures forall e :: e in EdgesOf(p, h) ==> e.dest in done && e.src == p
  {
    if h != [] {
      var front, e := h[..|h| - 1], h[|h| - 1];
      assert h == front + [e];
      forall l ensures Own(h, l) == Own(front, l) + if e.Linked? && e.level == l then [e.other] else [] {
        OwnNext(front, e, l);
      }
      assert e.Linked? ==> e.other in Own(h, e.level);
      EdgesLead(p, front, done);
    }
  }
}
