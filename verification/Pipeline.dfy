/** The threaded mode of the big batch search: prepare workers, compute workers,
    their two managers and the main thread, connected by two bounded queues. */
module Pipeline {

  /** A queue entry: a bucket (or its result), or the end marker. */
  datatype Item = Bucket(l: nat) | Sentinel

  datatype Worker = Idle | Holding(l: nat) | Reposting | Finished

  datatype Main = Looping | Adding(l: nat) | Stopped

  /** Buckets [first, last), buckets completed before the run, pool sizes. */
  datatype Config = Config(first: nat, last: nat, initial: set<nat>, prefetch: nat, workers: nat)

  datatype State = State(
    scan: nat,              // next bucket the prepare manager looks at
    waiting: set<nat>,      // submitted prepare tasks
    running: set<nat>,      // prepare tasks on a pool thread
    toCompute: seq<Item>,
    workers: seq<Worker>,
    toMain: seq<Item>,
    prepareDone: bool,      // the prepare manager has put its end marker
    computeDone: bool,      // the compute manager has put its end marker
    main: Main,
    results: seq<nat>,      // buckets whose result main has added, in order
    completed: set<nat>)    // shared with the scan of the prepare manager

  datatype Action =
    | Scan | Start(l: nat) | PutPrepared(l: nat) | EndPrepare
    | Get(w: nat) | Put(w: nat) | Repost(w: nat) | EndCompute
    | MainGet | MainAdd

  const CAPACITY: nat := 2

  ghost predicate ValidConfig(c: Config) {
    c.first <= c.last && c.prefetch > 0 && c.workers > 0
  }

  function Init(c: Config): State {
    State(c.first, {}, {}, [], seq(c.workers, _ => Idle), [], false, false, Looping, [], c.initial)
  }

  predicate Enabled(c: Config, s: State, a: Action) {
    match a
    case Scan => s.scan < c.last
    case Start(l) => l in s.waiting && |s.running| < c.prefetch
    case PutPrepared(l) => l in s.running && |s.toCompute| < CAPACITY
    case EndPrepare =>
      s.scan >= c.last && s.waiting == {} && s.running == {} && !s.prepareDone && |s.toCompute| < CAPACITY
    case Get(w) => w < |s.workers| && s.workers[w].Idle? && s.toCompute != []
    case Put(w) => w < |s.workers| && s.workers[w].Holding? && |s.toMain| < CAPACITY
    case Repost(w) => w < |s.workers| && s.workers[w].Reposting? && |s.toCompute| < CAPACITY
    case EndCompute =>
      (forall w :: 0 <= w < |s.workers| ==> s.workers[w].Finished?) && !s.computeDone && |s.toMain| < CAPACITY
    case MainGet => s.main.Looping? && s.toMain != []
    case MainAdd => s.main.Adding?
  }

  function Next(c: Config, s: State, a: Action): State
    requires Enabled(c, s, a)
  {
    match a
    case Scan =>
      if s.scan in s.completed then s.(scan := s.scan + 1)
      else s.(scan := s.scan + 1, waiting := s.waiting + {s.scan})
    case Start(l) => s.(waiting := s.waiting - {l}, running := s.running + {l})
    case PutPrepared(l) => s.(running := s.running - {l}, toCompute := s.toCompute + [Bucket(l)])
    case EndPrepare => s.(prepareDone := true, toCompute := s.toCompute + [Sentinel])
    case Get(w) =>
      var item := s.toCompute[0];
      s.(toCompute := s.toCompute[1..],
         workers := s.workers[w := if item.Sentinel? then Reposting else Holding(item.l)])
    case Put(w) =>
      s.(toMain := s.toMain + [Bucket(s.workers[w].l)], workers := s.workers[w := Idle])
    case Repost(w) => s.(toCompute := s.toCompute + [Sentinel], workers := s.workers[w := Finished])
    case EndCompute => s.(computeDone := true, toMain := s.toMain + [Sentinel])
    case MainGet =>
      var item := s.toMain[0];
      s.(toMain := s.toMain[1..], main := if item.Sentinel? then Stopped else Adding(item.l))
    case MainAdd =>
      s.(main := Looping, results := s.results + [s.main.l], completed := s.completed + {s.main.l})
  }

  // ---- where a bucket is ----

  function One(b: bool): nat { if b then 1 else 0 }

  function InQueue(q: seq<Item>, l: nat): nat {
    if q == [] then 0 else One(q[0] == Bucket(l)) + InQueue(q[1..], l)
  }

  function Held(ws: seq<Worker>, l: nat): nat {
    if ws == [] then 0 else One(ws[0] == Holding(l)) + Held(ws[1..], l)
  }

  function InLog(r: seq<nat>, l: nat): nat {
    if r == [] then 0 else One(r[|r| - 1] == l) + InLog(r[..|r| - 1], l)
  }

  /** In how many places bucket l currently is. */
  function Places(s: State, l: nat): nat {
    One(l in s.waiting) + One(l in s.running) + InQueue(s.toCompute, l)
    + Held(s.workers, l) + InQueue(s.toMain, l) + One(s.main == Adding(l)) + InLog(s.results, l)
  }

  lemma {:induction false} InQueueSnoc(q: seq<Item>, x: Item, l: nat)
    ensures InQueue(q + [x], l) == InQueue(q, l) + One(x == Bucket(l))
  {
    if q == [] {
      assert [x][1..] == [];
    } else {
      InQueueSnoc(q[1..], x, l);
      assert (q + [x])[1..] == q[1..] + [x];
    }
  }

  lemma {:induction false} HeldUpdate(ws: seq<Worker>, w: nat, x: Worker, l: nat)
    requires w < |ws|
    ensures Held(ws[w := x], l) + One(ws[w] == Holding(l)) == Held(ws, l) + One(x == Holding(l))
  {
    if w == 0 {
      assert ws[w := x][1..] == ws[1..];
    } else {
      HeldUpdate(ws[1..], w - 1, x, l);
      assert ws[w := x][1..] == ws[1..][w - 1 := x];
    }
  }

  lemma {:induction false} HeldNone(ws: seq<Worker>, l: nat)
    requires forall w :: 0 <= w < |ws| ==> !ws[w].Holding?
    ensures Held(ws, l) == 0
  {
    if ws != [] { HeldNone(ws[1..], l); }
  }

  lemma {:induction false} InLogMember(r: seq<nat>, l: nat)
    ensures InLog(r, l) > 0 <==> l in r
  {
    if r != [] {
      InLogMember(r[..|r| - 1], l);
      assert r == r[..|r| - 1] + [r[|r| - 1]];
    }
  }

  lemma InLogSnoc(r: seq<nat>, x: nat, l: nat)
    ensures InLog(r + [x], l) == InLog(r, l) + One(x == l)
  {
    assert (r + [x])[..|r|] == r;
  }

  /** Only the scan creates a place for a bucket; every other action moves it. */
  lemma StepPlaces(c: Config, s: State, a: Action, l: nat)
    requires Enabled(c, s, a) && s.waiting !! s.running && (a.Scan? ==> s.scan !in s.waiting && s.scan !in s.running)
    ensures Places(Next(c, s, a), l) == Places(s, l) + One(a.Scan? && l == s.scan && l !in s.completed)
  {
    match a
    case Scan => ScanPlaces(c, s, l);
    case Start(x) => StartPlaces(c, s, x, l);
    case PutPrepared(x) => PreparedPlaces(c, s, x, l);
    case EndPrepare => InQueueSnoc(s.toCompute, Sentinel, l);
    case Get(w) => GetPlaces(c, s, w, l);
    case Put(w) => PutPlaces(c, s, w, l);
    case Repost(w) => RepostPlaces(c, s, w, l);
    case EndCompute => InQueueSnoc(s.toMain, Sentinel, l);
    case MainGet => MainGetPlaces(c, s, l);
    case MainAdd => MainAddPlaces(c, s, l);
  }

  lemma ScanPlaces(c: Config, s: State, l: nat)
    requires Enabled(c, s, Scan) && s.scan !in s.waiting && s.scan !in s.running
    ensures Places(Next(c, s, Scan), l) == Places(s, l) + One(l == s.scan && l !in s.completed)
  {
    var t := Next(c, s, Scan);
    if s.scan !in s.completed {
      assert t.waiting == s.waiting + {s.scan};
    }
    WaitingPlaces(s, t, l);
  }

  lemma WaitingPlaces(s: State, t: State, l: nat)
    requires t == s.(scan := t.scan, waiting := t.waiting)
    ensures Places(t, l) == Places(s, l) - One(l in s.waiting) + One(l in t.waiting)
  {
  }

  lemma StartPlaces(c: Config, s: State, x: nat, l: nat)
    requires Enabled(c, s, Start(x)) && s.waiting !! s.running
    ensures Places(Next(c, s, Start(x)), l) == Places(s, l)
  {
  }

  lemma PreparedPlaces(c: Config, s: State, x: nat, l: nat)
    requires Enabled(c, s, PutPrepared(x))
    ensures Places(Next(c, s, PutPrepared(x)), l) == Places(s, l)
  {
    InQueueSnoc(s.toCompute, Bucket(x), l);
  }

  lemma MainGetPlaces(c: Config, s: State, l: nat)
    requires Enabled(c, s, MainGet)
    ensures Places(Next(c, s, MainGet), l) == Places(s, l)
  {
  }

  lemma MainAddPlaces(c: Config, s: State, l: nat)
    requires Enabled(c, s, MainAdd)
    ensures Places(Next(c, s, MainAdd), l) == Places(s, l)
  {
    InLogSnoc(s.results, s.main.l, l);
  }

  lemma GetPlaces(c: Config, s: State, w: nat, l: nat)
    requires Enabled(c, s, Get(w))
    ensures Places(Next(c, s, Get(w)), l) == Places(s, l)
  {
    var x := s.toCompute[0];
    HeldUpdate(s.workers, w, if x.Sentinel? then Reposting else Holding(x.l), l);
  }

  lemma PutPlaces(c: Config, s: State, w: nat, l: nat)
    requires Enabled(c, s, Put(w))
    ensures Places(Next(c, s, Put(w)), l) == Places(s, l)
  {
    InQueueSnoc(s.toMain, Bucket(s.workers[w].l), l);
    HeldUpdate(s.workers, w, Idle, l);
  }

  lemma RepostPlaces(c: Config, s: State, w: nat, l: nat)
    requires Enabled(c, s, Repost(w))
    ensures Places(Next(c, s, Repost(w)), l) == Places(s, l)
  {
    InQueueSnoc(s.toCompute, Sentinel, l);
    HeldUpdate(s.workers, w, Finished, l);
  }

  // ---- the invariant ----

  /** The buckets to be processed. */
  predicate Wanted(c: Config, l: nat) {
    c.first <= l < c.last && l !in c.initial
  }

  /** Every wanted bucket already scanned is in exactly one place; no other bucket is anywhere. */
  ghost predicate OnePlace(c: Config, s: State) {
    && c.first <= s.scan <= c.last && s.waiting !! s.running
    && forall l: nat :: Places(s, l) == One(Wanted(c, l) && l < s.scan)
  }

  ghost predicate Completions(c: Config, s: State) {
    && (forall l :: l in s.completed <==> l in c.initial || l in s.results)
    && |s.running| <= c.prefetch
  }

  ghost predicate OnlyBuckets(q: seq<Item>) {
    forall i :: 0 <= i < |q| ==> q[i].Bucket?
  }

  ghost predicate EndsWithSentinel(q: seq<Item>) {
    q != [] && q[|q| - 1].Sentinel? && OnlyBuckets(q[..|q| - 1])
  }

  lemma DropFirst(q: seq<Item>)
    requires EndsWithSentinel(q) && |q| > 1
    ensures q[0].Bucket? && EndsWithSentinel(q[1..])
  {
    assert q[0] == q[..|q| - 1][0];
    assert q[1..][..|q| - 2] == q[..|q| - 1][1..];
  }

  ghost predicate AllFinished(ws: seq<Worker>) {
    forall w :: 0 <= w < |ws| ==> ws[w].Finished?
  }

  ghost predicate NoneEnded(ws: seq<Worker>) {
    forall w :: 0 <= w < |ws| ==> ws[w].Idle? || ws[w].Holding?
  }

  ghost predicate NoneReposting(ws: seq<Worker>) {
    forall w :: 0 <= w < |ws| ==> !ws[w].Reposting?
  }

  /** Exactly worker w has the end marker in hand. */
  ghost predicate OnlyReposting(ws: seq<Worker>, w: nat) {
    w < |ws| && forall v :: 0 <= v < |ws| ==> (ws[v].Reposting? <==> v == w)
  }

  /** The end marker of the prepare manager is last in the queue, or in the hands
      of one worker; once a worker has seen it no bucket is left in front of it. */
  ghost predicate FirstMarker(c: Config, s: State) {
    if !s.prepareDone then
      OnlyBuckets(s.toCompute) && NoneEnded(s.workers)
    else
      && s.scan == c.last && s.waiting == {} && s.running == {}
      && if s.toCompute == [] then exists w :: OnlyReposting(s.workers, w)
         else
           && EndsWithSentinel(s.toCompute) && NoneReposting(s.workers)
           && (|s.toCompute| > 1 ==> NoneEnded(s.workers))
  }

  /** The end marker of the compute manager is the last thing main receives. */
  ghost predicate SecondMarker(s: State) {
    if !s.computeDone then OnlyBuckets(s.toMain) && !s.main.Stopped?
    else
      && s.prepareDone && AllFinished(s.workers)
      && if s.main.Stopped? then s.toMain == [] else EndsWithSentinel(s.toMain)
  }

  ghost predicate Inv(c: Config, s: State) {
    && ValidConfig(c) && |s.workers| == c.workers
    && OnePlace(c, s) && Completions(c, s)
    && FirstMarker(c, s) && SecondMarker(s)
  }

  lemma InitInv(c: Config)
    requires ValidConfig(c)
    ensures Inv(c, Init(c))
  {
    forall l: nat ensures Places(Init(c), l) == 0 {
      HeldNone(Init(c).workers, l);
    }
  }

  /** The scan is never misled by `completed` growing under it: it skips exactly
      the buckets that were completed before the run. */
  lemma ScanSeesInitial(c: Config, s: State)
    requires OnePlace(c, s) && Completions(c, s)
    ensures s.scan in s.completed <==> s.scan in c.initial
    ensures s.scan !in s.waiting && s.scan !in s.running
  {
    assert Places(s, s.scan) == 0;
    InLogMember(s.results, s.scan);
  }

  lemma StepOnePlace(c: Config, s: State, a: Action)
    requires OnePlace(c, s) && Completions(c, s) && Enabled(c, s, a)
    ensures OnePlace(c, Next(c, s, a))
  {
    ScanSeesInitial(c, s);
    forall l: nat ensures Places(Next(c, s, a), l) == One(Wanted(c, l) && l < Next(c, s, a).scan) {
      StepPlaces(c, s, a, l);
      assert Places(s, l) == One(Wanted(c, l) && l < s.scan);
    }
  }

  lemma StepCompletions(c: Config, s: State, a: Action)
    requires Completions(c, s) && Enabled(c, s, a)
    ensures Completions(c, Next(c, s, a))
  {
  }

  lemma StepFirstMarker(c: Config, s: State, a: Action)
    requires FirstMarker(c, s) && Enabled(c, s, a) && s.scan <= c.last
    ensures FirstMarker(c, Next(c, s, a))
  {
    if !s.prepareDone {
      if a.EndPrepare? {
        assert Next(c, s, a).toCompute[..|s.toCompute|] == s.toCompute;
      }
    } else {
      match a
      case Get(w) => MarkerAfterGet(c, s, w);
      case Put(w) => MarkerAfterPut(c, s, w);
      case Repost(w) => MarkerAfterRepost(c, s, w);
      case _ =>
    }
  }

  lemma MarkerAfterGet(c: Config, s: State, w: nat)
    requires FirstMarker(c, s) && s.prepareDone && Enabled(c, s, Get(w))
    ensures FirstMarker(c, Next(c, s, Get(w)))
  {
    if |s.toCompute| == 1 {
      assert OnlyReposting(Next(c, s, Get(w)).workers, w);
    } else {
      DropFirst(s.toCompute);
    }
  }

  lemma MarkerAfterPut(c: Config, s: State, w: nat)
    requires FirstMarker(c, s) && s.prepareDone && Enabled(c, s, Put(w))
    ensures FirstMarker(c, Next(c, s, Put(w)))
  {
    if s.toCompute == [] {
      var v :| OnlyReposting(s.workers, v);
      assert OnlyReposting(Next(c, s, Put(w)).workers, v);
    }
  }

  lemma MarkerAfterRepost(c: Config, s: State, w: nat)
    requires FirstMarker(c, s) && s.prepareDone && Enabled(c, s, Repost(w))
    ensures FirstMarker(c, Next(c, s, Repost(w)))
  {
    assert s.toCompute == [];
    var v :| OnlyReposting(s.workers, v);
    assert v == w;
  }

  lemma StepSecondMarker(c: Config, s: State, a: Action)
    requires SecondMarker(s) && FirstMarker(c, s) && Enabled(c, s, a) && s.workers != []
    ensures SecondMarker(Next(c, s, a))
  {
    var s' := Next(c, s, a);
    if a.EndCompute? {
      assert s'.toMain[..|s.toMain|] == s.toMain;
      assert s.workers[0].Finished?;
    } else if a.MainGet? && s.computeDone && |s.toMain| > 1 {
      DropFirst(s.toMain);
    }
  }

  lemma StepInv(c: Config, s: State, a: Action)
    requires Inv(c, s) && Enabled(c, s, a)
    ensures Inv(c, Next(c, s, a))
  {
    StepOnePlace(c, s, a);
    StepCompletions(c, s, a);
    StepFirstMarker(c, s, a);
    StepSecondMarker(c, s, a);
  }

  // ---- runs ----

  ghost predicate Runs(c: Config, s: State, acts: seq<Action>)
    decreases |acts|
  {
    acts == [] || (Enabled(c, s, acts[0]) && Runs(c, Next(c, s, acts[0]), acts[1..]))
  }

  ghost function After(c: Config, s: State, acts: seq<Action>): State
    requires Runs(c, s, acts)
    decreases |acts|
  {
    if acts == [] then s else After(c, Next(c, s, acts[0]), acts[1..])
  }

  lemma {:induction false} RunInv(c: Config, s: State, acts: seq<Action>)
    requires Inv(c, s) && Runs(c, s, acts)
    ensures Inv(c, After(c, s, acts))
    decreases |acts|
  {
    if acts != [] {
      StepInv(c, s, acts[0]);
      RunInv(c, Next(c, s, acts[0]), acts[1..]);
    }
  }

  /** Neither queue ever holds more than two items, and no more lists are fetched at once than there are
      threads for it. */
  ghost predicate Bounded(c: Config, s: State) {
    |s.toCompute| <= 2 && |s.toMain| <= 2 && |s.running| <= c.prefetch
  }

  lemma {:induction false} RunBounded(c: Config, s: State, acts: seq<Action>)
    requires Bounded(c, s) && Runs(c, s, acts)
    ensures Bounded(c, After(c, s, acts))
    decreases |acts|
  {
    if acts != [] {
      RunBounded(c, Next(c, s, acts[0]), acts[1..]);
    }
  }

  // ---- safety ----

  lemma {:induction false} InLogOnce(r: seq<nat>, i: nat, j: nat)
    requires i < j < |r| && r[i] == r[j]
    ensures InLog(r, r[i]) >= 2
  {
    if j == |r| - 1 {
      assert r[..j][i] == r[j];
      InLogMember(r[..j], r[j]);
    } else {
      InLogOnce(r[..|r| - 1], i, j);
    }
  }

  /** At no time has main received a bucket twice, or one that was not wanted. */
  lemma ResultsAtMostOnce(c: Config, acts: seq<Action>)
    requires ValidConfig(c) && Runs(c, Init(c), acts)
    ensures var r := After(c, Init(c), acts).results;
            && (forall i, j :: 0 <= i < j < |r| ==> r[i] != r[j])
            && (forall l :: l in r ==> Wanted(c, l))
  {
    InitInv(c);
    RunInv(c, Init(c), acts);
    var s := After(c, Init(c), acts);
    forall i, j | 0 <= i < j < |s.results| ensures s.results[i] != s.results[j] {
      assert Places(s, s.results[i]) <= 1;
      if s.results[i] == s.results[j] {
        InLogOnce(s.results, i, j);
      }
    }
    forall l | l in s.results ensures Wanted(c, l) {
      InLogMember(s.results, l);
      assert Places(s, l) > 0;
    }
  }

  /** When main sees the end marker it has received every wanted bucket. */
  lemma AllBeforeEndMarker(c: Config, acts: seq<Action>)
    requires ValidConfig(c) && Runs(c, Init(c), acts) && After(c, Init(c), acts).main.Stopped?
    ensures forall l :: l in After(c, Init(c), acts).results <==> Wanted(c, l)
    ensures forall l :: l in After(c, Init(c), acts).completed <==> Wanted(c, l) || l in c.initial
  {
    InitInv(c);
    RunInv(c, Init(c), acts);
    ResultsAtMostOnce(c, acts);
    var s := After(c, Init(c), acts);
    forall l: nat | Wanted(c, l) ensures l in s.results {
      NothingElsewhere(c, s, l);
      assert Places(s, l) == 1;
      InLogMember(s.results, l);
    }
  }

  lemma NothingElsewhere(c: Config, s: State, l: nat)
    requires Inv(c, s) && s.main.Stopped?
    ensures Places(s, l) == InLog(s.results, l)
    ensures s.scan == c.last
  {
    HeldNone(s.workers, l);
    assert s.workers[0].Finished?;
    assert forall v: nat :: OnlyReposting(s.workers, v) ==> s.workers[v].Reposting?;
    assert s.toCompute != [] && |s.toCompute| == 1;
    assert s.toCompute[1..] == [] && s.toCompute[0].Sentinel?;
  }

  // ---- progress ----

  ghost predicate Stuck(c: Config, s: State) {
    forall a :: !Enabled(c, s, a)
  }

  /** Putting the end marker back never blocks. */
  lemma RepostEnabled(c: Config, s: State, w: nat)
    requires Inv(c, s) && w < |s.workers| && s.workers[w].Reposting?
    ensures Enabled(c, s, Repost(w))
  {
  }

  /** Deadlock freedom: until main has stopped, some thread can move. */
  lemma NeverStuck(c: Config, s: State)
    requires Inv(c, s) && !s.main.Stopped?
    ensures !Stuck(c, s)
  {
    if s.main.Adding? {
      assert Enabled(c, s, MainAdd);
    } else if s.toMain != [] {
      assert Enabled(c, s, MainGet);
    } else if AllFinished(s.workers) {
      assert Enabled(c, s, EndCompute);
    } else {
      var w :| 0 <= w < |s.workers| && !s.workers[w].Finished?;
      match s.workers[w]
      case Holding(_) => assert Enabled(c, s, Put(w));
      case Reposting => RepostEnabled(c, s, w);
      case Idle =>
        if s.toCompute != [] {
          assert Enabled(c, s, Get(w));
        } else if s.prepareDone {
          var v :| OnlyReposting(s.workers, v);
          RepostEnabled(c, s, v);
        } else {
          PreparersMove(c, s);
        }
    }
  }

  lemma PreparersMove(c: Config, s: State)
    requires Inv(c, s) && s.toCompute == [] && !s.prepareDone
    ensures !Stuck(c, s)
  {
    if l :| l in s.running {
      assert Enabled(c, s, PutPrepared(l));
    } else if l :| l in s.waiting {
      assert s.running == {};
      assert Enabled(c, s, Start(l));
    } else if s.scan < c.last {
      assert Enabled(c, s, Scan);
    } else {
      assert s.running == {} && s.waiting == {};
      assert Enabled(c, s, EndPrepare);
    }
  }

  /** Steps a worker still has to take, apart from those for its bucket. */
  function Pending(ws: seq<Worker>): nat {
    if ws == [] then 0
    else Effort(ws[0]) + Pending(ws[1..])
  }

  function Load(q: seq<Item>, weight: nat): nat {
    if q == [] then 0 else (if q[0].Bucket? then weight else 0) + Load(q[1..], weight)
  }

  /** An upper bound on the number of steps that remain. */
  function Remaining(c: Config, s: State): nat
    requires s.scan <= c.last
  {
    7 * (c.last - s.scan) + 6 * |s.waiting| + 5 * |s.running| + Load(s.toCompute, 4) + Pending(s.workers)
    + Load(s.toMain, 2) + One(!s.prepareDone) + One(!s.computeDone)
    + (match s.main case Looping => 1 case Adding(_) => 2 case Stopped => 0)
  }

  lemma {:induction false} LoadSnoc(q: seq<Item>, x: Item, weight: nat)
    ensures Load(q + [x], weight) == Load(q, weight) + if x.Bucket? then weight else 0
  {
    if q == [] {
      assert [x][1..] == [];
    } else {
      LoadSnoc(q[1..], x, weight);
      assert (q + [x])[1..] == q[1..] + [x];
    }
  }

  lemma {:induction false} PendingUpdate(ws: seq<Worker>, w: nat, x: Worker)
    requires w < |ws|
    ensures Pending(ws[w := x]) + Pending([ws[w]]) == Pending(ws) + Pending([x])
  {
    if w == 0 {
      assert ws[w := x][1..] == ws[1..];
    } else {
      PendingUpdate(ws[1..], w - 1, x);
      assert ws[w := x][1..] == ws[1..][w - 1 := x];
    }
  }

  /** Every step uses up part of the bound. */
  lemma StepRemaining(c: Config, s: State, a: Action)
    requires Enabled(c, s, a) && s.scan <= c.last && s.waiting !! s.running
    requires a.Scan? ==> s.scan !in s.waiting
    ensures Next(c, s, a).scan <= c.last
    ensures Remaining(c, Next(c, s, a)) < Remaining(c, s)
  {
    match a
    case Scan => ScanRemaining(c, s);
    case Start(l) => StartRemaining(c, s, l);
    case PutPrepared(l) => PreparedRemaining(c, s, l);
    case EndPrepare => LoadSnoc(s.toCompute, Sentinel, 4);
    case Get(w) => GetRemaining(c, s, w);
    case Put(w) => PutRemaining(c, s, w);
    case Repost(w) => RepostRemaining(c, s, w);
    case EndCompute => LoadSnoc(s.toMain, Sentinel, 2);
    case MainGet => MainGetRemaining(c, s);
    case MainAdd =>
  }

  lemma ScanRemaining(c: Config, s: State)
    requires Enabled(c, s, Scan) && s.scan <= c.last && s.scan !in s.waiting
    ensures Next(c, s, Scan).scan <= c.last
    ensures Remaining(c, Next(c, s, Scan)) < Remaining(c, s)
  {
    assert |s.waiting + {s.scan}| == |s.waiting| + 1;
  }

  lemma PreparedRemaining(c: Config, s: State, l: nat)
    requires Enabled(c, s, PutPrepared(l)) && s.scan <= c.last
    ensures Remaining(c, Next(c, s, PutPrepared(l))) < Remaining(c, s)
  {
    LoadSnoc(s.toCompute, Bucket(l), 4);
    assert |s.running - {l}| == |s.running| - 1;
  }

  lemma MainGetRemaining(c: Config, s: State)
    requires Enabled(c, s, MainGet) && s.scan <= c.last
    ensures Remaining(c, Next(c, s, MainGet)) < Remaining(c, s)
  {
  }

  lemma StartRemaining(c: Config, s: State, l: nat)
    requires Enabled(c, s, Start(l)) && s.scan <= c.last && s.waiting !! s.running
    ensures Remaining(c, Next(c, s, Start(l))) < Remaining(c, s)
  {
    assert |s.waiting - {l}| == |s.waiting| - 1;
    assert |s.running + {l}| <= |s.running| + 1;
  }

  lemma GetRemaining(c: Config, s: State, w: nat)
    requires Enabled(c, s, Get(w)) && s.scan <= c.last
    ensures Remaining(c, Next(c, s, Get(w))) < Remaining(c, s)
  {
    var x := s.toCompute[0];
    var ended := if x.Sentinel? then Reposting else Holding(x.l);
    PendingUpdate(s.workers, w, ended);
    PendingOne(s.workers[w]);
    PendingOne(ended);
  }

  lemma PutRemaining(c: Config, s: State, w: nat)
    requires Enabled(c, s, Put(w)) && s.scan <= c.last
    ensures Remaining(c, Next(c, s, Put(w))) < Remaining(c, s)
  {
    LoadSnoc(s.toMain, Bucket(s.workers[w].l), 2);
    PendingUpdate(s.workers, w, Idle);
    PendingOne(s.workers[w]);
    PendingOne(Idle);
  }

  lemma RepostRemaining(c: Config, s: State, w: nat)
    requires Enabled(c, s, Repost(w)) && s.scan <= c.last
    ensures Remaining(c, Next(c, s, Repost(w))) < Remaining(c, s)
  {
    LoadSnoc(s.toCompute, Sentinel, 4);
    PendingUpdate(s.workers, w, Finished);
    PendingOne(s.workers[w]);
    PendingOne(Finished);
  }

  function Effort(w: Worker): nat {
    match w case Idle => 2 case Holding(_) => 5 case Reposting => 1 case Finished => 0
  }

  lemma PendingOne(w: Worker)
    ensures Pending([w]) == Effort(w)
  {
    assert [w][1..] == [];
  }

  /** Every run is finite: it has at most Remaining(initial state) steps. */
  lemma {:induction false} RunsAreBounded(c: Config, s: State, acts: seq<Action>)
    requires Inv(c, s) && Runs(c, s, acts)
    ensures After(c, s, acts).scan <= c.last
    ensures |acts| + Remaining(c, After(c, s, acts)) <= Remaining(c, s)
    decreases |acts|
  {
    if acts != [] {
      ScanSeesInitial(c, s);
      StepRemaining(c, s, acts[0]);
      StepInv(c, s, acts[0]);
      RunsAreBounded(c, Next(c, s, acts[0]), acts[1..]);
    }
  }

  /** Every run that cannot be continued has delivered every wanted bucket exactly once. */
  lemma MaximalRunsDeliver(c: Config, acts: seq<Action>)
    requires ValidConfig(c) && Runs(c, Init(c), acts) && Stuck(c, After(c, Init(c), acts))
    ensures var s := After(c, Init(c), acts);
            && s.main.Stopped? && s.prepareDone && s.computeDone
            && (forall l :: l in s.results <==> c.first <= l < c.last && l !in c.initial)
            && (forall i, j :: 0 <= i < j < |s.results| ==> s.results[i] != s.results[j])
  {
    InitInv(c);
    RunInv(c, Init(c), acts);
    if !After(c, Init(c), acts).main.Stopped? {
      NeverStuck(c, After(c, Init(c), acts));
    }
    ResultsAtMostOnce(c, acts);
    AllBeforeEndMarker(c, acts);
  }
}
