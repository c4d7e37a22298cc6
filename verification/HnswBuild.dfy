/** The deterministic HNSW build: bucket the new points by level, then insert each
    bucket, highest first, in prefix-doubling batches.  Within a batch the forward links
    are computed against a snapshot, so what matters here is which points form a batch and
    which entry point it starts from. */
module HnswBuild {
  import opened Arithmetic
  import opened Permutations

  // ---- bucketing by level ----

  /** The new points n0 .. n0+i-1 whose top level is l, in increasing order. */
  function Bucket(levels: seq<nat>, n0: nat, i: nat, l: nat): seq<nat>
    requires n0 + i <= |levels|
  {
    if i == 0 then []
    else Bucket(levels, n0, i - 1, l) + if levels[n0 + i - 1] == l + 1 then [n0 + i - 1] else []
  }

  /** Where bucket l starts in the sorted order. */
  function Start(levels: seq<nat>, n0: nat, n: nat, l: nat): nat
    requires n0 + n <= |levels|
  {
    if l == 0 then 0 else Start(levels, n0, n, l - 1) + |Bucket(levels, n0, n, l - 1)|
  }

  /** The buckets below l, one after the other. */
  function Buckets(levels: seq<nat>, n0: nat, n: nat, l: nat): seq<nat>
    requires n0 + n <= |levels|
  {
    if l == 0 then [] else Buckets(levels, n0, n, l - 1) + Bucket(levels, n0, n, l - 1)
  }

  function Ids(n0: nat, n: nat): seq<nat> {
    seq(n, i requires 0 <= i < n => n0 + i)
  }

  lemma {:induction false} BucketPrefix(levels: seq<nat>, n0: nat, i: nat, n: nat, l: nat)
    requires i <= n && n0 + n <= |levels|
    ensures Bucket(levels, n0, i, l) <= Bucket(levels, n0, n, l)
  {
    if i < n { BucketPrefix(levels, n0, i, n - 1, l); }
  }

  lemma {:induction false} BucketMembers(levels: seq<nat>, n0: nat, n: nat, l: nat)
    requires n0 + n <= |levels|
    ensures forall x :: x in Bucket(levels, n0, n, l) <==> n0 <= x < n0 + n && levels[x] == l + 1
    ensures Distinct(Bucket(levels, n0, n, l))
  {
    if n > 0 { BucketMembers(levels, n0, n - 1, l); }
  }

  lemma {:induction false} BucketsMembers(levels: seq<nat>, n0: nat, n: nat, l: nat)
    requires n0 + n <= |levels| && forall i :: n0 <= i < n0 + n ==> levels[i] >= 1
    ensures forall x :: x in Buckets(levels, n0, n, l) <==> n0 <= x < n0 + n && levels[x] <= l
    ensures Distinct(Buckets(levels, n0, n, l))
  {
    if l > 0 {
      var a, b := Buckets(levels, n0, n, l - 1), Bucket(levels, n0, n, l - 1);
      BucketsMembers(levels, n0, n, l - 1);
      BucketMembers(levels, n0, n, l - 1);
      DistinctConcat(a, b);
    }
  }

  /** Bucketing loses and duplicates nothing. */
  lemma BucketsAreAll(levels: seq<nat>, n0: nat, n: nat, l: nat)
    requires n0 + n <= |levels| && forall i :: n0 <= i < n0 + n ==> 1 <= levels[i] <= l
    ensures multiset(Buckets(levels, n0, n, l)) == multiset(Ids(n0, n))
  {
    BucketsMembers(levels, n0, n, l);
    var a, b := Buckets(levels, n0, n, l), Ids(n0, n);
    forall x: nat ensures x in b <==> n0 <= x < n0 + n {
      if n0 <= x < n0 + n { assert b[x - n0] == x; }
    }
    Permutations.SameSet(a, b);
  }

  lemma {:induction false} BucketsLength(levels: seq<nat>, n0: nat, n: nat, l: nat)
    requires n0 + n <= |levels|
    ensures |Buckets(levels, n0, n, l)| == Start(levels, n0, n, l)
  {
    if l > 0 { BucketsLength(levels, n0, n, l - 1); }
  }

  lemma {:induction false} StartMonotone(levels: seq<nat>, n0: nat, n: nat, l: nat, m: nat)
    requires n0 + n <= |levels| && l < m
    ensures Start(levels, n0, n, l) + |Bucket(levels, n0, n, l)| <= Start(levels, n0, n, m)
  {
    if l + 1 < m { StartMonotone(levels, n0, n, l, m - 1); }
  }

  /** Histogram of the levels, grown on demand. */
  method Histogram(levels: seq<nat>, n0: nat, n: nat) returns (hist: seq<nat>)
    requires n0 + n == |levels| && forall i :: n0 <= i < n0 + n ==> levels[i] >= 1
    ensures forall l {:trigger hist[l]} :: 0 <= l < |hist| ==> hist[l] == |Bucket(levels, n0, n, l)|
    ensures forall i :: n0 <= i < n0 + n ==> levels[i] <= |hist|
    ensures n > 0 ==> hist != []
  {
    hist := [];
    for i := 0 to n
      invariant forall l {:trigger hist[l]} :: 0 <= l < |hist| ==> hist[l] == |Bucket(levels, n0, i, l)|
      invariant forall l: nat :: |hist| <= l ==> Bucket(levels, n0, i, l) == []
      invariant forall j :: n0 <= j < n0 + i ==> levels[j] <= |hist|
      invariant i > 0 ==> hist != []
    {
      var ptLevel := levels[n0 + i] - 1;
      while ptLevel >= |hist|
        invariant forall l {:trigger hist[l]} :: 0 <= l < |hist| ==> hist[l] == |Bucket(levels, n0, i, l)|
        invariant forall l: nat :: |hist| <= l ==> Bucket(levels, n0, i, l) == []
        invariant forall j :: n0 <= j < n0 + i ==> levels[j] <= |hist|
      {
        hist := hist + [0];
      }
      hist := hist[ptLevel := hist[ptLevel] + 1];
    }
  }

  method PrefixSums(levels: seq<nat>, n0: nat, n: nat, hist: seq<nat>) returns (offsets: seq<nat>)
    requires n0 + n == |levels|
    requires forall l {:trigger hist[l]} :: 0 <= l < |hist| ==> hist[l] == |Bucket(levels, n0, n, l)|
    ensures Offsets(levels, n0, n, 0, |hist|, offsets)
  {
    offsets := seq(|hist| + 1, _ => 0);
    for i := 0 to |hist|
      invariant |offsets| == |hist| + 1
      invariant forall l {:trigger offsets[l]} :: 0 <= l <= i ==> offsets[l] == Start(levels, n0, n, l)
    {
      offsets := offsets[i + 1 := offsets[i] + hist[i]];
    }
  }

  /** Counting sort: afterwards `order` is the concatenation of the buckets. */
  method BucketSort(levels: seq<nat>, n0: nat, n: nat, hist: seq<nat>) returns (order: array<nat>)
    requires n0 + n == |levels| && forall i :: n0 <= i < n0 + n ==> 1 <= levels[i] <= |hist|
    requires forall l {:trigger hist[l]} :: 0 <= l < |hist| ==> hist[l] == |Bucket(levels, n0, n, l)|
    ensures fresh(order) && order.Length == n
    ensures order[..] == Buckets(levels, n0, n, |hist|)
  {
    order := new nat[n];
    var offsets := PrefixSums(levels, n0, n, hist);
    StartOfAll(levels, n0, n, |hist|);
    SortBegin(order[..], levels, n0, n, |hist|);
    for i := 0 to n
      invariant Sorting(order[..], levels, n0, n, i, |hist|)
      invariant Offsets(levels, n0, n, i, |hist|, offsets)
    {
      offsets := SortOne(order, offsets, levels, n0, n, i, |hist|);
    }
    InPlaceBuckets(order[..], levels, n0, n, |hist|, |hist|);
    assert order[..][..n] == order[..];
  }

  /** Put one point at the next free position of its bucket. */
  method SortOne(order: array<nat>, offsets: seq<nat>, levels: seq<nat>, n0: nat, ghost n: nat, i: nat, ghost top: nat)
    returns (offsets': seq<nat>)
    requires i < n && n0 + n == |levels| && 1 <= levels[n0 + i] <= top
    requires Sorting(order[..], levels, n0, n, i, top) && Offsets(levels, n0, n, i, top, offsets)
    modifies order
    ensures Sorting(order[..], levels, n0, n, i + 1, top) && Offsets(levels, n0, n, i + 1, top, offsets')
  {
    var pt: nat := n0 + i;
    var ptLevel := levels[pt] - 1;
    var at := offsets[ptLevel];
    SortedOne(order[..], offsets, levels, n0, n, i, i + 1, top, ptLevel, at, pt);
    Write(order, at, pt);
    offsets' := offsets[ptLevel := at + 1];
  }

  lemma SortedOne(order: seq<nat>, offsets: seq<nat>, levels: seq<nat>, n0: nat, n: nat, i: nat, next: nat, top: nat,
                  p: nat, at: nat, pt: nat)
    requires i < n && next == i + 1 && pt == n0 + i && n0 + n <= |levels| && levels[pt] == p + 1 && p < top
    requires Sorting(order, levels, n0, n, i, top) && Offsets(levels, n0, n, i, top, offsets) && at == offsets[p]
    ensures at < |order| && Sorting(order[at := pt], levels, n0, n, next, top)
    ensures Offsets(levels, n0, n, next, top, offsets[p := at + 1])
  {
    SortStep(order, levels, n0, n, i, next, top, p, at);
    OffsetsNext(levels, n0, n, i, next, top, offsets, p);
  }

  lemma OffsetsNext(levels: seq<nat>, n0: nat, n: nat, i: nat, next: nat, top: nat, offsets: seq<nat>, p: nat)
    requires i < n && next == i + 1 && n0 + n <= |levels| && levels[n0 + i] == p + 1 && p < top
    requires Offsets(levels, n0, n, i, top, offsets)
    ensures Offsets(levels, n0, n, next, top, offsets[p := offsets[p] + 1])
  {
  }

  method Write(order: array<nat>, at: nat, pt: nat)
    requires at < order.Length
    modifies order
    ensures order[..] == old(order[..])[at := pt]
  {
    order[at] := pt;
  }

  lemma StartOfAll(levels: seq<nat>, n0: nat, n: nat, l: nat)
    requires n0 + n <= |levels| && forall i :: n0 <= i < n0 + n ==> 1 <= levels[i] <= l
    ensures Start(levels, n0, n, l) == n
  {
    BucketsAreAll(levels, n0, n, l);
    BucketsLength(levels, n0, n, l);
    assert |Buckets(levels, n0, n, l)| == |multiset(Buckets(levels, n0, n, l))| == |multiset(Ids(n0, n))| == n;
  }

  ghost predicate Sorting(order: seq<nat>, levels: seq<nat>, n0: nat, n: nat, i: nat, top: nat)
    requires i <= n && n0 + n <= |levels|
  {
    && |order| == Start(levels, n0, n, top)
    && forall l :: 0 <= l < top ==> InPlace(order, levels, n0, n, i, l)
  }

  /** The next free position of every bucket. */
  ghost predicate Offsets(levels: seq<nat>, n0: nat, n: nat, i: nat, top: nat, offsets: seq<nat>)
    requires i <= n && n0 + n <= |levels|
  {
    top <= |offsets|
    && forall l {:trigger offsets[l]} :: 0 <= l < top ==> offsets[l] == Start(levels, n0, n, l) + |Bucket(levels, n0, i, l)|
  }

  lemma SortBegin(order: seq<nat>, levels: seq<nat>, n0: nat, n: nat, top: nat)
    requires n0 + n <= |levels| && |order| == Start(levels, n0, n, top)
    ensures Sorting(order, levels, n0, n, 0, top)
  {
    forall l | 0 <= l < top ensures InPlace(order, levels, n0, n, 0, l) {
      StartMonotone(levels, n0, n, l, top);
    }
  }

  lemma SortStep(order: seq<nat>, levels: seq<nat>, n0: nat, n: nat, i: nat, next: nat, top: nat, p: nat, at: nat)
    requires i < n && next == i + 1 && n0 + n <= |levels| && levels[n0 + i] == p + 1 && p < top
    requires Sorting(order, levels, n0, n, i, top)
    requires at == Start(levels, n0, n, p) + |Bucket(levels, n0, i, p)|
    ensures at < |order| && Sorting(order[at := n0 + i], levels, n0, n, next, top)
  {
    BucketPrefix(levels, n0, next, n, p);
    StartMonotone(levels, n0, n, p, top);
    var after := order[at := n0 + i];
    forall l | 0 <= l < top ensures InPlace(after, levels, n0, n, next, l) {
      assert InPlace(order, levels, n0, n, i, l);
      if l != p {
        PlacedElsewhere(order, levels, n0, n, i, next, l, p, at);
      } else {
        PlacedHere(order, levels, n0, n, i, next, p, at);
      }
    }
  }

  /** The members of bucket l among the first i new points sit at the start of its segment. */
  ghost predicate InPlace(order: seq<nat>, levels: seq<nat>, n0: nat, n: nat, i: nat, l: nat)
    requires i <= n && n0 + n <= |levels|
  {
    var b, s := Bucket(levels, n0, i, l), Start(levels, n0, n, l);
    s + |b| <= |order| && order[s..s + |b|] == b
  }

  lemma PlacedHere(before: seq<nat>, levels: seq<nat>, n0: nat, n: nat, i: nat, next: nat, p: nat, at: nat)
    requires i < n && next == i + 1 && n0 + n <= |levels| && levels[n0 + i] == p + 1
    requires at == Start(levels, n0, n, p) + |Bucket(levels, n0, i, p)| < |before|
    requires InPlace(before, levels, n0, n, i, p)
    ensures InPlace(before[at := n0 + i], levels, n0, n, next, p)
  {
    var s := Start(levels, n0, n, p);
    assert before[at := n0 + i][s..at + 1] == before[s..at] + [n0 + i];
  }

  /** The segment of another bucket ends before, or starts behind, the position. */
  lemma PlacedElsewhere(before: seq<nat>, levels: seq<nat>, n0: nat, n: nat, i: nat, next: nat, l: nat, p: nat, at: nat)
    requires i < n && next == i + 1 && n0 + n <= |levels| && levels[n0 + i] == p + 1 && l != p
    requires at == Start(levels, n0, n, p) + |Bucket(levels, n0, i, p)| < |before|
    requires InPlace(before, levels, n0, n, i, l)
    ensures InPlace(before[at := n0 + i], levels, n0, n, next, l)
  {
    var s, b := Start(levels, n0, n, l), Bucket(levels, n0, i, l);
    BucketPrefix(levels, n0, i, n, l);
    BucketPrefix(levels, n0, next, n, p);
    if l < p {
      StartMonotone(levels, n0, n, l, p);
    } else {
      StartMonotone(levels, n0, n, p, l);
    }
  }

  lemma {:induction false} InPlaceBuckets(order: seq<nat>, levels: seq<nat>, n0: nat, n: nat, top: nat, l: nat)
    requires n0 + n <= |levels| && l <= top && |order| == Start(levels, n0, n, top)
    requires forall m :: 0 <= m < top ==> InPlace(order, levels, n0, n, n, m)
    ensures Start(levels, n0, n, l) <= |order| && order[..Start(levels, n0, n, l)] == Buckets(levels, n0, n, l)
  {
    if l > 0 {
      InPlaceBuckets(order, levels, n0, n, top, l - 1);
      assert InPlace(order, levels, n0, n, n, l - 1);
      var s, t := Start(levels, n0, n, l - 1), Start(levels, n0, n, l);
      assert order[..t] == order[..s] + order[s..t];
    }
  }

  // ---- batches ----

  /** One batch: its points and the entry point and top level of the graph while
      its forward links are computed. */
  datatype Batch = Batch(level: nat, points: seq<nat>, entryPoint: int, maxLevel: int)

  function PointsOf(log: seq<Batch>): seq<nat> {
    if log == [] then [] else PointsOf(log[..|log| - 1]) + log[|log| - 1].points
  }

  /** Points of bucket l inserted so far. */
  function DoneAt(log: seq<Batch>, l: nat): nat {
    if log == [] then 0
    else DoneAt(log[..|log| - 1], l) + if log[|log| - 1].level == l then |log[|log| - 1].points| else 0
  }

  function Max(a: int, b: int): int { if a < b then b else a }

  /** How many points of its bucket a batch may insert when `done` of them are inserted: one
      to begin with, then as many again, but at most theta. */
  ghost function Grow(done: nat, theta: nat): nat {
    if done == 0 then 1 else Min(done, theta)
  }

  ghost predicate LastIsFull(log: seq<Batch>, l: nat, theta: nat) {
    log != [] && |log[|log| - 1].points| == Grow(DoneAt(log[..|log| - 1], l), theta)
  }

  ghost predicate BatchOk(prior: int, levels: seq<nat>, theta: nat, log: seq<Batch>, b: Batch) {
    // its points live exactly up to its level; levels never increase
    && (forall x :: x in b.points ==> x < |levels| && levels[x] == b.level + 1)
    && (log != [] ==> b.level <= log[|log| - 1].level)
    // prefix doubling, bounded by theta; only the last batch of a bucket may be smaller
    && 0 < |b.points| <= Grow(DoneAt(log, b.level), theta)
    && (log != [] && log[|log| - 1].level == b.level ==> LastIsFull(log, b.level, theta))
    // the entry point is linked already, or is the first point of an empty graph
    && (|| (prior != -1 && b.entryPoint == prior)
        || (exists x :: x in PointsOf(log) && x == b.entryPoint)
        || (prior == -1 && log == [] && |b.points| == 1 && b.points[0] == b.entryPoint))
  }

  ghost predicate History(prior: int, levels: seq<nat>, theta: nat, log: seq<Batch>) {
    log == [] || (History(prior, levels, theta, log[..|log| - 1])
                  && BatchOk(prior, levels, theta, log[..|log| - 1], log[|log| - 1]))
  }

  lemma {:induction false} HistoryAt(prior: int, levels: seq<nat>, theta: nat, log: seq<Batch>, j: nat)
    requires History(prior, levels, theta, log) && j < |log|
    ensures BatchOk(prior, levels, theta, log[..j], log[j])
  {
    if j < |log| - 1 {
      HistoryAt(prior, levels, theta, log[..|log| - 1], j);
      assert log[..|log| - 1][..j] == log[..j];
    }
  }

  lemma HistorySnoc(prior: int, levels: seq<nat>, theta: nat, log: seq<Batch>, b: Batch)
    requires History(prior, levels, theta, log) && BatchOk(prior, levels, theta, log, b)
    ensures History(prior, levels, theta, log + [b])
    ensures PointsOf(log + [b]) == PointsOf(log) + b.points
    ensures forall l :: DoneAt(log + [b], l) == DoneAt(log, l) + if b.level == l then |b.points| else 0
  {
    assert (log + [b])[..|log|] == log;
  }

  /** A random number below max; callers know no more about it. */
  method RandInt(max: nat) returns (r: nat)
    requires max > 0
    ensures r < max
  {
    r :| 0 <= r < max;
  }

  /** Random permutation of one bucket. */
  method Shuffle(order: array<nat>, i0: nat, i1: nat)
    requires i0 <= i1 <= order.Length
    modifies order
    ensures multiset(order[i0..i1]) == multiset(old(order[i0..i1]))
    ensures order[..i0] == old(order[..i0]) && order[i1..] == old(order[i1..])
  {
    for j := i0 to i1
      invariant multiset(order[i0..i1]) == multiset(old(order[i0..i1]))
      invariant order[..i0] == old(order[..i0]) && order[i1..] == old(order[i1..])
    {
      var r := RandInt(i1 - j);
      Swap(order, i0, i1, j, j + r);
    }
  }

  method Swap(order: array<nat>, i0: nat, i1: nat, x: nat, y: nat)
    requires i0 <= x < i1 && i0 <= y < i1 <= order.Length
    modifies order
    ensures multiset(order[i0..i1]) == multiset(old(order[i0..i1]))
    ensures order[..i0] == old(order[..i0]) && order[i1..] == old(order[i1..])
  {
    ghost var s := order[i0..i1];
    order[x], order[y] := order[y], order[x];
    assert order[i0..i1] == s[x - i0 := s[y - i0]][y - i0 := s[x - i0]];
  }

  /** The part of the graph that the build steers by. */
  class Hnsw {
    var entryPoint: int
    var maxLevel: int

    /** Empty, or entered at a point of the top level. */
    ghost predicate Valid(levels: seq<nat>)
      reads this
    {
      if entryPoint == -1 then maxLevel == -1
      else 0 <= entryPoint < |levels| && maxLevel + 1 == levels[entryPoint]
    }

    /** Insert the shuffled bucket seg of level l in prefix-doubling batches. */
    method InsertBucket(levels: seq<nat>, seg: seq<nat>, l: nat, theta: nat, ghost prior: int, ghost priorMax: int,
                        log0: seq<Batch>)
      returns (log: seq<Batch>)
      requires seg != [] && theta >= 1
      requires forall i :: 0 <= i < |seg| ==> seg[i] < |levels| && levels[seg[i]] == l + 1
      requires Valid(levels) && History(prior, levels, theta, log0) && Known(prior, log0, entryPoint)
      requires Steered(prior, priorMax, log0, entryPoint, maxLevel)
      requires log0 != [] ==> l < log0[|log0| - 1].level
      requires DoneAt(log0, l) == 0
      modifies this
      ensures Valid(levels) && Known(prior, log, entryPoint)
      ensures Steered(prior, priorMax, log, entryPoint, maxLevel)
      ensures Extends(prior, levels, theta, log0, log, l, seg)
      ensures log != [] && log[|log| - 1].level == l
      ensures maxLevel == Max(old(maxLevel), l)
    {
      log := log0;
      var raise := false;
      if entryPoint == -1 {
        maxLevel := l;
        entryPoint := seg[0];
      } else if l > maxLevel {
        raise := true;
      }
      var s := 0;
      assert seg[..0] == [];
      while s < |seg|
        invariant 0 <= s <= |seg|
        invariant Valid(levels)
        invariant Inserting(prior, levels, theta, log0, log, l, seg, s, entryPoint)
        invariant Raised(l, s, raise, old(maxLevel), maxLevel)
        invariant Steering(prior, priorMax, log, l, seg, entryPoint, maxLevel, raise)
      {
        log, s, raise := InsertBatch(levels, seg, l, theta, prior, priorMax, log0, log, s, raise, old(maxLevel));
      }
      assert seg[..s] == seg;
    }

    /** The top level so far, and whether the bucket's first batch still has to raise it. */
    ghost predicate Raised(l: nat, s: nat, raise: bool, before: int, top: int) {
      (s > 0 ==> !raise) && if raise then top == before < l else top == Max(before, l)
    }

    /** One batch: all of its points search from the current entry point. */
    method InsertBatch(levels: seq<nat>, seg: seq<nat>, l: nat, theta: nat, ghost prior: int, ghost priorMax: int,
                       ghost log0: seq<Batch>, log: seq<Batch>, s: nat, raise: bool, ghost before: int)
      returns (log': seq<Batch>, e: nat, raise': bool)
      requires s < |seg| && theta >= 1
      requires forall i :: 0 <= i < |seg| ==> seg[i] < |levels| && levels[seg[i]] == l + 1
      requires Valid(levels) && Inserting(prior, levels, theta, log0, log, l, seg, s, entryPoint)
      requires Raised(l, s, raise, before, maxLevel)
      requires Steering(prior, priorMax, log, l, seg, entryPoint, maxLevel, raise)
      modifies this
      ensures s < e <= |seg| && Valid(levels)
      ensures log' == log + [Batch(l, seg[s..e], old(entryPoint), old(maxLevel))]
      ensures entryPoint == if raise then seg[0] else old(entryPoint)
      ensures Steered(prior, priorMax, log', entryPoint, maxLevel)
      ensures Inserting(prior, levels, theta, log0, log', l, seg, e, entryPoint)
      ensures !raise' && maxLevel == Max(before, l)
    {
      var grow := Min(if s == 0 then 1 else s, theta);
      e := Min(|seg|, s + grow);
      var batch := Batch(l, seg[s..e], entryPoint, maxLevel);
      BatchDone(prior, priorMax, levels, theta, log0, log, l, seg, s, e, batch, raise, if raise then seg[0] else entryPoint);
      log' := log + [batch];
      raise' := raise;
      if raise {
        maxLevel := l;
        entryPoint := seg[0];
        raise' := false;
      }
    }

    /** Add the points n0 .. n0+n-1; the log lists the batches in order. */
    method AddVertices(levels: seq<nat>, n0: nat, n: nat, initLevel0: bool) returns (log: seq<Batch>)
      requires n0 + n == |levels| && forall i :: n0 <= i < n0 + n ==> levels[i] >= 1
      requires Valid(levels) && entryPoint < n0
      modifies this
      ensures Valid(levels)
      ensures History(old(entryPoint), levels, Theta(n0 + n), log)
      ensures multiset(PointsOf(log)) + (if initLevel0 then multiset{} else multiset(Bucket(levels, n0, n, 0)))
              == multiset(Ids(n0, n))
      ensures TopLevel(levels, log, old(maxLevel), maxLevel)
      ensures log != [] ==> |log[0].points| == 1
      // the entry point moves at most once, to the first point of the first batch, and
      // only if the graph was empty or that point lives above its top level
      ensures entryPoint == if log != [] && (old(entryPoint) == -1 || log[0].level > old(maxLevel)) then log[0].points[0]
                            else old(entryPoint)
      ensures log != [] ==>
                && log[0].entryPoint == (if old(entryPoint) == -1 then log[0].points[0] else old(entryPoint))
                && log[0].maxLevel == (if old(entryPoint) == -1 then log[0].level else old(maxLevel))
      ensures forall j :: 1 <= j < |log| ==> log[j].entryPoint == entryPoint && log[j].maxLevel == maxLevel
    {
      log := [];
      if n == 0 {
        return;
      }
      var minBucketLevel := if initLevel0 then 0 else 1;
      var hist := Histogram(levels, n0, n);
      var order := BucketSort(levels, n0, n, hist);
      BucketsAreAll(levels, n0, n, |hist|);
      ghost var i1;
      log, i1 := InsertAll(levels, n0, n, order, hist, minBucketLevel, Theta(n0 + n));
      BucketsOfLevel0(levels, n0, n);
      assert i1 == if initLevel0 then 0 else hist[0];
    }

    /** The loop over the levels, highest first; i1 new points are left at the end. */
    method InsertAll(levels: seq<nat>, n0: nat, n: nat, order: array<nat>, hist: seq<nat>, minBucketLevel: nat, theta: nat)
      returns (log: seq<Batch>, ghost left: nat)
      requires n0 + n == |levels| && order.Length == n && minBucketLevel <= |hist| && theta >= 1
      requires forall l {:trigger hist[l]} :: 0 <= l < |hist| ==> hist[l] == |Bucket(levels, n0, n, l)|
      requires order[..] == Buckets(levels, n0, n, |hist|)
      requires Valid(levels) && entryPoint < n0
      modifies this, order
      ensures Valid(levels) && History(old(entryPoint), levels, theta, log)
      ensures multiset(PointsOf(log)) + multiset(Buckets(levels, n0, n, minBucketLevel))
              == multiset(Buckets(levels, n0, n, |hist|))
      ensures left == |Buckets(levels, n0, n, minBucketLevel)|
      ensures TopLevel(levels, log, old(maxLevel), maxLevel)
      ensures Steered(old(entryPoint), old(maxLevel), log, entryPoint, maxLevel)
    {
      ghost var start, all := Entry(entryPoint, maxLevel), multiset(order[..]);
      assert order[..n] == order[..];
      RoundStart(levels, theta, |hist|, start, order[..n]);
      var i1;
      log, i1 := AllLevels(levels, n0, n, order, hist, minBucketLevel, theta, start, all);
      left := i1;
    }

    /** What the loop over the levels knows before the round of bucket l - 1: i1 points are left, and they
        are the buckets below l. */
    ghost predicate AtLevel(levels: seq<nat>, n0: nat, n: nat, order: array<nat>, theta: nat, start: Entry,
                            log: seq<Batch>, l: nat, i1: nat, all: multiset<nat>)
      requires n0 + n <= |levels|
      reads this, order
    {
      && i1 <= order.Length && order[..i1] == Buckets(levels, n0, n, l)
      && Accounted(PointsOf(log), order[..i1], all)
      && Valid(levels) && Round(start, levels, theta, log, l, Entry(entryPoint, maxLevel))
    }

    method AllLevels(levels: seq<nat>, ghost n0: nat, n: nat, order: array<nat>, hist: seq<nat>, minBucketLevel: nat,
                     theta: nat, ghost start: Entry, ghost all: multiset<nat>)
      returns (log: seq<Batch>, i1: nat)
      requires n0 + n == |levels| && order.Length == n && minBucketLevel <= |hist| && theta >= 1
      requires Counted(levels, n0, n, hist)
      requires AtLevel(levels, n0, n, order, theta, start, [], |hist|, n, all)
      modifies this, order
      ensures AtLevel(levels, n0, n, order, theta, start, log, minBucketLevel, i1, all)
    {
      log := [];
      i1 := n;
      for l := |hist| downto minBucketLevel
        invariant AtLevel(levels, n0, n, order, theta, start, log, l, i1, all)
      {
        log, i1 := OneRound(levels, n0, n, order, i1, l, l + 1, hist, theta, start, log, all);
      }
    }

    /** One round of the loop over the levels, with all that the loop knows. */
    method OneRound(levels: seq<nat>, ghost n0: nat, ghost n: nat, order: array<nat>, i1: nat, l: nat, ghost top: nat,
                    hist: seq<nat>, theta: nat, ghost start: Entry, log0: seq<Batch>, ghost all: multiset<nat>)
      returns (log: seq<Batch>, i0: nat)
      requires n0 + n == |levels| && theta >= 1 && top == l + 1 && l < |hist| && Counted(levels, n0, n, hist)
      requires AtLevel(levels, n0, n, order, theta, start, log0, top, i1, all)
      modifies this, order
      ensures AtLevel(levels, n0, n, order, theta, start, log, l, i0, all)
    {
      ghost var below, b := BucketsSplit(levels, n0, n, l, top);
      log := NextBucket(levels, order, i1, l, hist[l], theta, below, b, start, log0);
      i0 := i1 - hist[l];
    }

    /** One round of the loop over the levels: bucket b, of level l, sits at order[i1-size..i1]. */
    method NextBucket(levels: seq<nat>, order: array<nat>, i1: nat, l: nat, size: nat, theta: nat,
                      ghost below: seq<nat>, ghost b: seq<nat>, ghost start: Entry, log0: seq<Batch>)
      returns (log: seq<Batch>)
      requires theta >= 1 && i1 <= order.Length && size == |b| && order[..i1] == below + b
      requires forall x :: x in b ==> x < |levels| && levels[x] == l + 1
      requires Valid(levels) && Round(start, levels, theta, log0, l + 1, Entry(entryPoint, maxLevel))
      modifies this, order
      ensures size <= i1 && order[..i1 - size] == below
      ensures multiset(PointsOf(log)) == multiset(PointsOf(log0)) + multiset(b)
      ensures Valid(levels) && Round(start, levels, theta, log, l, Entry(entryPoint, maxLevel))
    {
      log := log0;
      assert |order[..i1]| == |below| + |b|;
      var i0 := i1 - size;
      assert order[..i0] == order[..i1][..i0] && order[i0..i1] == order[..i1][i0..];
      if i0 == i1 {
        return;
      }
      Shuffle(order, i0, i1);
      ghost var before := maxLevel;
      var seg := order[i0..i1];
      ShuffledLevels(levels, l, b, seg);
      log := InsertBucket(levels, seg, l, theta, start.point, start.top, log0);
      TopLevelGrows(levels, log0, seg, log, start.top, before, maxLevel, l);
    }
  }

  ghost predicate Counted(levels: seq<nat>, n0: nat, n: nat, hist: seq<nat>)
    requires n0 + n <= |levels|
  {
    forall l {:trigger hist[l]} :: 0 <= l < |hist| ==> hist[l] == |Bucket(levels, n0, n, l)|
  }

  /** The inserted points and those still to come are all points. */
  ghost predicate Accounted(inserted: seq<nat>, left: seq<nat>, all: multiset<nat>) {
    multiset(inserted) + multiset(left) == all
  }

  lemma BucketsSplit(levels: seq<nat>, n0: nat, n: nat, l: nat, top: nat) returns (below: seq<nat>, b: seq<nat>)
    requires n0 + n <= |levels| && top == l + 1
    ensures below == Buckets(levels, n0, n, l) && b == Bucket(levels, n0, n, l)
    ensures Buckets(levels, n0, n, top) == below + b
    ensures forall x :: x in b ==> x < |levels| && levels[x] == l + 1
  {
    below, b := Buckets(levels, n0, n, l), Bucket(levels, n0, n, l);
    BucketMembers(levels, n0, n, l);
  }

  lemma BucketsOfLevel0(levels: seq<nat>, n0: nat, n: nat)
    requires n0 + n <= |levels|
    ensures Buckets(levels, n0, n, 0) == [] && Buckets(levels, n0, n, 1) == Bucket(levels, n0, n, 0)
  {
  }

  /** All batches so far are above level l. */
  ghost predicate Progress(prior: int, levels: seq<nat>, theta: nat, log: seq<Batch>, l: nat) {
    && History(prior, levels, theta, log)
    && (forall m: nat :: m < l ==> DoneAt(log, m) == 0)
    && (log != [] ==> l <= log[|log| - 1].level)
  }

  /** Where a search enters the graph: the entry point and the top level. */
  datatype Entry = Entry(point: int, top: int)

  /** The state between two rounds of the loop over the levels. */
  ghost predicate Round(start: Entry, levels: seq<nat>, theta: nat, log: seq<Batch>, l: nat, now: Entry) {
    match (start, now)
    case (Entry(prior, priorMax), Entry(entry, top)) =>
      && Progress(prior, levels, theta, log, l) && Known(prior, log, entry) && TopLevel(levels, log, priorMax, top)
      && Steered(prior, priorMax, log, entry, top)
  }

  lemma RoundStart(levels: seq<nat>, theta: nat, l: nat, start: Entry, points: seq<nat>)
    requires theta >= 1 && (start.point == -1 ==> start.top == -1)
    ensures Round(start, levels, theta, [], l, start)
    ensures Accounted(PointsOf([]), points, multiset(points))
  {
  }

  lemma ShuffledLevels(levels: seq<nat>, l: nat, b: seq<nat>, seg: seq<nat>)
    requires multiset(seg) == multiset(b)
    requires forall x :: x in b ==> x < |levels| && levels[x] == l + 1
    ensures forall i :: 0 <= i < |seg| ==> seg[i] < |levels| && levels[seg[i]] == l + 1
  {
    forall i | 0 <= i < |seg| ensures seg[i] < |levels| && levels[seg[i]] == l + 1 {
      Permutations.Member(seg, b, seg[i]);
    }
  }

  lemma TopLevelGrows(levels: seq<nat>, log0: seq<Batch>, seg: seq<nat>, log: seq<Batch>, prior: int,
                      before: int, after: int, l: nat)
    requires TopLevel(levels, log0, prior, before) && PointsOf(log) == PointsOf(log0) + seg && seg != []
    requires forall i :: 0 <= i < |seg| ==> seg[i] < |levels| && levels[seg[i]] == l + 1
    requires after == Max(before, l)
    ensures TopLevel(levels, log, prior, after)
  {
    assert seg[0] in PointsOf(log);
  }

  /** An entry point that is linked already, of the prior graph or inserted; or
      none, and the graph is still empty. */
  ghost predicate Known(prior: int, log: seq<Batch>, e: int) {
    if e == -1 then prior == -1 && log == []
    else e == prior || exists x :: x in PointsOf(log) && x == e
  }

  lemma KnownGrows(prior: int, log: seq<Batch>, b: Batch, e: int)
    ensures Known(prior, log, e) && e != -1 ==> Known(prior, log + [b], e)
  {
    assert (log + [b])[..|log|] == log;
    assert forall x :: x in PointsOf(log) ==> x in PointsOf(log + [b]);
  }

  /** log continues log0 by batches of level l that insert the points of seg. */
  ghost predicate Extends(prior: int, levels: seq<nat>, theta: nat, log0: seq<Batch>, log: seq<Batch>, l: nat, seg: seq<nat>) {
    && History(prior, levels, theta, log)
    && PointsOf(log) == PointsOf(log0) + seg
    && DoneAt(log, l) == |seg|
    && (forall m :: m != l ==> DoneAt(log, m) == DoneAt(log0, m))
    && (seg == [] ==> log == log0)
  }

  /** The loop over one bucket after s of its points. */
  ghost predicate Inserting(prior: int, levels: seq<nat>, theta: nat, log0: seq<Batch>, log: seq<Batch>, l: nat,
                            seg: seq<nat>, s: nat, entry: int)
    requires s <= |seg| && seg != []
  {
    && Extends(prior, levels, theta, log0, log, l, seg[..s])
    && (log != [] ==> l <= log[|log| - 1].level)
    && entry != -1
    && (s > 0 ==> log != [] && log[|log| - 1].level == l && Known(prior, log, entry))
    && (0 < s < |seg| ==> LastIsFull(log, l, theta))
    && (s == 0 && log != [] ==> l < log[|log| - 1].level)
    && (s == 0 ==> Known(prior, log, entry) || (prior == -1 && log == [] && entry == seg[0]))
  }

  /** What the entry point and the top level owe to the log.  The first batch is one point.  It
      searches from the prior entry point, or from itself if there is none.  If its level
      is a new top level it becomes the entry point, for good: all later batches
      search from the final entry point, at the final top level. */
  ghost predicate Steered(prior: int, priorMax: int, log: seq<Batch>, entry: int, top: int) {
    && (prior == -1 ==> priorMax == -1)
    && if log == [] then entry == prior && top == priorMax
       else
         && |log[0].points| == 1 && top == Max(priorMax, log[0].level) && log[|log| - 1].level <= top
         && entry == (if prior == -1 || log[0].level > priorMax then log[0].points[0] else prior)
         && log[0].entryPoint == (if prior == -1 then log[0].points[0] else prior)
         && log[0].maxLevel == (if prior == -1 then log[0].level else priorMax)
         && forall j :: 1 <= j < |log| ==> log[j].entryPoint == entry && log[j].maxLevel == top
  }

  /** The same inside the bucket of level l: before the very first batch an empty graph already
      has its entry point, and a new top level is still to be raised. */
  ghost predicate Steering(prior: int, priorMax: int, log: seq<Batch>, l: nat, seg: seq<nat>, entry: int, top: int,
                           raise: bool)
    requires seg != []
  {
    if log != [] then Steered(prior, priorMax, log, entry, top) && !raise
    else if prior == -1 then priorMax == -1 && entry == seg[0] && top == l && !raise
    else entry == prior && top == priorMax && (raise <==> l > priorMax)
  }

  lemma SteeringStep(prior: int, priorMax: int, log: seq<Batch>, l: nat, seg: seq<nat>, s: nat, e: nat, b: Batch, raise: bool)
    requires s < e <= |seg| && b.level == l && b.points == seg[s..e]
    requires Steering(prior, priorMax, log, l, seg, b.entryPoint, b.maxLevel, raise)
    requires log == [] ==> s == 0 && e == 1
    requires log != [] ==> l <= log[|log| - 1].level
    ensures Steered(prior, priorMax, log + [b], if raise then seg[0] else b.entryPoint, if raise then l else b.maxLevel)
  {
    var more := log + [b];
    assert log == [] ==> more[0] == b;
    assert log != [] ==> more[0] == log[0];
  }

  /** What one batch leaves, with the entry point raised or not. */
  lemma BatchDone(prior: int, priorMax: int, levels: seq<nat>, theta: nat, log0: seq<Batch>, log: seq<Batch>, l: nat,
                  seg: seq<nat>, s: nat, e: nat, b: Batch, raise: bool, entry: int)
    requires s < e <= |seg| && theta >= 1
    requires forall i :: 0 <= i < |seg| ==> seg[i] < |levels| && levels[seg[i]] == l + 1
    requires e == Min(|seg|, s + Min(if s == 0 then 1 else s, theta))
    requires b.level == l && b.points == seg[s..e] && entry == if raise then seg[0] else b.entryPoint
    requires Inserting(prior, levels, theta, log0, log, l, seg, s, b.entryPoint)
    requires Steering(prior, priorMax, log, l, seg, b.entryPoint, b.maxLevel, raise)
    ensures Inserting(prior, levels, theta, log0, log + [b], l, seg, e, entry)
    ensures Steered(prior, priorMax, log + [b], entry, if raise then l else b.maxLevel)
  {
    BatchStep(prior, levels, theta, log0, log, l, seg, s, e, b);
    SteeringStep(prior, priorMax, log, l, seg, s, e, b, raise);
  }

  /** One more batch; afterwards the entry point may stay or move to the bucket's first point. */
  lemma BatchStep(prior: int, levels: seq<nat>, theta: nat, log0: seq<Batch>, log: seq<Batch>, l: nat, seg: seq<nat>,
                  s: nat, e: nat, b: Batch)
    requires s < e <= |seg| && theta >= 1
    requires forall i :: 0 <= i < |seg| ==> seg[i] < |levels| && levels[seg[i]] == l + 1
    requires e == Min(|seg|, s + Min(if s == 0 then 1 else s, theta))
    requires b.level == l && b.points == seg[s..e]
    requires Inserting(prior, levels, theta, log0, log, l, seg, s, b.entryPoint)
    ensures Inserting(prior, levels, theta, log0, log + [b], l, seg, e, b.entryPoint)
    ensures Inserting(prior, levels, theta, log0, log + [b], l, seg, e, seg[0])
  {
    var more := log + [b];
    BatchIsOk(prior, levels, theta, log0, log, l, seg, s, e, b);
    HistorySnoc(prior, levels, theta, log, b);
    assert e < |seg| ==> |b.points| == Grow(s, theta);
    assert more[..|log|] == log;
    assert seg[..e] == seg[..s] + b.points;
    BatchExtends(prior, levels, theta, log0, log, more, l, seg[..s], seg[..e], b);
    InBatch(PointsOf(log0), PointsOf(more), seg, e);
    BatchKnown(prior, log, b, more, seg[0]);
    EntryMoves(prior, levels, theta, log0, more, l, seg, e, b.entryPoint);
  }

  /** The entry point of a batch, too, is known afterwards. */
  lemma BatchKnown(prior: int, log: seq<Batch>, b: Batch, more: seq<Batch>, first: nat)
    requires more == log + [b] && b.entryPoint != -1 && first in PointsOf(more)
    requires Known(prior, log, b.entryPoint) || b.entryPoint == first
    ensures Known(prior, more, b.entryPoint)
  {
    KnownGrows(prior, log, b, b.entryPoint);
  }

  lemma BatchIsOk(prior: int, levels: seq<nat>, theta: nat, log0: seq<Batch>, log: seq<Batch>, l: nat, seg: seq<nat>,
                  s: nat, e: nat, b: Batch)
    requires s < e <= |seg| && theta >= 1
    requires forall i :: 0 <= i < |seg| ==> seg[i] < |levels| && levels[seg[i]] == l + 1
    requires e == Min(|seg|, s + Min(if s == 0 then 1 else s, theta))
    requires b.level == l && b.points == seg[s..e]
    requires Inserting(prior, levels, theta, log0, log, l, seg, s, b.entryPoint)
    ensures BatchOk(prior, levels, theta, log, b) && |b.points| == e - s
  {
    BatchPoints(levels, l, seg, s, e);
  }

  lemma BatchExtends(prior: int, levels: seq<nat>, theta: nat, log0: seq<Batch>, log: seq<Batch>, more: seq<Batch>,
                     l: nat, front: seq<nat>, seg: seq<nat>, b: Batch)
    requires Extends(prior, levels, theta, log0, log, l, front) && History(prior, levels, theta, more)
    requires more == log + [b] && seg == front + b.points && b.points != [] && b.level == l
    ensures Extends(prior, levels, theta, log0, more, l, seg)
  {
    assert more[..|more| - 1] == log;
  }

  /** A point of the batches so far may become the entry point. */
  lemma EntryMoves(prior: int, levels: seq<nat>, theta: nat, log0: seq<Batch>, log: seq<Batch>, l: nat, seg: seq<nat>,
                   e: nat, entry: int)
    requires 0 < e <= |seg| && Inserting(prior, levels, theta, log0, log, l, seg, e, entry)
    ensures Inserting(prior, levels, theta, log0, log, l, seg, e, seg[0])
  {
    InBatch(PointsOf(log0), PointsOf(log), seg, e);
  }

  lemma InBatch(points0: seq<nat>, points: seq<nat>, seg: seq<nat>, e: nat)
    requires 0 < e <= |seg| && points == points0 + seg[..e]
    ensures seg[0] in points
  {
    assert seg[..e][0] == seg[0];
    assert points[|points0|] == seg[0];
  }

  lemma BatchPoints(levels: seq<nat>, l: nat, seg: seq<nat>, s: nat, e: nat)
    requires s <= e <= |seg|
    requires forall i :: 0 <= i < |seg| ==> seg[i] < |levels| && levels[seg[i]] == l + 1
    ensures forall x :: x in seg[s..e] ==> x < |levels| && levels[x] == l + 1
  {
    forall x | x in seg[s..e] ensures x < |levels| && levels[x] == l + 1 {
      var i :| 0 <= i < e - s && seg[s..e][i] == x;
      assert x == seg[s + i];
    }
  }

  /** The top level is the maximum over the prior graph and all inserted points. */
  ghost predicate TopLevel(levels: seq<nat>, log: seq<Batch>, prior: int, top: int) {
    && prior <= top
    && (forall x :: x in PointsOf(log) ==> x < |levels| && levels[x] <= top + 1)
    && (top == prior || exists x :: x in PointsOf(log) && x < |levels| && levels[x] == top + 1)
  }

  /** Two percent of the index, rounded down, but at least 1. */
  function Theta(ntotal: nat): (theta: nat)
    ensures theta >= 1 && (ntotal < 50 ==> theta == 1)
    ensures ntotal >= 50 ==> 50 * theta <= ntotal < 50 * (theta + 1)
  {
    if ntotal < 50 then 1 else ntotal / 50
  }
}
