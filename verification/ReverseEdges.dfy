/** Phase B of the deterministic HNSW build, first half: the in-place partition of the
    reverse edges into 256 buckets by destination. */
module ReverseEdges {
  // Each step of a cycle puts one edge where it belongs: no second buffer is needed.

  import Permutations

  /** `dest` gains an incoming link from `src` on `level`. */
  datatype Edge = Edge(level: int, dest: int, src: int)

  const NUM_BUCKETS: nat := 256

  /** Low byte of the destination; the cast to unsigned keeps it for negative numbers too. */
  function Bucket(e: Edge): (b: nat)
    ensures b < 256 && (e.dest - b) % 256 == 0
  {
    e.dest % NUM_BUCKETS
  }

  // ---- counting ----

  function Count(s: seq<Edge>, b: nat): nat {
    if s == [] then 0
    else Count(s[..|s| - 1], b) + if Bucket(s[|s| - 1]) == b then 1 else 0
  }

  /** Number of edges in the buckets before b: where bucket b starts. */
  function CountBelow(s: seq<Edge>, b: nat): nat {
    if b == 0 then 0 else CountBelow(s, b - 1) + Count(s, b - 1)
  }

  lemma {:induction false} CountConcat(s: seq<Edge>, t: seq<Edge>, b: nat)
    ensures Count(s + t, b) == Count(s, b) + Count(t, b)
  {
    if t == [] {
      assert s + t == s;
    } else {
      CountConcat(s, t[..|t| - 1], b);
      assert (s + t)[..|s + t| - 1] == s + t[..|t| - 1];
    }
  }

  lemma CountPermutation(s: seq<Edge>, t: seq<Edge>, b: nat)
    requires multiset(s) == multiset(t)
    ensures Count(s, b) == Count(t, b)
  {
    var count := (u: seq<Edge>) => Count(u, b);
    forall u, v ensures count(u + v) == count(u) + count(v) {
      CountConcat(u, v, b);
    }
    Permutations.AdditivePermutation(count, s, t);
  }

  lemma {:induction false} CountFull(s: seq<Edge>, b: nat)
    requires forall i :: 0 <= i < |s| ==> Bucket(s[i]) == b
    ensures Count(s, b) == |s|
  {
    if s != [] {
      CountFull(s[..|s| - 1], b);
    }
  }

  lemma {:induction false} CountSome(s: seq<Edge>, b: nat, h: nat)
    requires h < |s| && Bucket(s[h]) == b
    ensures Count(s, b) > 0
  {
    if h < |s| - 1 {
      CountSome(s[..|s| - 1], b, h);
    }
  }

  lemma CountSplit(s: seq<Edge>, lo: nat, hi: nat, b: nat)
    requires lo <= hi <= |s|
    ensures Count(s, b) == Count(s[..lo], b) + Count(s[lo..hi], b) + Count(s[hi..], b)
  {
    CountConcat(s[..hi], s[hi..], b);
    CountConcat(s[..lo], s[lo..hi], b);
    assert s == s[..hi] + s[hi..] && s[..hi] == s[..lo] + s[lo..hi];
  }

  /** A full segment and one more member outside it count more than the segment. */
  lemma CountOutside(s: seq<Edge>, b: nat, lo: nat, hi: nat, h: nat)
    requires lo <= hi <= |s| && h < |s| && !(lo <= h < hi)
    requires forall i :: lo <= i < hi ==> Bucket(s[i]) == b
    requires Bucket(s[h]) == b
    ensures Count(s, b) > hi - lo
  {
    CountSplit(s, lo, hi, b);
    CountFull(s[lo..hi], b);
    if h < lo {
      CountSome(s[..lo], b, h);
    } else {
      CountSome(s[hi..], b, h - hi);
    }
  }

  /** Histogram and prefix sums: bstart[b]..bstart[b+1] will delimit bucket b. */
  method ComputeStarts(edges: array<Edge>, total: nat) returns (bstart: seq<nat>)
    requires total <= edges.Length
    ensures |bstart| == NUM_BUCKETS + 1
    ensures forall b :: 0 <= b <= NUM_BUCKETS ==> bstart[b] == CountBelow(edges[..total], b)
  {
    bstart := Histogram(edges, total);
    ghost var s := edges[..total];
    for b := 0 to NUM_BUCKETS
      invariant Summed(s, bstart, b)
    {
      SumNext(s, bstart, b, b + 1);
      bstart := bstart[b + 1 := bstart[b + 1] + bstart[b]];
    }
  }

  /** The counts are summed up to bucket b. */
  ghost predicate Summed(s: seq<Edge>, count: seq<nat>, b: nat) {
    && |count| == NUM_BUCKETS + 1
    && (forall c :: 0 <= c <= b && c <= NUM_BUCKETS ==> count[c] == CountBelow(s, c))
    && (forall c :: b < c <= NUM_BUCKETS ==> count[c] == Count(s, c - 1))
  }

  lemma SumNext(s: seq<Edge>, count: seq<nat>, b: nat, n: nat)
    requires Summed(s, count, b) && n == b + 1 <= NUM_BUCKETS
    ensures Summed(s, count[n := count[n] + count[b]], n)
  {
  }

  /** Entry b + 1 counts bucket b. */
  method Histogram(edges: array<Edge>, total: nat) returns (count: seq<nat>)
    requires total <= edges.Length
    ensures |count| == NUM_BUCKETS + 1 && count[0] == 0
    ensures forall c :: 0 < c <= NUM_BUCKETS ==> count[c] == Count(edges[..total], c - 1)
  {
    count := seq(NUM_BUCKETS + 1, _ => 0);
    for idx := 0 to total
      invariant |count| == NUM_BUCKETS + 1 && count[0] == 0
      invariant forall c :: 0 < c <= NUM_BUCKETS ==> count[c] == Count(edges[..idx], c - 1)
    {
      var b := Bucket(edges[idx]);
      assert edges[..idx + 1][..idx] == edges[..idx];
      count := count[b + 1 := count[b + 1] + 1];
    }
  }

  // ---- the in-place partition ----

  ghost predicate Starts(s: seq<Edge>, bstart: seq<nat>) {
    && |bstart| == NUM_BUCKETS + 1
    && bstart[0] == 0 && bstart[NUM_BUCKETS] == |s|
    && (forall b, c :: 0 <= b <= c <= NUM_BUCKETS ==> bstart[b] <= bstart[c])
    && (forall b :: 0 <= b < NUM_BUCKETS ==> bstart[b + 1] - bstart[b] == Count(s, b))
  }

  lemma StartsHold(s: seq<Edge>, bstart: seq<nat>)
    requires |bstart| == NUM_BUCKETS + 1
    requires forall b :: 0 <= b <= NUM_BUCKETS ==> bstart[b] == CountBelow(s, b)
    ensures Starts(s, bstart)
  {
    CountBelowAll(s);
    forall b, c | 0 <= b <= c <= NUM_BUCKETS ensures bstart[b] <= bstart[c] {
      CountBelowMonotone(s, b, c);
    }
  }

  lemma {:induction false} CountBelowMonotone(s: seq<Edge>, b: nat, c: nat)
    requires b <= c
    ensures CountBelow(s, b) <= CountBelow(s, c)
    decreases c
  {
    if b < c {
      CountBelowMonotone(s, b, c - 1);
    }
  }

  lemma {:induction false} CountBelowAll(s: seq<Edge>)
    ensures CountBelow(s, NUM_BUCKETS) == |s|
  {
    if s == [] {
      CountBelowEmpty(NUM_BUCKETS);
    } else {
      CountBelowAll(s[..|s| - 1]);
      CountBelowSnoc(s, NUM_BUCKETS);
    }
  }

  lemma {:induction false} CountBelowEmpty(b: nat)
    ensures CountBelow([], b) == 0
  {
    if b > 0 { CountBelowEmpty(b - 1); }
  }

  lemma {:induction false} CountBelowSnoc(s: seq<Edge>, b: nat)
    requires s != []
    ensures CountBelow(s, b) == CountBelow(s[..|s| - 1], b) + if Bucket(s[|s| - 1]) < b then 1 else 0
  {
    if b > 0 { CountBelowSnoc(s, b - 1); }
  }

  lemma StartsPermutation(s: seq<Edge>, t: seq<Edge>, bstart: seq<nat>)
    requires Starts(s, bstart) && multiset(s) == multiset(t)
    ensures Starts(t, bstart)
  {
    assert |s| == |multiset(s)| == |t|;
    forall b | 0 <= b < NUM_BUCKETS ensures Count(t, b) == Count(s, b) {
      CountPermutation(s, t, b);
    }
  }

  ghost predicate Filled(s: seq<Edge>, lo: nat, hi: nat, b: nat) {
    hi <= |s| && forall i :: lo <= i < hi ==> Bucket(s[i]) == b
  }

  lemma FilledUpdate(s: seq<Edge>, lo: nat, hi: nat, b: nat, i: nat, e: Edge)
    requires Filled(s, lo, hi, b) && i < |s| && !(lo <= i < hi)
    ensures Filled(s[i := e], lo, hi, b)
  {
  }

  /** In segment b the positions before head[b] already hold members of bucket b. */
  ghost predicate Placed(s: seq<Edge>, bstart: seq<nat>, head: seq<nat>) {
    && Starts(s, bstart)
    && |head| == NUM_BUCKETS
    && (forall b :: 0 <= b < NUM_BUCKETS ==> bstart[b] <= head[b] <= bstart[b + 1])
    && (forall b :: 0 <= b < NUM_BUCKETS ==> Filled(s, bstart[b], head[b], b))
  }

  /** The counting argument: an edge of bucket tb that sits outside its segment
      leaves a free position inside it. */
  lemma RoomInBucket(s: seq<Edge>, bstart: seq<nat>, head: seq<nat>, h: nat, tb: nat)
    requires Placed(s, bstart, head) && tb < NUM_BUCKETS
    requires h < |s| && Bucket(s[h]) == tb && !(bstart[tb] <= h < bstart[tb + 1])
    ensures head[tb] < bstart[tb + 1] <= |s|
  {
    if head[tb] == bstart[tb + 1] {
      CountOutside(s, tb, bstart[tb], bstart[tb + 1], h);
    }
  }

  /** Unfilled positions over the first c buckets: the termination measure. */
  ghost function Slack(bstart: seq<nat>, head: seq<nat>, c: nat): nat
    requires c <= |head| < |bstart|
    requires forall b :: 0 <= b < c ==> head[b] <= bstart[b + 1]
  {
    if c == 0 then 0 else Slack(bstart, head, c - 1) + (bstart[c] - head[c - 1])
  }

  /** `more` is head with bucket b advanced by one. */
  ghost predicate Advanced(head: seq<nat>, b: nat, more: seq<nat>) {
    b < |head| && more == head[b := head[b] + 1]
  }

  lemma {:induction false} SlackDrops(bstart: seq<nat>, head: seq<nat>, tb: nat, more: seq<nat>, c: nat)
    requires c <= |head| < |bstart| && Advanced(head, tb, more)
    requires forall b :: 0 <= b < c ==> head[b] <= bstart[b + 1]
    requires tb < c ==> head[tb] < bstart[tb + 1]
    ensures forall b :: 0 <= b < c ==> more[b] <= bstart[b + 1]
    ensures Slack(bstart, more, c) == Slack(bstart, head, c) - if tb < c then 1 else 0
  {
    if c > 0 { SlackDrops(bstart, head, tb, more, c - 1); }
  }

  /** The heads of the buckets before b stay at the ends of their segments. */
  ghost predicate Finished(bstart: seq<nat>, head: seq<nat>, b: nat)
    requires b <= |head| < |bstart|
  {
    forall c :: 0 <= c < b ==> head[c] == bstart[c + 1]
  }

  lemma AdvanceHead(s: seq<Edge>, bstart: seq<nat>, head: seq<nat>, b: nat, more: seq<nat>)
    requires Placed(s, bstart, head) && b < NUM_BUCKETS && Advanced(head, b, more)
    requires head[b] < bstart[b + 1] <= |s| && Bucket(s[head[b]]) == b
    ensures Placed(s, bstart, more)
    ensures Slack(bstart, more, NUM_BUCKETS) == Slack(bstart, head, NUM_BUCKETS) - 1
  {
    PlacedMore(s, bstart, head, b, more);
    SlackDrops(bstart, head, b, more, NUM_BUCKETS);
  }

  lemma PlacedMore(s: seq<Edge>, bstart: seq<nat>, head: seq<nat>, b: nat, more: seq<nat>)
    requires Placed(s, bstart, head) && b < NUM_BUCKETS && Advanced(head, b, more)
    requires head[b] < bstart[b + 1] <= |s| && Bucket(s[head[b]]) == b
    ensures Placed(s, bstart, more)
  {
    forall c | 0 <= c < NUM_BUCKETS ensures bstart[c] <= more[c] && Filled(s, bstart[c], more[c], c) {
      SegmentMore(s, bstart[c], head[c], c, b, more[c]);
    }
  }

  lemma SegmentMore(s: seq<Edge>, lo: nat, hi: nat, c: nat, b: nat, hi': nat)
    requires lo <= hi && Filled(s, lo, hi, c) && hi' == (if c == b then hi + 1 else hi)
    requires c == b ==> hi < |s| && Bucket(s[hi]) == b
    ensures lo <= hi' && Filled(s, lo, hi', c)
  {
  }

  ghost predicate Unplaced(bstart: seq<nat>, head: seq<nat>, i: nat)
    requires |head| == NUM_BUCKETS && |bstart| == NUM_BUCKETS + 1
  {
    forall c :: 0 <= c < NUM_BUCKETS ==> !(bstart[c] <= i < head[c])
  }

  /** The position at a head is not yet settled in any bucket. */
  lemma HeadUnplaced(s: seq<Edge>, bstart: seq<nat>, head: seq<nat>, b: nat)
    requires Placed(s, bstart, head) && b < NUM_BUCKETS && head[b] < bstart[b + 1]
    ensures Unplaced(bstart, head, head[b])
  {
    forall c | 0 <= c < NUM_BUCKETS ensures !(bstart[c] <= head[b] < head[c]) {
      SameSegment(bstart, c, b, head[b]);
    }
  }

  /** Exchanging two unsettled edges settles and unsettles nothing. */
  lemma SwapUnplaced(s: seq<Edge>, bstart: seq<nat>, head: seq<nat>, h: nat, t: nat)
    requires Placed(s, bstart, head) && h < |s| && t < |s|
    requires Unplaced(bstart, head, h) && Unplaced(bstart, head, t)
    ensures var s' := s[h := s[t]][t := s[h]];
            multiset(s') == multiset(s) && Placed(s', bstart, head)
  {
    var s' := s[h := s[t]][t := s[h]];
    assert multiset(s') == multiset(s);
    StartsPermutation(s, s', bstart);
    forall c | 0 <= c < NUM_BUCKETS ensures Filled(s', bstart[c], head[c], c) {
      assert !(bstart[c] <= h < head[c]) && !(bstart[c] <= t < head[c]);
      FilledUpdate(s, bstart[c], head[c], c, h, s[t]);
      FilledUpdate(s[h := s[t]], bstart[c], head[c], c, t, s[h]);
    }
  }

  /** One step of a cycle: the edge in hand (at the hole h of bucket b) goes to
      the head t of its own bucket, and the edge found there comes in hand. */
  lemma SwapStep(s: seq<Edge>, bstart: seq<nat>, head: seq<nat>, b: nat, h: nat, tb: nat, t: nat, more: seq<nat>)
    returns (s': seq<Edge>)
    requires Placed(s, bstart, head) && b < NUM_BUCKETS && tb < NUM_BUCKETS && b != tb
    requires h == head[b] < bstart[b + 1] && Bucket(s[h]) == tb && Finished(bstart, head, b)
    requires t == head[tb] && Advanced(head, tb, more)
    ensures t < bstart[tb + 1] <= |s| && h < |s| && t != h
    ensures s' == s[h := s[t]][t := s[h]] && multiset(s') == multiset(s)
    ensures Placed(s', bstart, more) && Finished(bstart, more, b)
    ensures Slack(bstart, more, NUM_BUCKETS) == Slack(bstart, head, NUM_BUCKETS) - 1
  {
    SameSegment(bstart, b, tb, h);
    RoomInBucket(s, bstart, head, h, tb);
    HeadUnplaced(s, bstart, head, b);
    HeadUnplaced(s, bstart, head, tb);
    SameSegment(bstart, b, tb, t);
    SwapUnplaced(s, bstart, head, h, t);
    s' := s[h := s[t]][t := s[h]];
    AdvanceHead(s', bstart, head, tb, more);
  }

  lemma SameSegment(bstart: seq<nat>, b: nat, c: nat, i: nat)
    requires |bstart| == NUM_BUCKETS + 1 && b < NUM_BUCKETS && c < NUM_BUCKETS
    requires forall x, y :: 0 <= x <= y <= NUM_BUCKETS ==> bstart[x] <= bstart[y]
    ensures bstart[b] <= i < bstart[b + 1] && bstart[c] <= i < bstart[c + 1] ==> b == c
  {
    assert b < c ==> bstart[b + 1] <= bstart[c];
    assert c < b ==> bstart[c + 1] <= bstart[b];
  }

  /** American-flag partition by cycles, without an auxiliary buffer. */
  method PartitionByBucket(edges: array<Edge>, total: nat, bstart: seq<nat>)
    requires total <= edges.Length && Starts(edges[..total], bstart)
    modifies edges
    ensures Rearranged(old(edges[..]), edges[..], total)
    ensures forall b :: 0 <= b < NUM_BUCKETS ==> Filled(edges[..total], bstart[b], bstart[b + 1], b)
  {
    var head: seq<nat> := bstart[..NUM_BUCKETS];
    ghost var before := edges[..];
    for b := 0 to NUM_BUCKETS
      invariant Placed(edges[..total], bstart, head) && Finished(bstart, head, b)
      invariant Rearranged(before, edges[..], total)
    {
      ghost var now := edges[..];
      head := FillBucket(edges, total, bstart, head, b);
      RearrangedTwice(before, now, edges[..], total);
    }
  }

  /** The while loop over one segment. */
  method FillBucket(edges: array<Edge>, total: nat, bstart: seq<nat>, head0: seq<nat>, b: nat)
    returns (head: seq<nat>)
    requires total <= edges.Length && b < NUM_BUCKETS
    requires Placed(edges[..total], bstart, head0) && Finished(bstart, head0, b)
    modifies edges
    ensures Placed(edges[..total], bstart, head) && Finished(bstart, head, b + 1)
    ensures Rearranged(old(edges[..]), edges[..], total)
  {
    head := head0;
    ghost var before := edges[..];
    var endB := bstart[b + 1];
    while head[b] < endB
      invariant Placed(edges[..total], bstart, head) && Finished(bstart, head, b)
      invariant Rearranged(before, edges[..], total)
      decreases Slack(bstart, head, NUM_BUCKETS)
    {
      head := PlaceOne(edges, total, bstart, head, b);
    }
  }

  ghost predicate Rearranged(before: seq<Edge>, after: seq<Edge>, total: nat) {
    && |before| == |after| && total <= |before|
    && multiset(after[..total]) == multiset(before[..total])
    && after[total..] == before[total..]
  }

  lemma RearrangedTwice(a: seq<Edge>, b: seq<Edge>, c: seq<Edge>, total: nat)
    requires Rearranged(a, b, total) && Rearranged(b, c, total)
    ensures Rearranged(a, c, total)
  {
  }

  /** Fill the position at the head of bucket b: at once when the right edge is
      there, otherwise by closing the cycle that starts there. */
  method PlaceOne(edges: array<Edge>, total: nat, bstart: seq<nat>, head0: seq<nat>, b: nat)
    returns (head: seq<nat>)
    requires total <= edges.Length && b < NUM_BUCKETS
    requires Placed(edges[..total], bstart, head0) && head0[b] < bstart[b + 1]
    requires Finished(bstart, head0, b)
    modifies edges
    ensures Placed(edges[..total], bstart, head) && Finished(bstart, head, b)
    ensures Rearranged(old(edges[..]), edges[..], total)
    ensures Slack(bstart, head, NUM_BUCKETS) < Slack(bstart, head0, NUM_BUCKETS)
  {
    head := head0;
    ghost var s := edges[..total];
    if Bucket(edges[head[b]]) != b {
      var cur;
      cur, head, s := FollowCycle(edges, total, bstart, head, b);
      InHandClosed(s, edges[..], total, head[b], cur);
      var _ := SwapWithHand(edges, head[b], cur);
    }
    SliceOfBuffer(edges, total);
    var more := head[b := head[b] + 1];
    AdvanceHead(s, bstart, head, b, more);
    head := more;
  }

  lemma SliceOfBuffer(edges: array<Edge>, total: nat)
    requires total <= edges.Length
    ensures edges[..][..total] == edges[..total] && edges[..][total..] == edges[total..]
  {
  }

  /** Follow one cycle from the hole at the head of bucket b until an edge of
      bucket b comes in hand; s is the buffer with that edge put into the hole. */
  method FollowCycle(edges: array<Edge>, total: nat, bstart: seq<nat>, head0: seq<nat>, b: nat)
    returns (cur: Edge, head: seq<nat>, ghost s: seq<Edge>)
    requires total <= edges.Length && b < NUM_BUCKETS
    requires Placed(edges[..total], bstart, head0) && head0[b] < bstart[b + 1]
    requires Finished(bstart, head0, b)
    modifies edges
    ensures Placed(s, bstart, head) && Finished(bstart, head, b)
    ensures head[b] == head0[b] && Bucket(cur) == b
    ensures InHand(s, edges[..], total, head[b], cur)
    ensures Exchanged(old(edges[..]), s, edges[..], total)
    ensures Slack(bstart, head, NUM_BUCKETS) <= Slack(bstart, head0, NUM_BUCKETS)
  {
    head := head0;
    var h := head[b];
    cur := edges[h];
    s := edges[..total];
    ghost var before := edges[..];
    SliceOfBuffer(edges, total);
    while Bucket(cur) != b
      invariant InCycle(s, edges[..], total, bstart, head, b, h, cur)
      invariant Exchanged(before, s, edges[..], total)
      invariant Slack(bstart, head, NUM_BUCKETS) <= Slack(bstart, head0, NUM_BUCKETS)
      decreases Slack(bstart, head, NUM_BUCKETS)
    {
      cur, head, s := FollowOnce(edges, total, bstart, head, b, h, cur, s, before);
    }
  }

  method FollowOnce(edges: array<Edge>, total: nat, bstart: seq<nat>, head: seq<nat>, b: nat, h: nat, cur: Edge,
                    ghost s: seq<Edge>, ghost before: seq<Edge>)
    returns (next: Edge, more: seq<nat>, ghost s': seq<Edge>)
    requires InCycle(s, edges[..], total, bstart, head, b, h, cur) && Bucket(cur) != b
    requires Exchanged(before, s, edges[..], total)
    modifies edges
    ensures InCycle(s', edges[..], total, bstart, more, b, h, next)
    ensures Exchanged(before, s', edges[..], total)
    ensures Slack(bstart, more, NUM_BUCKETS) < Slack(bstart, head, NUM_BUCKETS)
  {
    ghost var buf := edges[..];
    var tb := Bucket(cur);
    HeadInside(s, buf, total, bstart, head, b, h, cur, tb);
    var t := head[tb];
    more := head[tb := t + 1];
    next := SwapWithHand(edges, t, cur);
    ghost var after := edges[..];
    assert after == buf[t := cur] && next == buf[t];
    s' := CycleStep(s, buf, after, total, bstart, head, b, h, cur, next, tb, t, more, before);
  }

  lemma HeadInside(s: seq<Edge>, buf: seq<Edge>, total: nat, bstart: seq<nat>, head: seq<nat>, b: nat, h: nat, cur: Edge,
                   tb: nat)
    requires InCycle(s, buf, total, bstart, head, b, h, cur) && tb == Bucket(cur) != b
    ensures tb < |head| && head[tb] < total <= |buf|
  {
    SameSegment(bstart, b, tb, h);
    RoomInBucket(s, bstart, head, h, tb);
  }

  /** s has the edges that the first part of the buffer had; the rest is untouched. */
  ghost predicate Exchanged(before: seq<Edge>, s: seq<Edge>, buf: seq<Edge>, total: nat) {
    && total <= |before| == |buf|
    && multiset(s) == multiset(before[..total]) && buf[total..] == before[total..]
  }

  /** In the cycle from hole h of bucket b, with `cur` in hand. */
  ghost predicate InCycle(s: seq<Edge>, buf: seq<Edge>, total: nat, bstart: seq<nat>, head: seq<nat>, b: nat, h: nat,
                          cur: Edge)
  {
    && Placed(s, bstart, head) && b < NUM_BUCKETS && h == head[b] < bstart[b + 1] && Finished(bstart, head, b)
    && InHand(s, buf, total, h, cur)
  }

  /** The same on the buffer with the edge in hand. */
  lemma CycleStep(s: seq<Edge>, buf: seq<Edge>, buf': seq<Edge>, total: nat, bstart: seq<nat>, head: seq<nat>, b: nat,
                  h: nat, cur: Edge, next: Edge, tb: nat, t: nat, more: seq<nat>, before: seq<Edge>)
    returns (s': seq<Edge>)
    requires InCycle(s, buf, total, bstart, head, b, h, cur) && tb == Bucket(cur) != b
    requires t == head[tb] < |buf| && Advanced(head, tb, more) && buf' == buf[t := cur] && next == buf[t]
    requires Exchanged(before, s, buf, total)
    ensures InCycle(s', buf', total, bstart, more, b, h, next) && Exchanged(before, s', buf', total)
    ensures Slack(bstart, more, NUM_BUCKETS) < Slack(bstart, head, NUM_BUCKETS)
  {
    s' := SwapStep(s, bstart, head, b, h, tb, t, more);
    InHandStep(s, buf, total, h, cur, t);
  }

  method SwapWithHand(edges: array<Edge>, t: nat, cur: Edge) returns (next: Edge)
    requires t < edges.Length
    modifies edges
    ensures edges[..] == old(edges[..])[t := cur] && next == old(edges[t])
  {
    next, edges[t] := edges[t], cur;
  }

  ghost predicate InHand(s: seq<Edge>, buffer: seq<Edge>, total: nat, h: nat, cur: Edge) {
    h < total == |s| <= |buffer| && forall i :: 0 <= i < total ==> s[i] == if i == h then cur else buffer[i]
  }

  lemma InHandClosed(s: seq<Edge>, buffer: seq<Edge>, total: nat, h: nat, cur: Edge)
    requires InHand(s, buffer, total, h, cur)
    ensures buffer[h := cur][..total] == s && buffer[h := cur][total..] == buffer[total..]
  {
  }

  lemma InHandStep(s: seq<Edge>, buffer: seq<Edge>, total: nat, h: nat, cur: Edge, t: nat)
    requires InHand(s, buffer, total, h, cur) && t < total && t != h
    ensures InHand(s[h := s[t]][t := s[h]], buffer[t := cur], total, h, buffer[t])
    ensures buffer[t := cur][total..] == buffer[total..]
  {
  }
}
