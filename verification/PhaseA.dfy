/** Phase A of the deterministic HNSW build: threads reserve slots in one shared
    buffer by an atomic fetch-and-add and fill them concurrently. */
module PhaseA {
  import opened ReverseEdges
  import opened Permutations

  /** One slot: the k-th reverse edge of point p of the batch. */
  datatype Slot = Slot(p: nat, k: nat)

  /** The shared state.  `slots` and `order` record which reservation handed out
      each slot; the program does not keep them. */
  datatype Fill = Fill(
    counter: nat,
    offs: map<nat, nat>,
    progress: map<nat, nat>,
    buffer: map<nat, Edge>,
    slots: seq<Slot>,
    order: seq<nat>)

  const EMPTY_FILL: Fill := Fill(0, map[], map[], map[], [], [])

  function BlockOf(p: nat, n: nat): seq<Slot> {
    seq(n, k requires 0 <= k < n => Slot(p, k))
  }

  /** Point p takes the next |edges[p]| slots. */
  ghost predicate Reserve(edges: seq<seq<Edge>>, p: nat, f: Fill, f': Fill) {
    && p < |edges| && p !in f.offs
    && f' == Fill(f.counter + |edges[p]|, f.offs[p := f.counter], f.progress[p := 0], f.buffer,
                  f.slots + BlockOf(p, |edges[p]|), f.order + [p])
  }

  /** Point p writes its next edge. */
  ghost predicate Write(edges: seq<seq<Edge>>, p: nat, f: Fill, f': Fill) {
    && p < |edges| && p in f.offs && p in f.progress && f.progress[p] < |edges[p]|
    && f' == f.(buffer := f.buffer[f.offs[p] + f.progress[p] := edges[p][f.progress[p]]],
                progress := f.progress[p := f.progress[p] + 1])
  }

  ghost predicate Step(edges: seq<seq<Edge>>, f: Fill, f': Fill) {
    exists p :: Reserve(edges, p, f, f') || Write(edges, p, f, f')
  }

  ghost predicate Done(edges: seq<seq<Edge>>, f: Fill) {
    forall p :: 0 <= p < |edges| ==> p in f.offs && p in f.progress && f.progress[p] == |edges[p]|
  }

  ghost predicate Points(edges: seq<seq<Edge>>, f: Fill) {
    && (forall i :: 0 <= i < |f.order| ==> f.order[i] < |edges|)
    && (forall i, j :: 0 <= i < j < |f.order| ==> f.order[i] != f.order[j])
    && (forall p :: p in f.offs <==> p in f.order)
    && (forall p :: p in f.offs ==> p in f.progress && f.progress[p] <= |edges[p]|)
  }

  ghost predicate HasSlot(f: Fill, p: nat, k: nat)
    requires p in f.offs
  {
    f.offs[p] + k < |f.slots| && f.slots[f.offs[p] + k] == Slot(p, k)
  }

  ghost predicate Tiled(edges: seq<seq<Edge>>, f: Fill) {
    && |f.slots| == f.counter
    && (forall i :: 0 <= i < f.counter ==>
          var s := f.slots[i]; s.p in f.offs && s.p < |edges| && s.k < |edges[s.p]| && f.offs[s.p] + s.k == i)
    && (forall p: nat, k: nat :: p in f.offs && p < |edges| && k < |edges[p]| ==> HasSlot(f, p, k))
  }

  /** Slot i was handed out, and its point has come that far. */
  ghost predicate IsWritten(f: Fill, i: int)
    requires |f.slots| == f.counter && forall j :: 0 <= j < f.counter ==> f.slots[j].p in f.progress
  {
    0 <= i < f.counter && f.slots[i].k < f.progress[f.slots[i].p]
  }

  /** Slot i holds its edge exactly when its point has come that far. */
  ghost predicate SlotOk(edges: seq<seq<Edge>>, f: Fill, i: int)
    requires Points(edges, f) && Tiled(edges, f)
  {
    if IsWritten(f, i) then i in f.buffer && f.buffer[i] == edges[f.slots[i].p][f.slots[i].k] else i !in f.buffer
  }

  ghost predicate Written(edges: seq<seq<Edge>>, f: Fill)
    requires Points(edges, f) && Tiled(edges, f)
  {
    forall i :: SlotOk(edges, f, i)
  }

  function SlotEdges(edges: seq<seq<Edge>>, slots: seq<Slot>): seq<Edge>
    requires forall i :: 0 <= i < |slots| ==> slots[i].p < |edges| && slots[i].k < |edges[slots[i].p]|
  {
    seq(|slots|, i requires 0 <= i < |slots| => edges[slots[i].p][slots[i].k])
  }

  /** Reservations tile [0, counter); written slots hold the edge they were
      handed out for, and nothing else has been written. */
  ghost predicate Inv(edges: seq<seq<Edge>>, f: Fill) {
    && Points(edges, f) && Tiled(edges, f) && Written(edges, f)
    && SlotEdges(edges, f.slots) == Concat(edges, f.order)
  }

  lemma ReserveInv(edges: seq<seq<Edge>>, p: nat, f: Fill, f': Fill)
    requires Inv(edges, f) && Reserve(edges, p, f, f')
    ensures Inv(edges, f')
  {
    ReservePoints(edges, p, f, f');
    ReserveTiled(edges, p, f, f');
    ReserveWritten(edges, p, f, f');
    ReserveContent(edges, p, f, f');
  }

  lemma ReserveContent(edges: seq<seq<Edge>>, p: nat, f: Fill, f': Fill)
    requires Points(edges, f) && Tiled(edges, f) && Reserve(edges, p, f, f')
    requires Points(edges, f') && Tiled(edges, f')
    requires SlotEdges(edges, f.slots) == Concat(edges, f.order)
    ensures SlotEdges(edges, f'.slots) == Concat(edges, f'.order)
  {
    ConcatOne(edges, f.order, p);
    SlotEdgesConcat(edges, f.slots, p);
  }

  lemma ReservePoints(edges: seq<seq<Edge>>, p: nat, f: Fill, f': Fill)
    requires Points(edges, f) && Reserve(edges, p, f, f')
    ensures Points(edges, f')
  {
  }

  lemma ReserveWritten(edges: seq<seq<Edge>>, p: nat, f: Fill, f': Fill)
    requires Points(edges, f) && Tiled(edges, f) && Written(edges, f) && Reserve(edges, p, f, f')
    requires Points(edges, f') && Tiled(edges, f')
    ensures Written(edges, f')
  {
    forall i ensures SlotOk(edges, f', i) {
      assert SlotOk(edges, f, i);
      ReserveAt(edges, p, f, f', i);
    }
  }

  /** A new slot is not written yet; the old ones are as before. */
  lemma ReserveAt(edges: seq<seq<Edge>>, p: nat, f: Fill, f': Fill, i: int)
    requires Points(edges, f) && Tiled(edges, f) && Reserve(edges, p, f, f')
    requires Points(edges, f') && Tiled(edges, f')
    ensures 0 <= i < f.counter ==> f'.slots[i] == f.slots[i]
    ensures IsWritten(f', i) <==> IsWritten(f, i)
  {
    if 0 <= i < f.counter {
      assert f'.slots[i] == f.slots[i] && f.slots[i].p != p;
    } else if f.counter <= i < f'.counter {
      assert f'.slots[i] == BlockOf(p, |edges[p]|)[i - f.counter];
    }
  }

  lemma SlotEdgesConcat(edges: seq<seq<Edge>>, slots: seq<Slot>, p: nat)
    requires forall i :: 0 <= i < |slots| ==> slots[i].p < |edges| && slots[i].k < |edges[slots[i].p]|
    requires p < |edges|
    ensures forall i :: 0 <= i < |slots| + |edges[p]| ==>
              var s := (slots + BlockOf(p, |edges[p]|))[i]; s.p < |edges| && s.k < |edges[s.p]|
    ensures SlotEdges(edges, slots + BlockOf(p, |edges[p]|)) == SlotEdges(edges, slots) + edges[p]
  {
  }

  lemma ReserveTiled(edges: seq<seq<Edge>>, p: nat, f: Fill, f': Fill)
    requires Points(edges, f) && Tiled(edges, f) && Reserve(edges, p, f, f')
    ensures Tiled(edges, f')
  {
    var n := |edges[p]|;
    forall q: nat, k: nat | q in f'.offs && q < |edges| && k < |edges[q]| ensures HasSlot(f', q, k) {
      if q == p {
        assert f'.slots[f.counter + k] == BlockOf(p, n)[k];
      } else {
        assert HasSlot(f, q, k);
      }
    }
    forall i | 0 <= i < f'.counter
      ensures var s := f'.slots[i]; s.p in f'.offs && s.p < |edges| && s.k < |edges[s.p]| && f'.offs[s.p] + s.k == i
    {
      if i < f.counter {
        assert f'.slots[i] == f.slots[i] && f.slots[i].p != p;
      } else {
        assert f'.slots[i] == BlockOf(p, n)[i - f.counter];
      }
    }
  }

  /** Every write goes to a slot that nobody has written before. */
  lemma WriteInv(edges: seq<seq<Edge>>, p: nat, f: Fill, f': Fill)
    requires Inv(edges, f) && Write(edges, p, f, f')
    ensures Inv(edges, f')
    ensures f.offs[p] + f.progress[p] !in f.buffer
  {
    assert HasSlot(f, p, f.progress[p]) && SlotOk(edges, f, f.offs[p] + f.progress[p]);
    WriteTiled(edges, p, f, f');
    WriteWritten(edges, p, f, f');
  }

  lemma WriteTiled(edges: seq<seq<Edge>>, p: nat, f: Fill, f': Fill)
    requires Points(edges, f) && Tiled(edges, f) && Write(edges, p, f, f')
    ensures Points(edges, f') && Tiled(edges, f')
  {
    forall q: nat, k: nat | q in f'.offs && q < |edges| && k < |edges[q]| ensures HasSlot(f', q, k) {
      assert HasSlot(f, q, k);
    }
  }

  lemma WriteWritten(edges: seq<seq<Edge>>, p: nat, f: Fill, f': Fill)
    requires Points(edges, f) && Tiled(edges, f) && Written(edges, f) && Write(edges, p, f, f')
    requires Points(edges, f') && Tiled(edges, f')
    ensures Written(edges, f')
  {
    var x := f.offs[p] + f.progress[p];
    assert HasSlot(f, p, f.progress[p]);
    forall i ensures SlotOk(edges, f', i) {
      assert SlotOk(edges, f, i);
      WriteAt(edges, p, f, f', x, i);
    }
  }

  /** The slot written is the next one of its point, and no other. */
  lemma WriteAt(edges: seq<seq<Edge>>, p: nat, f: Fill, f': Fill, x: nat, i: int)
    requires Points(edges, f) && Tiled(edges, f) && Write(edges, p, f, f') && Points(edges, f') && Tiled(edges, f')
    requires x == f.offs[p] + f.progress[p] && HasSlot(f, p, f.progress[p])
    ensures IsWritten(f', i) <==> i == x || IsWritten(f, i)
  {
    if 0 <= i < f.counter && i != x {
      assert f.offs[f.slots[i].p] + f.slots[i].k == i;
    }
  }

  lemma StepInv(edges: seq<seq<Edge>>, f: Fill, f': Fill)
    requires Inv(edges, f) && Step(edges, f, f')
    ensures Inv(edges, f')
  {
    var p :| Reserve(edges, p, f, f') || Write(edges, p, f, f');
    if Reserve(edges, p, f, f') {
      ReserveInv(edges, p, f, f');
    } else {
      WriteInv(edges, p, f, f');
    }
  }

  /** An interleaving of the threads, from the empty buffer. */
  ghost predicate Run(edges: seq<seq<Edge>>, run: seq<Fill>) {
    && run != [] && run[0] == EMPTY_FILL
    && forall i :: 0 <= i < |run| - 1 ==> Step(edges, run[i], run[i + 1])
  }

  lemma {:induction false} RunInv(edges: seq<seq<Edge>>, run: seq<Fill>)
    requires Run(edges, run)
    ensures Inv(edges, run[|run| - 1])
    decreases |run|
  {
    var n := |run| - 1;
    if n == 0 {
    } else {
      RunInv(edges, run[..n]);
      assert Step(edges, run[n - 1], run[n]);
      StepInv(edges, run[n - 1], run[n]);
    }
  }

  /** After any complete interleaving the used part of the buffer is fully written
      and holds exactly the batch's reverse edges, each once. */
  lemma FilledBuffer(edges: seq<seq<Edge>>, run: seq<Fill>) returns (content: seq<Edge>)
    requires Run(edges, run) && Done(edges, run[|run| - 1])
    ensures var f := run[|run| - 1];
            && |content| == f.counter && (forall i :: 0 <= i < f.counter ==> i in f.buffer && f.buffer[i] == content[i])
            && (forall i :: i in f.buffer ==> i < f.counter)
    ensures multiset(content) == multiset(Concat(edges, Identity(|edges|)))
  {
    RunInv(edges, run);
    var f := run[|run| - 1];
    content := SlotEdges(edges, f.slots);
    forall i ensures (i in f.buffer <==> 0 <= i < f.counter) && (i in f.buffer ==> f.buffer[i] == content[i]) {
      assert SlotOk(edges, f, i);
    }
    IdentityPermutation(f.order, |edges|);
    ConcatPermutation(edges, f.order, Identity(|edges|));
  }

  // ---- the size of the buffer ----

  function Total(capacity: seq<nat>): nat {
    if capacity == [] then 0 else Total(capacity[..|capacity| - 1]) + capacity[|capacity| - 1]
  }

  /** The numbers below n that `order` leaves out. */
  function Missing(order: seq<nat>, n: nat): seq<nat> {
    if n == 0 then [] else Missing(order, n - 1) + if n - 1 in order then [] else [n - 1]
  }

  lemma {:induction false} MissingMembers(order: seq<nat>, n: nat)
    ensures Distinct(Missing(order, n))
    ensures forall p: nat :: p in Missing(order, n) <==> p < n && p !in order
  {
    if n > 0 { MissingMembers(order, n - 1); }
  }

  /** Some of the points need no more than all of them. */
  lemma SomeOfAll(edges: seq<seq<Edge>>, order: seq<nat>)
    requires Distinct(order) && forall i :: 0 <= i < |order| ==> order[i] < |edges|
    ensures |Concat(edges, order)| <= |Concat(edges, Identity(|edges|))|
  {
    var rest := Missing(order, |edges|);
    MissingMembers(order, |edges|);
    forall i | 0 <= i < |order| ensures order[i] !in rest {
      assert order[i] in order;
    }
    DistinctConcat(order, rest);
    forall i | 0 <= i < |rest| ensures rest[i] < |edges| {
      assert rest[i] in rest;
    }
    forall p: nat ensures p in order + rest <==> p < |edges| {
    }
    IdentityPermutation(order + rest, |edges|);
    ConcatPermutation(edges, order + rest, Identity(|edges|));
    SameLength(Concat(edges, order + rest), Concat(edges, Identity(|edges|)));
    ConcatAppend(edges, order, rest);
  }

  lemma {:induction false} AllWithinCapacity(edges: seq<seq<Edge>>, capacity: seq<nat>, n: nat)
    requires n <= |edges| == |capacity| && forall p :: 0 <= p < |edges| ==> |edges[p]| <= capacity[p]
    ensures |Concat(edges, Identity(n))| <= Total(capacity[..n])
  {
    if n > 0 {
      AllWithinCapacity(edges, capacity, n - 1);
      assert Identity(n) == Identity(n - 1) + [n - 1];
      ConcatOne(edges, Identity(n - 1), n - 1);
      assert capacity[..n][..n - 1] == capacity[..n - 1];
    }
  }

  /** The counter is what the points so far need; nothing lies beyond it. */
  lemma WithinCounter(edges: seq<seq<Edge>>, f: Fill)
    requires Inv(edges, f)
    ensures f.counter == |Concat(edges, f.order)|
    ensures forall p :: p in f.offs && p < |edges| && edges[p] != [] ==> f.offs[p] + |edges[p]| <= f.counter
    ensures forall x :: x in f.buffer ==> 0 <= x < f.counter
  {
    assert |SlotEdges(edges, f.slots)| == f.counter;
    forall p | p in f.offs && p < |edges| && edges[p] != [] ensures f.offs[p] + |edges[p]| <= f.counter {
      assert HasSlot(f, p, |edges[p]| - 1);
    }
    forall x | x in f.buffer ensures 0 <= x < f.counter {
      assert SlotOk(edges, f, x);
    }
  }

  /** The buffer has room for the link capacity of every point of the batch: in every
      state of a run the counter, all reserved blocks and all written slots stay within it. */
  lemma CapacitySuffices(edges: seq<seq<Edge>>, capacity: seq<nat>, run: seq<Fill>, i: nat)
    requires |capacity| == |edges| && forall p :: 0 <= p < |edges| ==> |edges[p]| <= capacity[p]
    requires Run(edges, run) && i < |run|
    ensures var f := run[i];
            && f.counter <= Total(capacity)
            && (forall p :: p in f.offs && p < |edges| && edges[p] != [] ==> f.offs[p] + |edges[p]| <= Total(capacity))
            && (forall x :: x in f.buffer ==> 0 <= x < Total(capacity))
  {
    var f := run[i];
    RunInv(edges, run[..i + 1]);
    WithinCounter(edges, f);
    SomeOfAll(edges, f.order);
    AllWithinCapacity(edges, capacity, |edges|);
    assert capacity[..|edges|] == capacity;
  }
}
