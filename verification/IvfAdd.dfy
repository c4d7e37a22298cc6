/** Adding vectors to an inverted file: every thread walks the whole input and
    takes care of the lists it owns. */
module IvfAdd {
  import opened Wrappers

  datatype Entry = Entry(id: int, code: seq<int>)

  /** One input vector: its coarse list (negative: none), its id, its code. */
  datatype Item = Item(listNo: int, id: int, code: seq<int>)

  /** Where the direct map says a vector is. */
  datatype Location = Location(listNo: int, offset: nat)

  const BLOCK: nat := 65536

  // ---- the sequential meaning ----

  /** The entries that the items contribute to list l, in input order. */
  function ForList(items: seq<Item>, l: nat): seq<Entry> {
    if items == [] then []
    else
      var n := |items| - 1;
      ForList(items[..n], l) + if items[n].listNo == l then [Entry(items[n].id, items[n].code)] else []
  }

  /** Every list extended by the items that belong to it. */
  function Extended(lists: seq<seq<Entry>>, items: seq<Item>): seq<seq<Entry>> {
    seq(|lists|, l requires 0 <= l < |lists| => lists[l] + ForList(items, l))
  }

  /** The records of item i: its list and its offset there; a vector without list
      (-1) is recorded as such; any other negative number is not recorded. */
  function RecordsOf(lists: seq<seq<Entry>>, items: seq<Item>, i: nat): seq<Location>
    requires i < |items| && items[i].listNo < |lists|
  {
    var l := items[i].listNo;
    if l >= 0 then [Location(l, |lists[l]| + |ForList(items[..i], l)|)]
    else if l == -1 then [Location(-1, 0)]
    else []
  }

  ghost predicate InRange(items: seq<Item>, nlist: nat) {
    forall i :: 0 <= i < |items| ==> items[i].listNo < nlist
  }

  function Records(lists: seq<seq<Entry>>, items: seq<Item>): seq<seq<Location>>
    requires InRange(items, |lists|)
  {
    seq(|items|, i requires 0 <= i < |items| => RecordsOf(lists, items, i))
  }

  lemma {:induction false} ForListConcat(a: seq<Item>, b: seq<Item>, l: nat)
    ensures ForList(a + b, l) == ForList(a, l) + ForList(b, l)
  {
    if b == [] {
      assert a + b == a;
    } else {
      var n := |b| - 1;
      ForListConcat(a, b[..n], l);
      assert (a + b)[..|a + b| - 1] == a + b[..n];
      assert (a + b)[|a + b| - 1] == b[n];
    }
  }

  lemma ForListNext(items: seq<Item>, i: nat, l: nat)
    requires i < |items|
    ensures ForList(items[..i + 1], l)
            == ForList(items[..i], l) + if items[i].listNo == l then [Entry(items[i].id, items[i].code)] else []
  {
    assert items[..i + 1][..i] == items[..i];
  }

  /** Adding two blocks one after the other is adding their concatenation. */
  lemma BlocksCompose(lists: seq<seq<Entry>>, a: seq<Item>, b: seq<Item>)
    requires InRange(a, |lists|) && InRange(b, |lists|)
    ensures InRange(a + b, |lists|)
    ensures Extended(Extended(lists, a), b) == Extended(lists, a + b)
    ensures Records(lists, a) + Records(Extended(lists, a), b) == Records(lists, a + b)
  {
    forall l | 0 <= l < |lists| ensures Extended(Extended(lists, a), b)[l] == Extended(lists, a + b)[l] {
      ForListConcat(a, b, l);
    }
    var c := a + b;
    forall i | 0 <= i < |c|
      ensures RecordsOf(lists, c, i)
              == if i < |a| then RecordsOf(lists, a, i) else RecordsOf(Extended(lists, a), b, i - |a|)
    {
      if i < |a| {
        assert c[..i] == a[..i];
      } else {
        assert c[..i] == a + b[..i - |a|];
        if c[i].listNo >= 0 {
          ForListConcat(a, b[..i - |a|], c[i].listNo);
        }
      }
    }
  }

  /** Every vector is recorded exactly once, at the place where its entry is found;
      one without a list is recorded once too, and lower numbers never. */
  lemma RecordsLocate(lists: seq<seq<Entry>>, items: seq<Item>, i: nat)
    requires InRange(items, |lists|) && i < |items|
    ensures |RecordsOf(lists, items, i)| == if items[i].listNo >= -1 then 1 else 0
    ensures items[i].listNo == -1 ==> RecordsOf(lists, items, i)[0].listNo == -1
    ensures items[i].listNo >= 0 ==>
              var at := RecordsOf(lists, items, i)[0];
              && at.listNo == items[i].listNo
              && |lists[at.listNo]| <= at.offset < |Extended(lists, items)[at.listNo]|
              && Extended(lists, items)[at.listNo][at.offset] == Entry(items[i].id, items[i].code)
  {
    if items[i].listNo >= 0 {
      var l := items[i].listNo;
      assert items == items[..i + 1] + items[i + 1..];
      ForListConcat(items[..i + 1], items[i + 1..], l);
      ForListNext(items, i, l);
    }
  }

  // ---- the parallel region ----

  /** Steps that the threads still have to take. */
  ghost function Todo(pc: seq<nat>, n: nat): nat {
    if pc == [] then 0 else (if pc[0] < n then n - pc[0] else 0) + Todo(pc[1..], n)
  }

  lemma {:induction false} TodoStep(pc: seq<nat>, n: nat, r: nat)
    requires r < |pc| && pc[r] < n
    ensures Todo(pc[r := pc[r] + 1], n) == Todo(pc, n) - 1
  {
    var pc' := pc[r := pc[r] + 1];
    if r == 0 {
      assert pc'[1..] == pc[1..];
    } else {
      TodoStep(pc[1..], n, r - 1);
      assert pc'[1..] == pc[1..][r - 1 := pc[r] + 1];
    }
  }

  ghost predicate Counters(pc: seq<nat>, nt: nat, n: nat) {
    nt > 0 && |pc| == nt && forall r :: 0 <= r < nt ==> pc[r] <= n
  }

  /** Each list has received its items up to the program counter of its owner. */
  ghost predicate ListsUpto(lists: seq<seq<Entry>>, lists0: seq<seq<Entry>>, items: seq<Item>, pc: seq<nat>)
    requires Counters(pc, |pc|, |items|)
  {
    && |lists| == |lists0|
    && forall l {:trigger lists[l]} :: 0 <= l < |lists| ==> lists[l] == lists0[l] + ForList(items[..pc[l % |pc|]], l)
  }

  /** The thread that handles item i has passed it. */
  ghost predicate Passed(items: seq<Item>, pc: seq<nat>, i: nat)
    requires |pc| > 0 && i < |items|
  {
    if items[i].listNo >= 0 then pc[items[i].listNo % |pc|] > i else pc[0] > i
  }

  /** Each item has been recorded if its handler has passed it, else not yet. */
  ghost predicate RecordsUpto(written: seq<seq<Location>>, lists0: seq<seq<Entry>>, items: seq<Item>, pc: seq<nat>)
    requires |pc| > 0 && InRange(items, |lists0|)
  {
    && |written| == |items|
    && forall i {:trigger written[i]} :: 0 <= i < |items| ==>
         written[i] == if Passed(items, pc, i) then RecordsOf(lists0, items, i) else []
  }

  /** The loop body of thread `rank` for item i: the lists, and the writes made so
      far to each position of the direct map. */
  function ThreadStep(lists: seq<seq<Entry>>, written: seq<seq<Location>>, items: seq<Item>, nt: nat, rank: nat, i: nat)
    : (seq<seq<Entry>>, seq<seq<Location>>)
    requires nt > 0 && i < |items| == |written| && items[i].listNo < |lists|
  {
    var l := items[i].listNo;
    if l >= 0 && l % nt == rank then
      (lists[l := lists[l] + [Entry(items[i].id, items[i].code)]],
       written[i := written[i] + [Location(l, |lists[l]|)]])
    else if rank == 0 && l == -1 then
      (lists, written[i := written[i] + [Location(-1, 0)]])
    else (lists, written)
  }

  lemma StepLists(lists: seq<seq<Entry>>, written: seq<seq<Location>>, lists0: seq<seq<Entry>>, items: seq<Item>,
                  pc: seq<nat>, rank: nat)
    requires Counters(pc, |pc|, |items|) && rank < |pc| && pc[rank] < |items| == |written|
    requires InRange(items, |lists0|) && ListsUpto(lists, lists0, items, pc)
    ensures ListsUpto(ThreadStep(lists, written, items, |pc|, rank, pc[rank]).0, lists0, items,
                      pc[rank := pc[rank] + 1])
  {
    var i := pc[rank];
    var lists' := ThreadStep(lists, written, items, |pc|, rank, i).0;
    var pc' := pc[rank := i + 1];
    forall l | 0 <= l < |lists'|
      ensures lists'[l] == lists0[l] + ForList(items[..pc'[l % |pc|]], l)
    {
      assert lists[l] == lists0[l] + ForList(items[..pc[l % |pc|]], l);
      if l % |pc| == rank {
        ForListNext(items, i, l);
      }
    }
  }

  lemma StepRecords(lists: seq<seq<Entry>>, written: seq<seq<Location>>, lists0: seq<seq<Entry>>, items: seq<Item>,
                    pc: seq<nat>, rank: nat)
    requires Counters(pc, |pc|, |items|) && rank < |pc| && pc[rank] < |items|
    requires InRange(items, |lists0|) && ListsUpto(lists, lists0, items, pc)
    requires RecordsUpto(written, lists0, items, pc)
    ensures RecordsUpto(ThreadStep(lists, written, items, |pc|, rank, pc[rank]).1, lists0, items,
                        pc[rank := pc[rank] + 1])
  {
    var i := pc[rank];
    var written' := ThreadStep(lists, written, items, |pc|, rank, i).1;
    var pc' := pc[rank := i + 1];
    forall j | 0 <= j < |items|
      ensures written'[j] == if Passed(items, pc', j) then RecordsOf(lists0, items, j) else []
    {
      assert written[j] == if Passed(items, pc, j) then RecordsOf(lists0, items, j) else [];
      if j == i && items[i].listNo >= 0 {
        assert lists[items[i].listNo] == lists0[items[i].listNo]
                                         + ForList(items[..pc[items[i].listNo % |pc|]], items[i].listNo);
      }
    }
  }

  lemma FinishedLists(lists: seq<seq<Entry>>, lists0: seq<seq<Entry>>, items: seq<Item>, pc: seq<nat>)
    requires Counters(pc, |pc|, |items|) && forall r :: 0 <= r < |pc| ==> pc[r] == |items|
    requires ListsUpto(lists, lists0, items, pc)
    ensures lists == Extended(lists0, items)
  {
    assert items[..|items|] == items;
    forall l | 0 <= l < |lists| ensures lists[l] == Extended(lists0, items)[l] {
      assert pc[l % |pc|] == |items|;
    }
  }

  /** Any number of threads under any scheduler: some thread that is not finished
      takes its next step, until all are.  Every list ends as in the sequential
      loop, and no position of the direct map is written by two threads. */
  method ParallelAdd(lists0: seq<seq<Entry>>, items: seq<Item>, nt: nat)
    returns (lists: seq<seq<Entry>>, written: seq<seq<Location>>)
    requires nt > 0 && InRange(items, |lists0|)
    ensures lists == Extended(lists0, items)
    ensures written == Records(lists0, items)
  {
    var n := |items|;
    var pc: seq<nat> := seq(nt, _ => 0);
    lists, written := lists0, seq(n, _ => []);
    while exists r :: 0 <= r < nt && pc[r] < n
      invariant Counters(pc, nt, n)
      invariant ListsUpto(lists, lists0, items, pc)
      invariant RecordsUpto(written, lists0, items, pc)
      decreases Todo(pc, n)
    {
      var rank :| 0 <= rank < nt && pc[rank] < n;
      TodoStep(pc, n, rank);
      StepLists(lists, written, lists0, items, pc, rank);
      StepRecords(lists, written, lists0, items, pc, rank);
      var step := ThreadStep(lists, written, items, nt, rank, pc[rank]);
      lists, written, pc := step.0, step.1, pc[rank := pc[rank] + 1];
    }
    FinishedLists(lists, lists0, items, pc);
  }

  // ---- the index ----

  /** The vectors of one call; without given ids they are numbered on from `base`. */
  function Items(coarse: seq<int>, codes: seq<seq<int>>, xids: Option<seq<int>>, base: nat): (items: seq<Item>)
    requires |codes| == |coarse| && (xids.Some? ==> |xids.value| == |coarse|)
  {
    seq(|coarse|, i requires 0 <= i < |coarse| =>
      Item(coarse[i], if xids.Some? then xids.value[i] else base + i, codes[i]))
  }

  function Part<T>(xids: Option<seq<T>>, i0: nat, i1: nat): Option<seq<T>>
    requires i0 <= i1 && (xids.Some? ==> i1 <= |xids.value|)
  {
    if xids.Some? then Some(xids.value[i0..i1]) else None
  }

  /** What the writes leave in the direct map, whose cells start out unset. */
  function Cells(written: seq<seq<Location>>): seq<Option<Location>> {
    seq(|written|, i requires 0 <= i < |written| =>
      if written[i] == [] then None else Some(written[i][|written[i]| - 1]))
  }

  lemma CellsConcat(a: seq<seq<Location>>, b: seq<seq<Location>>)
    ensures Cells(a + b) == Cells(a) + Cells(b)
  {
  }

  /** An index: its inverted lists, its vector count, its direct map of type Array. */
  datatype State = State(lists: seq<seq<Entry>>, ntotal: nat, directMap: Option<seq<Option<Location>>>)

  function AfterAdding(s: State, items: seq<Item>): State
    requires InRange(items, |s.lists|)
  {
    State(Extended(s.lists, items), s.ntotal + |items|,
          if s.directMap.Some? then Some(s.directMap.value + Cells(Records(s.lists, items))) else None)
  }

  lemma AddingTwice(s: State, a: seq<Item>, b: seq<Item>)
    requires InRange(a, |s.lists|) && InRange(b, |s.lists|)
    ensures InRange(a + b, |s.lists|)
    ensures AfterAdding(AfterAdding(s, a), b) == AfterAdding(s, a + b)
  {
    var t := AfterAdding(s, a);
    BlocksCompose(s.lists, a, b);
    CellsConcat(Records(s.lists, a), Records(t.lists, b));
    if s.directMap.Some? {
      assert s.directMap.value + Cells(Records(s.lists, a)) + Cells(Records(t.lists, b))
          == s.directMap.value + (Cells(Records(s.lists, a)) + Cells(Records(t.lists, b)));
    }
  }

  /** What an addition does to the lists, vector by vector.  A vector of list l is put behind the old entries
      of l and the earlier vectors of l, under its own id, or the next number if no ids are
      given; the lists keep what they had and get nothing else. */
  ghost predicate ListsGrown(s: State, coarse: seq<int>, codes: seq<seq<int>>, xids: Option<seq<int>>, t: State)
    requires |codes| == |coarse| && (xids.Some? ==> |xids.value| == |coarse|)
    requires forall i :: 0 <= i < |coarse| ==> coarse[i] < |s.lists|
  {
    && |t.lists| == |s.lists|
    && (forall l :: 0 <= l < |s.lists| ==>
          s.lists[l] <= t.lists[l] && |t.lists[l]| == |s.lists[l]| + multiset(coarse)[l])
    && (forall i :: 0 <= i < |coarse| && coarse[i] >= 0 ==>
          var at := |s.lists[coarse[i]]| + multiset(coarse[..i])[coarse[i]];
          && at < |t.lists[coarse[i]]|
          && t.lists[coarse[i]][at] == Entry(if xids.Some? then xids.value[i] else s.ntotal + i, codes[i]))
  }

  /** The direct map gets one cell for each vector: its place; a mark if it has no list; nothing
      below -1. */
  ghost predicate MapGrown(s: State, coarse: seq<int>, t: State)
    requires forall i :: 0 <= i < |coarse| ==> coarse[i] < |s.lists|
  {
    && (t.directMap.Some? <==> s.directMap.Some?)
    && (t.directMap.Some? ==>
          && s.directMap.value <= t.directMap.value && |t.directMap.value| == |s.directMap.value| + |coarse|
          && forall i :: 0 <= i < |coarse| ==>
               t.directMap.value[|s.directMap.value| + i]
               == if coarse[i] >= 0 then
                    Some(Location(coarse[i], |s.lists[coarse[i]]| + multiset(coarse[..i])[coarse[i]]))
                  else if coarse[i] == -1 then Some(Location(-1, 0))
                  else None)
  }

  lemma {:induction false} ForListLength(coarse: seq<int>, items: seq<Item>, l: nat)
    requires |items| == |coarse| && forall i :: 0 <= i < |items| ==> items[i].listNo == coarse[i]
    ensures |ForList(items, l)| == multiset(coarse)[l]
  {
    if items != [] {
      var n := |items| - 1;
      ForListLength(coarse[..n], items[..n], l);
      assert coarse == coarse[..n] + [coarse[n]];
    }
  }

  /** The place that the items give a vector, by counting earlier vectors of its list. */
  lemma PlaceByCount(lists: seq<seq<Entry>>, coarse: seq<int>, items: seq<Item>, i: nat)
    requires |items| == |coarse| && forall j :: 0 <= j < |items| ==> items[j].listNo == coarse[j]
    requires i < |coarse| && 0 <= coarse[i] < |lists|
    ensures RecordsOf(lists, items, i)
            == [Location(coarse[i], |lists[coarse[i]]| + multiset(coarse[..i])[coarse[i]])]
  {
    ForListLength(coarse[..i], items[..i], coarse[i]);
  }

  lemma GrowsLists(s: State, coarse: seq<int>, codes: seq<seq<int>>, xids: Option<seq<int>>, items: seq<Item>)
    requires |codes| == |coarse| && (xids.Some? ==> |xids.value| == |coarse|)
    requires forall i :: 0 <= i < |coarse| ==> coarse[i] < |s.lists|
    requires items == Items(coarse, codes, xids, s.ntotal)
    ensures ListsGrown(s, coarse, codes, xids, AfterAdding(s, items))
  {
    var t := Extended(s.lists, items);
    forall l | 0 <= l < |s.lists|
      ensures s.lists[l] <= t[l] && |t[l]| == |s.lists[l]| + multiset(coarse)[l]
    {
      ForListLength(coarse, items, l);
    }
    forall i | 0 <= i < |coarse| && coarse[i] >= 0
      ensures var at := |s.lists[coarse[i]]| + multiset(coarse[..i])[coarse[i]];
              && at < |t[coarse[i]]|
              && t[coarse[i]][at] == Entry(if xids.Some? then xids.value[i] else s.ntotal + i, codes[i])
    {
      PlaceByCount(s.lists, coarse, items, i);
      RecordsLocate(s.lists, items, i);
    }
  }

  lemma GrowsMap(s: State, coarse: seq<int>, items: seq<Item>)
    requires |items| == |coarse| && forall j :: 0 <= j < |items| ==> items[j].listNo == coarse[j] < |s.lists|
    ensures MapGrown(s, coarse, AfterAdding(s, items))
  {
    forall i | 0 <= i < |coarse|
      ensures Cells(Records(s.lists, items))[i]
              == if coarse[i] >= 0 then
                   Some(Location(coarse[i], |s.lists[coarse[i]]| + multiset(coarse[..i])[coarse[i]]))
                 else if coarse[i] == -1 then Some(Location(-1, 0))
                 else None
    {
      if coarse[i] >= 0 {
        PlaceByCount(s.lists, coarse, items, i);
      }
    }
  }

  lemma AddingNothing(s: State, none: seq<Item>)
    requires none == []
    ensures AfterAdding(s, none) == s
  {
    forall l | 0 <= l < |s.lists| ensures Extended(s.lists, none)[l] == s.lists[l] {
      assert ForList(none, l) == [];
    }
    if s.directMap.Some? {
      assert s.directMap.value + Cells(Records(s.lists, none)) == s.directMap.value;
    }
  }

  lemma ItemsWhole(coarse: seq<int>, codes: seq<seq<int>>, xids: Option<seq<int>>, base: nat)
    requires |codes| == |coarse| && (xids.Some? ==> |xids.value| == |coarse|)
    ensures Items(coarse[..|coarse|], codes[..|coarse|], Part(xids, 0, |coarse|), base)
            == Items(coarse, codes, xids, base)
  {
    assert coarse[..|coarse|] == coarse && codes[..|coarse|] == codes;
    if xids.Some? {
      assert xids.value[0..|coarse|] == xids.value;
    }
  }

  lemma ItemsExtend(coarse: seq<int>, codes: seq<seq<int>>, xids: Option<seq<int>>, base: nat, i0: nat, i1: nat)
    requires i0 <= i1 <= |coarse| == |codes| && (xids.Some? ==> |xids.value| == |coarse|)
    ensures Items(coarse[..i1], codes[..i1], Part(xids, 0, i1), base)
            == Items(coarse[..i0], codes[..i0], Part(xids, 0, i0), base)
               + Items(coarse[i0..i1], codes[i0..i1], Part(xids, i0, i1), base + i0)
  {
  }

  /** The first i vectors of a call, which started at ntotal = base. */
  ghost function First(coarse: seq<int>, codes: seq<seq<int>>, xids: Option<seq<int>>, base: nat, i: nat): seq<Item>
    requires i <= |coarse| == |codes| && (xids.Some? ==> |xids.value| == |coarse|)
  {
    Items(coarse[..i], codes[..i], Part(xids, 0, i), base)
  }

  /** One more block, from the state t that the first i0 vectors left. */
  lemma NextBlock(s: State, coarse: seq<int>, codes: seq<seq<int>>, xids: Option<seq<int>>, i0: nat, i1: nat, t: State,
                  someCoarse: seq<int>, someCodes: seq<seq<int>>, someIds: Option<seq<int>>)
    requires i0 <= i1 <= |coarse| == |codes| && (xids.Some? ==> |xids.value| == |coarse|)
    requires forall i :: 0 <= i < |coarse| ==> coarse[i] < |s.lists|
    requires t == AfterAdding(s, First(coarse, codes, xids, s.ntotal, i0))
    requires someCoarse == coarse[i0..i1] && someCodes == codes[i0..i1] && someIds == Part(xids, i0, i1)
    ensures |someCoarse| == |someCodes| == i1 - i0 && (someIds.Some? ==> |someIds.value| == i1 - i0)
    ensures forall i :: 0 <= i < |someCoarse| ==> someCoarse[i] < |t.lists|
    ensures AfterAdding(t, Items(someCoarse, someCodes, someIds, t.ntotal))
            == AfterAdding(s, First(coarse, codes, xids, s.ntotal, i1))
  {
    AddingTwice(s, First(coarse, codes, xids, s.ntotal, i0), Items(someCoarse, someCodes, someIds, s.ntotal + i0));
    ItemsExtend(coarse, codes, xids, s.ntotal, i0, i1);
  }

  lemma Grows(s: State, coarse: seq<int>, codes: seq<seq<int>>, xids: Option<seq<int>>, items: seq<Item>, t: State)
    requires |codes| == |coarse| && (xids.Some? ==> |xids.value| == |coarse|)
    requires forall i :: 0 <= i < |coarse| ==> coarse[i] < |s.lists|
    requires items == Items(coarse, codes, xids, s.ntotal) && t == AfterAdding(s, items)
    ensures ListsGrown(s, coarse, codes, xids, t) && MapGrown(s, coarse, t)
  {
    GrowsLists(s, coarse, codes, xids, items);
    GrowsMap(s, coarse, items);
  }

  /** After the last block. */
  lemma AllBlocks(s: State, coarse: seq<int>, codes: seq<seq<int>>, xids: Option<seq<int>>, n: nat, t: State)
    requires n == |coarse| == |codes| && (xids.Some? ==> |xids.value| == |coarse|)
    requires forall i :: 0 <= i < |coarse| ==> coarse[i] < |s.lists|
    requires t == AfterAdding(s, First(coarse, codes, xids, s.ntotal, n))
    ensures t == AfterAdding(s, Items(coarse, codes, xids, s.ntotal))
    ensures ListsGrown(s, coarse, codes, xids, t) && MapGrown(s, coarse, t)
  {
    ItemsWhole(coarse, codes, xids, s.ntotal);
    Grows(s, coarse, codes, xids, Items(coarse, codes, xids, s.ntotal), t);
  }

  class IndexIVF {
    var invlists: seq<seq<Entry>>
    var ntotal: nat
    /** The direct map of type Array, or none. */
    var directMap: Option<seq<Option<Location>>>

    ghost predicate Valid()
      reads this
    {
      directMap.Some? ==> |directMap.value| == ntotal
    }

    ghost function Contents(): State
      reads this
    {
      State(invlists, ntotal, directMap)
    }

    /** Adding n vectors, in blocks of at most 65536 and with any number of threads
        per block, has the effect of one sequential pass over all of them; it is
        refused, without effect, exactly when ids are given and the direct map
        needs sequential ones. */
    method AddCore(coarse: seq<int>, codes: seq<seq<int>>, xids: Option<seq<int>>) returns (thrown: bool)
      requires Valid() && |codes| == |coarse| && (xids.Some? ==> |xids.value| == |coarse|)
      requires forall i :: 0 <= i < |coarse| ==> coarse[i] < |invlists|
      modifies this
      ensures Valid()
      ensures thrown <==> old(directMap).Some? && xids.Some?
      ensures thrown ==> Contents() == old(Contents())
      ensures !thrown ==> Contents() == AfterAdding(old(Contents()), Items(coarse, codes, xids, old(ntotal)))
      ensures !thrown ==> ListsGrown(old(Contents()), coarse, codes, xids, Contents())
      ensures !thrown ==> MapGrown(old(Contents()), coarse, Contents()) && ntotal == old(ntotal) + |coarse|
      decreases |coarse|
    {
      var n := |coarse|;
      if n > BLOCK {
        thrown := AddBlocks(coarse, codes, xids);
        return;
      }
      if directMap.Some? && xids.Some? {
        return true;
      }
      var items := Items(coarse, codes, xids, ntotal);
      AddItems(items);
      Grows(old(Contents()), coarse, codes, xids, items, Contents());
      return false;
    }

    /** One block, with any number of threads. */
    method AddItems(items: seq<Item>)
      requires Valid() && InRange(items, |invlists|)
      modifies this
      ensures Valid() && Contents() == AfterAdding(old(Contents()), items)
    {
      var nt: nat :| nt > 0;
      var lists, written := ParallelAdd(invlists, items, nt);
      if directMap.Some? {
        directMap := Some(directMap.value + Cells(written));
      }
      invlists := lists;
      ntotal := ntotal + |items|;
    }

    method AddBlocks(coarse: seq<int>, codes: seq<seq<int>>, xids: Option<seq<int>>) returns (thrown: bool)
      requires Valid() && |codes| == |coarse| && (xids.Some? ==> |xids.value| == |coarse|)
      requires forall i :: 0 <= i < |coarse| ==> coarse[i] < |invlists|
      requires |coarse| > BLOCK
      modifies this
      ensures Valid()
      ensures thrown <==> old(directMap).Some? && xids.Some?
      ensures thrown ==> Contents() == old(Contents())
      ensures !thrown ==> Contents() == AfterAdding(old(Contents()), Items(coarse, codes, xids, old(ntotal)))
      ensures !thrown ==> ListsGrown(old(Contents()), coarse, codes, xids, Contents())
      ensures !thrown ==> MapGrown(old(Contents()), coarse, Contents()) && ntotal == old(ntotal) + |coarse|
      decreases |coarse|, 1
    {
      var n := |coarse|;
      ghost var start := Contents();
      var i0 := 0;
      AddingNothing(start, First(coarse, codes, xids, start.ntotal, 0));
      while i0 < n
        invariant 0 <= i0 <= n && Valid()
        invariant start.directMap.Some? && xids.Some? ==> i0 == 0
        invariant Contents() == AfterAdding(start, First(coarse, codes, xids, start.ntotal, i0))
      {
        var i1 := if n < i0 + BLOCK then n else i0 + BLOCK;
        thrown := AddBlock(coarse, codes, xids, i0, i1, start);
        if thrown {
          return;
        }
        i0 := i1;
      }
      AllBlocks(start, coarse, codes, xids, n, Contents());
      return false;
    }

    /** Vectors i0 to i1 of the call, which started in state `start`. */
    method AddBlock(coarse: seq<int>, codes: seq<seq<int>>, xids: Option<seq<int>>, i0: nat, i1: nat, ghost start: State)
      returns (thrown: bool)
      requires Valid() && |codes| == |coarse| && (xids.Some? ==> |xids.value| == |coarse|)
      requires forall i :: 0 <= i < |coarse| ==> coarse[i] < |start.lists|
      requires i0 <= i1 <= |coarse| && i1 - i0 < |coarse|
      requires Contents() == AfterAdding(start, First(coarse, codes, xids, start.ntotal, i0))
      modifies this
      ensures Valid()
      ensures thrown <==> old(directMap).Some? && xids.Some?
      ensures thrown ==> Contents() == old(Contents())
      ensures !thrown ==> Contents() == AfterAdding(start, First(coarse, codes, xids, start.ntotal, i1))
      decreases |coarse|, 0
    {
      var someCoarse, someCodes, someIds := coarse[i0..i1], codes[i0..i1], Part(xids, i0, i1);
      NextBlock(start, coarse, codes, xids, i0, i1, Contents(), someCoarse, someCodes, someIds);
      thrown := AddCore(someCoarse, someCodes, someIds);
    }
  }
}
