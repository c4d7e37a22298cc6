/** A window of slices over flat inverted lists, refined to a queue of slices.

    A step appends the lists of a sub-index, drops the oldest slice, or does both at once.
    Every list keeps the cumulative sizes of its slices; dropping the oldest moves the rest
    of its ids and codes to the front and subtracts its size. */
module SlidingWindow {
  import opened Arithmetic
  import opened Vectors
  import opened Wrappers

  /** A sub-index: per list, its ids and their codes, codeSize bytes per id. */
  datatype Slice = Slice(ids: seq<seq<int>>, codes: seq<seq<int>>)

  // ---- concatenated parts ----

  /** The lengths of the prefixes of the list. */
  ghost predicate Cumulative(sizes: seq<nat>, parts: seq<seq<int>>) {
    |sizes| == |parts| && forall j :: 0 <= j < |sizes| ==> sizes[j] == |Join(parts[..j + 1])|
  }

  lemma CumulativeAppend(sizes: seq<nat>, parts: seq<seq<int>>, x: seq<int>)
    requires Cumulative(sizes, parts)
    ensures Cumulative(sizes + [|Join(parts + [x])|], parts + [x])
  {
    var more := parts + [x];
    assert more[..|parts| + 1] == more;
    forall j | 0 <= j < |sizes| ensures sizes[j] == |Join(more[..j + 1])| {
      assert more[..j + 1] == parts[..j + 1];
    }
  }

  lemma CumulativeNext(sizes: seq<nat>, parts: seq<seq<int>>, j: nat)
    requires Cumulative(sizes, parts) && j + 1 < |sizes|
    ensures sizes[j + 1] == sizes[0] + |Join(parts[1..][..j + 1])|
    ensures sizes[0] == |parts[0]|
  {
    JoinFirst(parts[..j + 2]);
    assert parts[..j + 2][1..] == parts[1..][..j + 1];
    JoinFirst(parts[..1]);
    assert parts[..1][1..] == [];
  }

  // ---- vector operations ----

  function Resize(v: seq<int>, n: nat): (r: seq<int>)
    ensures |r| == n
  {
    if n <= |v| then v[..n] else v + seq(n - |v|, _ => 0)
  }

  /** Drop elements at the front by moving the rest down, then append. */
  method ShiftAndAdd(v: seq<int>, remove: nat, src: seq<int>) returns (r: seq<int>)
    requires remove <= |v|
    ensures r == v[remove..] + src
  {
    r := v;
    if remove > 0 {
      r := MemMove(r, 0, remove, |r| - remove);
    }
    var insertPoint := |r| - remove;
    assert r[..insertPoint] == v[remove..];
    r := Resize(r, insertPoint + |src|);
    assert r[..insertPoint] == v[remove..];
    r := r[..insertPoint] + src + r[insertPoint + |src|..];
  }

  method RemoveFromBegin(v: seq<int>, remove: nat) returns (r: seq<int>)
    requires remove <= |v|
    ensures r == v[remove..]
  {
    r := v;
    if remove > 0 {
      r := r[remove..];
    }
  }

  /** Each entry takes its successor's place, less the removed amount; the last entry
      is left for the caller. */
  method ShiftSizes(sizes: seq<nat>, ghost parts: seq<seq<int>>, remove: nat) returns (r: seq<nat>)
    requires Cumulative(sizes, parts) && parts != [] && remove == sizes[0]
    ensures |r| == |sizes|
    ensures forall j {:trigger r[j]} :: 0 <= j < |r| - 1 ==> r[j] == |Join(parts[1..][..j + 1])|
  {
    r := sizes;
    var j := 0;
    while j + 1 < |sizes|
      invariant 0 <= j < |sizes| == |r|
      invariant forall i {:trigger r[i]} :: 0 <= i < j ==> r[i] == |Join(parts[1..][..i + 1])|
      invariant forall i :: j <= i < |r| ==> r[i] == sizes[i]
    {
      CumulativeNext(sizes, parts, j);
      r := r[j := r[j + 1] - remove];
      j := j + 1;
    }
  }

  // ---- one list ----

  datatype List = List(ids: seq<int>, codes: seq<int>, sizes: seq<nat>)

  ghost predicate Aligned(ids: seq<seq<int>>, codes: seq<seq<int>>, codeSize: nat) {
    |ids| == |codes| && forall j :: 0 <= j < |ids| ==> |codes[j]| == |ids[j]| * codeSize
  }

  /** The list is the concatenation of its parts, oldest first. */
  ghost predicate Holds(l: List, ids: seq<seq<int>>, codes: seq<seq<int>>, codeSize: nat) {
    && Aligned(ids, codes, codeSize)
    && l.ids == Join(ids) && l.codes == Join(codes) && Cumulative(l.sizes, ids)
  }

  lemma {:induction false} JoinAligned(ids: seq<seq<int>>, codes: seq<seq<int>>, codeSize: nat)
    requires Aligned(ids, codes, codeSize)
    ensures |Join(codes)| == |Join(ids)| * codeSize
  {
    if ids != [] {
      var n := |ids| - 1;
      JoinAligned(ids[..n], codes[..n], codeSize);
      Distribute(|Join(ids[..n])|, |ids[n]|, codeSize);
    }
  }

  lemma DropOldest(l: List, ids: seq<seq<int>>, codes: seq<seq<int>>, codeSize: nat)
    requires Holds(l, ids, codes, codeSize) && ids != []
    ensures l.sizes[0] == |ids[0]| <= |l.ids| && |codes[0]| == l.sizes[0] * codeSize <= |l.codes|
    ensures l.ids[l.sizes[0]..] == Join(ids[1..]) && l.codes[l.sizes[0] * codeSize..] == Join(codes[1..])
    ensures Aligned(ids[1..], codes[1..], codeSize)
  {
    JoinFirst(ids);
    JoinFirst(codes);
    JoinFirst(ids[..1]);
    assert ids[..1][1..] == [];
  }

  method ReplaceOldest(l: List, newIds: seq<int>, newCodes: seq<int>, codeSize: nat,
                       ghost ids: seq<seq<int>>, ghost codes: seq<seq<int>>)
    returns (r: List)
    requires Holds(l, ids, codes, codeSize) && ids != [] && |newCodes| == |newIds| * codeSize
    ensures Holds(r, ids[1..] + [newIds], codes[1..] + [newCodes], codeSize)
    ensures |l.sizes| > 0 && |r.ids| + l.sizes[0] == |l.ids| + |newIds|
  {
    DropOldest(l, ids, codes, codeSize);
    var amount := l.sizes[0];
    var ids', codes', sizes';
    ids' := ShiftAndAdd(l.ids, amount, newIds);
    codes' := ShiftAndAdd(l.codes, amount * codeSize, newCodes);
    sizes' := ShiftSizes(l.sizes, ids, amount);
    sizes' := sizes'[|sizes'| - 1 := |ids'|];
    JoinAppend(ids[1..], newIds);
    JoinAppend(codes[1..], newCodes);
    CumulativeLast(sizes', ids, newIds);
    r := List(ids', codes', sizes');
  }

  lemma CumulativeLast(sizes: seq<nat>, ids: seq<seq<int>>, newIds: seq<int>)
    requires ids != [] && |sizes| == |ids| && sizes[|sizes| - 1] == |Join(ids[1..] + [newIds])|
    requires forall j {:trigger sizes[j]} :: 0 <= j < |sizes| - 1 ==> sizes[j] == |Join(ids[1..][..j + 1])|
    ensures Cumulative(sizes, ids[1..] + [newIds])
  {
    var last := |sizes| - 1;
    CumulativeAppend(sizes[..last], ids[1..], newIds);
    assert sizes == sizes[..last] + [sizes[last]];
  }

  method Append(l: List, newIds: seq<int>, newCodes: seq<int>, ghost codeSize: nat,
                ghost ids: seq<seq<int>>, ghost codes: seq<seq<int>>)
    returns (r: List)
    requires Holds(l, ids, codes, codeSize) && |newCodes| == |newIds| * codeSize
    ensures Holds(r, ids + [newIds], codes + [newCodes], codeSize)
    ensures |r.ids| == |l.ids| + |newIds|
  {
    var ids' := ShiftAndAdd(l.ids, 0, newIds);
    var codes' := ShiftAndAdd(l.codes, 0, newCodes);
    JoinAppend(ids, newIds);
    JoinAppend(codes, newCodes);
    CumulativeAppend(l.sizes, ids, newIds);
    r := List(ids', codes', l.sizes + [|ids'|]);
  }

  method PopOldest(l: List, codeSize: nat, ghost ids: seq<seq<int>>, ghost codes: seq<seq<int>>) returns (r: List)
    requires Holds(l, ids, codes, codeSize) && ids != []
    ensures Holds(r, ids[1..], codes[1..], codeSize)
    ensures |l.sizes| > 0 && |r.ids| + l.sizes[0] == |l.ids|
  {
    DropOldest(l, ids, codes, codeSize);
    var amount := l.sizes[0];
    var ids' := RemoveFromBegin(l.ids, amount);
    var codes' := RemoveFromBegin(l.codes, amount * codeSize);
    var sizes' := ShiftSizes(l.sizes, ids, amount);
    r := List(ids', codes', sizes'[..|sizes'| - 1]);
  }

  // ---- the window ----

  ghost predicate SliceOk(s: Slice, nlist: nat, codeSize: nat) {
    |s.ids| == nlist && Aligned(s.ids, s.codes, codeSize)
  }

  ghost predicate AllOk(slices: seq<Slice>, nlist: nat, codeSize: nat) {
    forall j :: 0 <= j < |slices| ==> SliceOk(slices[j], nlist, codeSize)
  }

  /** The parts of list i, slice by slice. */
  ghost function Ids(slices: seq<Slice>, i: nat): (parts: seq<seq<int>>)
    requires forall j :: 0 <= j < |slices| ==> i < |slices[j].ids|
  {
    seq(|slices|, j requires 0 <= j < |slices| => slices[j].ids[i])
  }

  ghost function Codes(slices: seq<Slice>, i: nat): (parts: seq<seq<int>>)
    requires forall j :: 0 <= j < |slices| ==> i < |slices[j].codes|
  {
    seq(|slices|, j requires 0 <= j < |slices| => slices[j].codes[i])
  }

  ghost predicate ListHolds(l: List, slices: seq<Slice>, i: nat, nlist: nat, codeSize: nat)
    requires i < nlist && AllOk(slices, nlist, codeSize)
  {
    Holds(l, Ids(slices, i), Codes(slices, i), codeSize)
  }

  lemma Columns(slices: seq<Slice>, more: Slice, i: nat, nlist: nat, codeSize: nat)
    requires i < nlist && AllOk(slices, nlist, codeSize) && SliceOk(more, nlist, codeSize)
    ensures AllOk(slices + [more], nlist, codeSize)
    ensures Ids(slices + [more], i) == Ids(slices, i) + [more.ids[i]]
    ensures Codes(slices + [more], i) == Codes(slices, i) + [more.codes[i]]
    ensures slices != [] ==> Ids(slices[1..], i) == Ids(slices, i)[1..] && Codes(slices[1..], i) == Codes(slices, i)[1..]
    ensures slices != [] ==> Ids(slices[1..] + [more], i) == Ids(slices, i)[1..] + [more.ids[i]]
    ensures slices != [] ==> Codes(slices[1..] + [more], i) == Codes(slices, i)[1..] + [more.codes[i]]
  {
  }

  function Total(lists: seq<List>): nat {
    if lists == [] then 0 else Total(lists[..|lists| - 1]) + |lists[|lists| - 1].ids|
  }

  lemma {:induction false} TotalUpdate(lists: seq<List>, i: nat, l: List)
    requires i < |lists|
    ensures Total(lists[i := l]) == Total(lists) - |lists[i].ids| + |l.ids|
  {
    var n := |lists| - 1;
    var lists' := lists[i := l];
    if i == n {
      assert lists'[..n] == lists[..n];
    } else {
      TotalUpdate(lists[..n], i, l);
      assert lists'[..n] == lists[..n][i := l];
    }
  }

  method ReplaceIn(l: List, sub: Slice, i: nat, codeSize: nat, ghost slices: seq<Slice>, ghost nlist: nat)
    returns (r: List)
    requires i < nlist && AllOk(slices, nlist, codeSize) && SliceOk(sub, nlist, codeSize) && slices != []
    requires ListHolds(l, slices, i, nlist, codeSize)
    ensures AllOk(slices[1..] + [sub], nlist, codeSize) && ListHolds(r, slices[1..] + [sub], i, nlist, codeSize)
    ensures |l.sizes| > 0 && |r.ids| + l.sizes[0] == |l.ids| + |sub.ids[i]|
  {
    Columns(slices, sub, i, nlist, codeSize);
    r := ReplaceOldest(l, sub.ids[i], sub.codes[i], codeSize, Ids(slices, i), Codes(slices, i));
  }

  method AppendIn(l: List, sub: Slice, i: nat, ghost codeSize: nat, ghost slices: seq<Slice>, ghost nlist: nat)
    returns (r: List)
    requires i < nlist && AllOk(slices, nlist, codeSize) && SliceOk(sub, nlist, codeSize)
    requires ListHolds(l, slices, i, nlist, codeSize)
    ensures AllOk(slices + [sub], nlist, codeSize) && ListHolds(r, slices + [sub], i, nlist, codeSize)
    ensures |r.ids| == |l.ids| + |sub.ids[i]|
  {
    Columns(slices, sub, i, nlist, codeSize);
    r := Append(l, sub.ids[i], sub.codes[i], codeSize, Ids(slices, i), Codes(slices, i));
  }

  method PopIn(l: List, ghost i: nat, codeSize: nat, ghost slices: seq<Slice>, ghost nlist: nat) returns (r: List)
    requires i < nlist && AllOk(slices, nlist, codeSize) && slices != []
    requires ListHolds(l, slices, i, nlist, codeSize)
    ensures AllOk(slices[1..], nlist, codeSize) && ListHolds(r, slices[1..], i, nlist, codeSize)
    ensures |l.sizes| > 0 && |r.ids| + l.sizes[0] == |l.ids|
  {
    Columns(slices, slices[0], i, nlist, codeSize);
    r := PopOldest(l, codeSize, Ids(slices, i), Codes(slices, i));
  }

  /** The lists before i already hold the next queue, the others still the old one. */
  ghost predicate Halfway(lists: seq<List>, slices: seq<Slice>, next: seq<Slice>, i: nat, nlist: nat, codeSize: nat)
  {
    && AllOk(slices, nlist, codeSize) && AllOk(next, nlist, codeSize)
    && |lists| == nlist && i <= nlist
    && (forall j :: 0 <= j < i ==> ListHolds(lists[j], next, j, nlist, codeSize))
    && (forall j :: i <= j < nlist ==> ListHolds(lists[j], slices, j, nlist, codeSize))
  }

  lemma OneMore(lists: seq<List>, slices: seq<Slice>, next: seq<Slice>, i: nat, nlist: nat, codeSize: nat, l: List)
    requires i < nlist && Halfway(lists, slices, next, i, nlist, codeSize)
    requires ListHolds(l, next, i, nlist, codeSize)
    ensures Halfway(lists[i := l], slices, next, i + 1, nlist, codeSize)
    ensures Total(lists[i := l]) == Total(lists) - |lists[i].ids| + |l.ids|
  {
    TotalUpdate(lists, i, l);
  }

  class SlidingIndexWindow {
    const nlist: nat
    const codeSize: nat
    var lists: seq<List>
    var nSlice: nat
    var ntotal: nat
    ghost var slices: seq<Slice>

    ghost predicate Valid()
      reads this
    {
      && nSlice == |slices| && AllOk(slices, nlist, codeSize)
      && |lists| == nlist
      && (forall i :: 0 <= i < nlist ==> ListHolds(lists[i], slices, i, nlist, codeSize))
      && ntotal == Total(lists)
    }

    /** Over an empty index. */
    constructor (nlist: nat, codeSize: nat)
      ensures Valid() && slices == [] && this.nlist == nlist && this.codeSize == codeSize
    {
      this.nlist, this.codeSize := nlist, codeSize;
      lists, nSlice, ntotal, slices := seq(nlist, _ => List([], [], [])), 0, 0, [];
      new;
      TotalEmpty(lists);
    }

    /** List i gains `more` ids and loses `less`. */
    method SetList(i: nat, l: List, more: nat, less: nat, ghost next: seq<Slice>)
      requires i < nlist && Halfway(lists, slices, next, i, nlist, codeSize) && ntotal == Total(lists)
      requires ListHolds(l, next, i, nlist, codeSize) && |l.ids| + less == |lists[i].ids| + more
      modifies `lists, `ntotal
      ensures Halfway(lists, slices, next, i + 1, nlist, codeSize) && ntotal == Total(lists)
    {
      OneMore(lists, slices, next, i, nlist, codeSize, l);
      ntotal := ntotal + more - less;
      lists := lists[i := l];
    }

    method Replace(sub: Slice)
      requires Valid() && slices != [] && SliceOk(sub, nlist, codeSize)
      modifies this
      ensures Valid() && slices == old(slices)[1..] + [sub]
    {
      ghost var next := slices[1..] + [sub];
      for i := 0 to nlist
        invariant nSlice == |slices| && slices == old(slices)
        invariant Halfway(lists, slices, next, i, nlist, codeSize) && ntotal == Total(lists)
      {
        assert ListHolds(lists[i], slices, i, nlist, codeSize);
        var l := ReplaceIn(lists[i], sub, i, codeSize, slices, nlist);
        SetList(i, l, |sub.ids[i]|, lists[i].sizes[0], next);
      }
      slices := next;
    }

    method AddSlice(sub: Slice)
      requires Valid() && SliceOk(sub, nlist, codeSize)
      modifies this
      ensures Valid() && slices == old(slices) + [sub]
    {
      ghost var next := slices + [sub];
      for i := 0 to nlist
        invariant nSlice == |slices| && slices == old(slices)
        invariant Halfway(lists, slices, next, i, nlist, codeSize) && ntotal == Total(lists)
      {
        assert ListHolds(lists[i], slices, i, nlist, codeSize);
        var l := AppendIn(lists[i], sub, i, codeSize, slices, nlist);
        SetList(i, l, |sub.ids[i]|, 0, next);
      }
      nSlice := nSlice + 1;
      slices := next;
    }

    method RemoveSlice()
      requires Valid() && slices != []
      modifies this
      ensures Valid() && slices == old(slices)[1..]
    {
      ghost var next := slices[1..];
      for i := 0 to nlist
        invariant nSlice == |slices| && slices == old(slices)
        invariant Halfway(lists, slices, next, i, nlist, codeSize) && ntotal == Total(lists)
      {
        assert ListHolds(lists[i], slices, i, nlist, codeSize);
        var l := PopIn(lists[i], i, codeSize, slices, nlist);
        SetList(i, l, 0, lists[i].sizes[0], next);
      }
      nSlice := nSlice - 1;
      slices := next;
    }

    /** One step of the window: refused, without effect, when there is nothing to
        remove or nothing to do; otherwise the slices move as in a queue. */
    method Step(sub: Option<Slice>, removeOldest: bool) returns (thrown: bool)
      requires Valid() && (sub.Some? ==> SliceOk(sub.value, nlist, codeSize))
      modifies this
      ensures Valid()
      ensures thrown <==> (removeOldest && old(slices) == []) || (!removeOldest && sub.None?)
      ensures thrown ==> lists == old(lists) && nSlice == old(nSlice) && ntotal == old(ntotal) && slices == old(slices)
      ensures !thrown ==> slices == (if removeOldest then old(slices)[1..] else old(slices))
                                    + (if sub.Some? then [sub.value] else [])
    {
      if removeOldest && nSlice == 0 {
        return true;
      }
      if removeOldest && sub.Some? {
        Replace(sub.value);
      } else if sub.Some? {
        AddSlice(sub.value);
      } else if removeOldest {
        RemoveSlice();
      } else {
        return true;
      }
      return false;
    }
  }

  lemma {:induction false} TotalEmpty(lists: seq<List>)
    requires forall i :: 0 <= i < |lists| ==> lists[i].ids == []
    ensures Total(lists) == 0
  {
    if lists != [] {
      TotalEmpty(lists[..|lists| - 1]);
    }
  }
}
