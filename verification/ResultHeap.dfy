/** The binary heap behind every result list. */
module ResultHeap {
  import opened TopK
  import Permutations

  // It can be read as a sorted list of the k best candidates.  This is the heap for
  // distances, with the greatest entry on top; the one for similarities is its mirror image.

  /** The largest float marks the slots that hold no result yet. */
  const NEUTRAL: real := 340282346638528859811704183484516925440.0

  const EMPTY_SLOT := Hit(NEUTRAL, -1)

  /** Ties in the distance are broken by the id. */
  predicate After(a: Hit, b: Hit) {
    a.dis > b.dis || (a.dis == b.dis && a.id > b.id)
  }

  /** Nodes are numbered from 1; node i is the parent of nodes 2i and 2i+1. */
  function Node(p: seq<Hit>, i: nat): Hit
    requires 1 <= i <= |p|
  {
    p[i - 1]
  }

  ghost predicate IsHeap(p: seq<Hit>) {
    forall i: nat {:trigger Node(p, i)} :: 2 <= i <= |p| ==> !After(Node(p, i), Node(p, i / 2))
  }

  lemma {:induction false} RootIsLast(p: seq<Hit>, i: nat)
    requires IsHeap(p) && 1 <= i <= |p|
    ensures !After(Node(p, i), Node(p, 1))
  {
    if i > 1 {
      RootIsLast(p, i / 2);
    }
  }

  lemma TopIsLast(p: seq<Hit>)
    requires IsHeap(p) && p != []
    ensures forall e :: e in p ==> !After(e, p[0])
    ensures forall e :: e in p ==> e.dis < p[0].dis || (e.dis == p[0].dis && e.id <= p[0].id)
  {
    forall e | e in p ensures !After(e, p[0]) {
      var j :| 0 <= j < |p| && p[j] == e;
      RootIsLast(p, j + 1);
      assert Node(p, j + 1) == e && Node(p, 1) == p[0];
    }
  }

  // ---- sifting down ----

  /** A heap but for one hole, into which x is to go, at the hole or further down. */
  ghost predicate Sifting(p: seq<Hit>, hole: nat, x: Hit) {
    && 1 <= hole <= |p|
    && (forall i: nat {:trigger Node(p, i)} :: 2 <= i <= |p| && i != hole && i / 2 != hole ==>
          !After(Node(p, i), Node(p, i / 2)))
    && (hole > 1 ==> !After(x, Node(p, hole / 2)))
    && (forall i: nat {:trigger Node(p, i)} :: 2 <= i <= |p| && i / 2 == hole && hole > 1 ==>
          !After(Node(p, i), Node(p, hole / 2)))
  }

  /** Node c is the child of the hole that comes last. */
  ghost predicate LastChild(p: seq<Hit>, hole: nat, c: nat) {
    && 2 <= c <= |p| && c / 2 == hole
    && forall i: nat {:trigger Node(p, i)} :: 2 <= i <= |p| && i / 2 == hole ==> !After(Node(p, i), Node(p, c))
  }

  lemma MoveUp(p: seq<Hit>, hole: nat, c: nat, x: Hit)
    requires Sifting(p, hole, x) && LastChild(p, hole, c) && !After(x, Node(p, c))
    ensures Sifting(p[hole - 1 := Node(p, c)], c, x)
    ensures multiset(p[hole - 1 := Node(p, c)][c - 1 := x]) == multiset(p[hole - 1 := x])
  {
    var q := p[hole - 1 := Node(p, c)];
    forall i: nat | 1 <= i <= |q| ensures Node(q, i) == if i == hole then Node(p, c) else Node(p, i) {
    }
    forall i: nat | 2 <= i <= |q| && i != c && i / 2 != c ensures !After(Node(q, i), Node(q, i / 2)) {
      assert Node(p, i) == p[i - 1];
    }
    Exchange(p, hole - 1, c - 1, x);
  }

  lemma Exchange(p: seq<Hit>, h: nat, c: nat, x: Hit)
    requires h < |p| && c < |p| && h != c
    ensures multiset(p[h := p[c]][c := x]) == multiset(p[h := x])
  {
  }

  lemma FillHole(p: seq<Hit>, hole: nat, x: Hit)
    requires Sifting(p, hole, x)
    requires forall i: nat {:trigger Node(p, i)} :: 2 <= i <= |p| && i / 2 == hole ==> !After(Node(p, i), x)
    ensures IsHeap(p[hole - 1 := x])
  {
    var q := p[hole - 1 := x];
    forall i: nat | 2 <= i <= |q| ensures !After(Node(q, i), Node(q, i / 2)) {
      assert Node(q, i) == (if i == hole then x else Node(p, i));
      assert Node(q, i / 2) == (if i / 2 == hole then x else Node(p, i / 2));
    }
  }

  method Put(bh: array<Hit>, k: nat, i: nat, e: Hit)
    requires 1 <= i <= k <= bh.Length
    modifies bh
    ensures bh[..k] == old(bh[..k])[i - 1 := e] && bh[k..] == old(bh[k..])
  {
    bh[i - 1] := e;
  }

  /** The child to descend to, if any, given that the hole is at node i. */
  method PickChild(bh: array<Hit>, k: nat, i: nat) returns (c: nat)
    requires 1 <= i <= k <= bh.Length
    ensures c == 0 <==> 2 * i > k
    ensures c != 0 ==> LastChild(bh[..k], i, c)
  {
    var i1 := 2 * i;
    var i2 := i1 + 1;
    if i1 > k {
      return 0;
    }
    ghost var p := bh[..k];
    assert Node(p, i1) == bh[i1 - 1];
    if i2 == k + 1 || After(bh[i1 - 1], bh[i2 - 1]) {
      assert i2 <= k ==> Node(p, i2) == bh[i2 - 1];
      c := i1;
    } else {
      assert Node(p, i2) == bh[i2 - 1];
      c := i2;
    }
  }

  /** Let x sink from the root of the heap of the first k entries. */
  method SiftDown(bh: array<Hit>, k: nat, x: Hit)
    requires 1 <= k <= bh.Length && IsHeap(bh[..k])
    modifies bh
    ensures IsHeap(bh[..k]) && bh[k..] == old(bh[k..])
    ensures multiset(bh[..k]) == multiset(old(bh[..k])[0 := x])
    ensures old(bh[k - 1]) == x ==> bh[k - 1] == x
  {
    var i := 1;
    ghost var before := bh[..k];
    while true
      invariant Sifting(bh[..k], i, x) && bh[k..] == old(bh[k..])
      invariant multiset(bh[..k][i - 1 := x]) == multiset(before[0 := x])
      invariant before[k - 1] == x ==> bh[..k][k - 1] == x
      decreases k - i
    {
      var c := PickChild(bh, k, i);
      if c == 0 {
        break;
      }
      assert Node(bh[..k], c) == bh[c - 1];
      if After(x, bh[c - 1]) {
        break;
      }
      MoveUp(bh[..k], i, c, x);
      Put(bh, k, i, bh[c - 1]);
      i := c;
    }
    FillHole(bh[..k], i, x);
    Put(bh, k, i, x);
    assert bh[..k][k - 1] == bh[k - 1];
  }

  // ---- adding results ----

  /** The heap read as an ascending list of distances. */
  function Listed(p: seq<Hit>): seq<real> {
    Sort(Distances(p))
  }

  lemma DistancesPermutation(p: seq<Hit>, q: seq<Hit>)
    requires multiset(p) == multiset(q)
    ensures multiset(Distances(p)) == multiset(Distances(q))
  {
    forall d ensures multiset(Distances(p))[d] == multiset(Distances(q))[d] {
      var times := (u: seq<Hit>) => multiset(Distances(u))[d];
      forall u, v ensures times(u + v) == times(u) + times(v) {
        assert Distances(u + v) == Distances(u) + Distances(v);
      }
      Permutations.AdditivePermutation(times, p, q);
    }
  }

  lemma ListedPermutation(p: seq<Hit>, q: seq<Hit>)
    requires multiset(p) == multiset(q)
    ensures Listed(p) == Listed(q)
  {
    DistancesPermutation(p, q);
    SortSorted(Distances(p));
    SortSorted(Distances(q));
    SortedUnique(Listed(p), Listed(q));
  }

  /** The top of the heap is the last element of the list. */
  lemma TopIsThreshold(p: seq<Hit>)
    requires IsHeap(p) && p != []
    ensures |Listed(p)| == |p| && Listed(p)[|p| - 1] == p[0].dis
  {
    var d, h := Distances(p), Listed(p);
    SortSorted(d);
    TopIsLast(p);
    assert d[0] == p[0].dis;
    Permutations.Member(d, h, d[0]);
    Permutations.Member(h, d, h[|p| - 1]);
    var j :| 0 <= j < |d| && d[j] == h[|p| - 1];
    assert p[j] in p;
  }

  lemma ReplaceLast(d: seq<real>, h: seq<real>, x: real)
    requires d != [] && Sorted(h) && multiset(h) == multiset(d) && h != []
    requires h[|h| - 1] == d[0] && x < d[0]
    ensures Sort(d[0 := x]) == Push(|h|, h, x)
  {
    var k, r := |h|, Insert(h, x);
    InsertElements(h, x);
    InsertSorted(h, x);
    LastOfInsert(h, x);
    ReplacedElements(d, h, r, x);
    SortSorted(d[0 := x]);
    SortedUnique(Sort(d[0 := x]), r[..k]);
  }

  lemma ReplacedElements(d: seq<real>, h: seq<real>, r: seq<real>, x: real)
    requires d != [] && multiset(h) == multiset(d)
    requires |r| == |h| + 1 && multiset(r) == multiset(h) + multiset{x} && r[|h|] == d[0]
    ensures multiset(d[0 := x]) == multiset(r[..|h|])
  {
    Permutations.DropLast(r);
  }

  lemma {:induction false} LastOfInsert(h: seq<real>, x: real)
    requires h != [] && x < h[|h| - 1]
    ensures |Insert(h, x)| == |h| + 1 && Insert(h, x)[|h|] == h[|h| - 1]
  {
    if x >= h[0] {
      LastOfInsert(h[1..], x);
    }
  }

  /** Replacing the top by a smaller candidate is what the list does with it. */
  lemma ReplaceIsPush(p: seq<Hit>, q: seq<Hit>, x: Hit)
    requires IsHeap(p) && p != [] && x.dis < p[0].dis && multiset(q) == multiset(p[0 := x])
    ensures Listed(q) == Push(|p|, Listed(p), x.dis)
  {
    TopIsThreshold(p);
    SortSorted(Distances(p));
    ListedPermutation(q, p[0 := x]);
    assert Distances(p[0 := x]) == Distances(p)[0 := x.dis];
    ReplaceLast(Distances(p), Listed(p), x.dis);
  }

  method ReplaceTop(bh: array<Hit>, x: Hit)
    requires bh.Length > 0 && IsHeap(bh[..])
    modifies bh
    ensures IsHeap(bh[..]) && multiset(bh[..]) == multiset(old(bh[..])[0 := x])
  {
    assert bh[..bh.Length] == bh[..];
    SiftDown(bh, bh.Length, x);
    assert bh[..bh.Length] == bh[..];
  }

  /** The entries after a candidate was offered, but for their order. */
  function Replaced(p: seq<Hit>, x: Hit): seq<Hit>
    requires p != []
  {
    if x.dis < p[0].dis then p[0 := x] else p
  }

  /** Only a candidate strictly below the top enters. */
  method AddResult(bh: array<Hit>, x: Hit)
    requires bh.Length > 0 && IsHeap(bh[..])
    modifies bh
    ensures IsHeap(bh[..]) && Listed(bh[..]) == Push(bh.Length, old(Listed(bh[..])), x.dis)
    ensures multiset(bh[..]) == multiset(Replaced(old(bh[..]), x))
    ensures forall e :: e in bh[..] ==> (e == x && x.dis < old(bh[0]).dis) || e in old(bh[..])
  {
    ghost var p := bh[..];
    TopIsThreshold(p);
    if bh[0].dis > x.dis {
      ReplaceTop(bh, x);
      ReplaceIsPush(p, bh[..], x);
      forall e | e in bh[..] ensures e == x || e in p {
        Permutations.Member(bh[..], p[0 := x], e);
      }
    }
  }

  lemma PushNext(k: nat, h: seq<real>, xs: seq<Hit>, i: nat)
    requires k > 0 && i < |xs|
    ensures PushAll(k, h, Distances(xs[i..])) == PushAll(k, Push(k, h, xs[i].dis), Distances(xs[i + 1..]))
  {
    var d := Distances(xs[i..]);
    assert d[0] == xs[i].dis && d[1..] == Distances(xs[i + 1..]);
  }

  /** Adding candidates one by one. */
  method AddN(bh: array<Hit>, xs: seq<Hit>)
    requires bh.Length > 0 && IsHeap(bh[..])
    modifies bh
    ensures IsHeap(bh[..])
    ensures Listed(bh[..]) == PushAll(bh.Length, old(Listed(bh[..])), Distances(xs))
    ensures forall e :: e in bh[..] ==> (e in xs && e.dis < old(bh[0]).dis) || e in old(bh[..])
  {
    ghost var k, before := bh.Length, bh[..];
    TopIsLast(before);
    assert xs[0..] == xs;
    for i := 0 to |xs|
      invariant IsHeap(bh[..])
      invariant PushAll(k, Listed(bh[..]), Distances(xs[i..])) == PushAll(k, Listed(before), Distances(xs))
      invariant forall e :: e in bh[..] ==> (e in xs && e.dis < before[0].dis) || e in before
    {
      assert bh[0] in bh[..];
      PushNext(k, Listed(bh[..]), xs, i);
      AddResult(bh, xs[i]);
    }
  }

  method Heapify(bh: array<Hit>)
    modifies bh
    ensures IsHeap(bh[..]) && bh[..] == Padding(bh.Length)
  {
    for i := 0 to bh.Length
      invariant forall j :: 0 <= j < i ==> bh[j] == EMPTY_SLOT
    {
      bh[i] := EMPTY_SLOT;
    }
  }

  function Padding(n: nat): (p: seq<Hit>)
    ensures |p| == n
  {
    seq(n, _ => EMPTY_SLOT)
  }

  // ---- turning the heap into a sorted list ----

  ghost predicate Ordered(p: seq<Hit>) {
    forall i, j :: 0 <= i < j < |p| ==> !After(p[i], p[j])
  }

  /** No entry exceeds the neutral value, and id -1 marks exactly an empty slot. */
  ghost predicate Slots(p: seq<Hit>) {
    forall e :: e in p ==> e.dis <= NEUTRAL && (e.id == -1 ==> e == EMPTY_SLOT)
  }

  /** Take the top out of the heap of the first k entries. */
  method Pop(bh: array<Hit>, k: nat)
    requires 1 <= k <= bh.Length && IsHeap(bh[..k])
    modifies bh
    ensures IsHeap(bh[..k - 1]) && bh[k..] == old(bh[k..])
    ensures multiset(bh[..k - 1]) + multiset{old(bh[0])} == multiset(old(bh[..k]))
  {
    ghost var p := bh[..k];
    var val := bh[k - 1];
    SiftDown(bh, k, val);
    Shorter(p, bh[..k], val);
    assert bh[..k][..k - 1] == bh[..k - 1];
  }

  lemma Shorter(p: seq<Hit>, q: seq<Hit>, val: Hit)
    requires p != [] && IsHeap(q) && |q| == |p| && q[|q| - 1] == val
    requires multiset(q) == multiset(p[0 := val])
    ensures IsHeap(q[..|q| - 1]) && multiset(q[..|q| - 1]) + multiset{p[0]} == multiset(p)
  {
    var r := q[..|q| - 1];
    Permutations.DropLast(q);
    forall i: nat | 2 <= i <= |r| ensures !After(Node(r, i), Node(r, i / 2)) {
      assert Node(r, i) == Node(q, i) && Node(r, i / 2) == Node(q, i / 2);
    }
  }

  /** Heap h is still to be drained into the ordered list; `dropped` empty slots were. */
  ghost predicate Draining(h: seq<Hit>, list: seq<Hit>, dropped: nat, all: seq<Hit>) {
    && IsHeap(h) && Slots(h)
    && Ordered(list) && (forall o :: o in list ==> o.id != -1)
    && (forall e, o :: e in h && o in list ==> !After(e, o))
    && multiset(h) + multiset(list) + multiset(Padding(dropped)) == multiset(all)
  }

  lemma DrainOne(h: seq<Hit>, list: seq<Hit>, dropped: nat, more: nat, all: seq<Hit>, top: Hit, rest: seq<Hit>)
    requires h != [] && Draining(h, list, dropped, all) && top == h[0] && more == dropped + 1
    requires IsHeap(rest) && multiset(rest) + multiset{top} == multiset(h)
    ensures if top.id != -1 then Draining(rest, [top] + list, dropped, all) else Draining(rest, list, more, all)
  {
    TopIsLast(h);
    forall e | e in rest ensures e in h {
      assert e in multiset(rest) + multiset{top};
    }
    assert top in h;
    if top.id != -1 {
      assert multiset([top] + list) == multiset{top} + multiset(list);
    } else {
      assert Padding(more) == Padding(dropped) + [EMPTY_SLOT];
    }
  }

  /** The first m entries are the heap, the list starts at position `at`. */
  ghost predicate Drained(b: seq<Hit>, m: nat, at: nat, all: seq<Hit>) {
    m <= at <= |b| && Draining(b[..m], b[at..], at - m, all)
  }

  /** b with the top of its first `next + 1` entries taken out. */
  ghost predicate Popped(b: seq<Hit>, p: seq<Hit>, next: nat, at: nat) {
    && next < at <= |b| == |p| && p[at..] == b[at..]
    && IsHeap(p[..next]) && multiset(p[..next]) + multiset{b[0]} == multiset(b[..next + 1])
  }

  method PopBefore(bh: array<Hit>, m: nat, next: nat, at: nat)
    requires m == next + 1 && m <= at <= bh.Length && IsHeap(bh[..][..m])
    modifies bh
    ensures Popped(old(bh[..]), bh[..], next, at)
  {
    ghost var b := bh[..];
    assert b[..m] == bh[..m] && b[at..] == bh[m..][at - m..];
    Pop(bh, m);
    ghost var p := bh[..];
    assert p[..next] == bh[..next] && p[at..] == bh[m..][at - m..];
  }

  /** One round: the top goes before the list; it is overwritten in the next round
      when it is an empty slot. */
  method DrainTop(bh: array<Hit>, m: nat, next: nat, at: nat, ghost all: seq<Hit>) returns (at': nat)
    requires m == next + 1 && Drained(bh[..], m, at, all)
    modifies bh
    ensures Drained(bh[..], next, at', all)
  {
    ghost var b := bh[..];
    var top := bh[0];
    PopBefore(bh, m, next, at);
    ghost var p := bh[..];
    var before := at - 1;
    bh[before] := top;
    TopTaken(b, p, bh[..], m, next, at, before, all);
    at' := if top.id != -1 then before else at;
  }

  lemma TopTaken(b: seq<Hit>, p: seq<Hit>, after: seq<Hit>, m: nat, next: nat, at: nat, before: nat, all: seq<Hit>)
    requires m == next + 1 && Drained(b, m, at, all) && Popped(b, p, next, at)
    requires before == at - 1 && after == p[before := b[0]]
    ensures Drained(after, next, if b[0].id != -1 then before else at, all)
  {
    TakeTop(b, p, m, next, at, all, at - m, at - next);
    if b[0].id != -1 {
      StoredTop(p, after, next, at, before, b[0], at - m, all);
    } else {
      DroppedTop(p, after, next, at, before, b[0], at - next, all);
    }
  }

  /** The heap and the list after the top was taken. */
  lemma TakeTop(b: seq<Hit>, p: seq<Hit>, m: nat, next: nat, at: nat, all: seq<Hit>, dropped: nat, more: nat)
    requires m == next + 1 && Drained(b, m, at, all) && Popped(b, p, next, at)
    requires dropped == at - m && more == at - next
    ensures if b[0].id != -1 then Draining(p[..next], [b[0]] + p[at..], dropped, all)
            else Draining(p[..next], p[at..], more, all)
  {
    assert b[..m][0] == b[0];
    DrainOne(b[..m], b[at..], dropped, more, all, b[0], p[..next]);
  }

  lemma StoredSlices(p: seq<Hit>, after: seq<Hit>, next: nat, before: nat, at: nat, top: Hit)
    requires next <= before && at == before + 1 <= |p| && after == p[before := top]
    ensures after[..next] == p[..next] && after[before..] == [top] + p[at..] && after[at..] == p[at..]
  {
  }

  lemma StoredTop(p: seq<Hit>, after: seq<Hit>, next: nat, at: nat, before: nat, top: Hit, dropped: nat, all: seq<Hit>)
    requires next <= before && at == before + 1 <= |p| && dropped == before - next
    requires Draining(p[..next], [top] + p[at..], dropped, all) && after == p[before := top]
    ensures Drained(after, next, before, all)
  {
    StoredSlices(p, after, next, before, at, top);
    SameDraining(p[..next], [top] + p[at..], dropped, all, after[..next], after[before..], before - next);
  }

  lemma SameDraining(h: seq<Hit>, list: seq<Hit>, dropped: nat, all: seq<Hit>, h': seq<Hit>, list': seq<Hit>, dropped': nat)
    requires Draining(h, list, dropped, all) && h' == h && list' == list && dropped' == dropped
    ensures Draining(h', list', dropped', all)
  {
  }

  lemma DroppedTop(p: seq<Hit>, after: seq<Hit>, next: nat, at: nat, before: nat, top: Hit, more: nat, all: seq<Hit>)
    requires next <= before && at == before + 1 <= |p| && more == at - next
    requires Draining(p[..next], p[at..], more, all) && after == p[before := top]
    ensures Drained(after, next, at, all)
  {
    StoredSlices(p, after, next, before, at, top);
    SameDraining(p[..next], p[at..], more, all, after[..next], after[at..], at - next);
  }

  /** The list ends ascending, without empty slots in between, padded at the end. */
  method Reorder(bh: array<Hit>) returns (nel: nat)
    requires IsHeap(bh[..]) && Slots(bh[..])
    modifies bh
    ensures nel <= bh.Length && Ordered(bh[..nel]) && (forall j :: 0 <= j < nel ==> bh[j].id != -1)
    ensures forall i, j :: 0 <= i < j < nel ==>
              bh[i].dis < bh[j].dis || (bh[i].dis == bh[j].dis && bh[i].id <= bh[j].id)
    ensures bh[nel..] == Padding(bh.Length - nel)
    ensures multiset(bh[..]) == multiset(old(bh[..]))
    ensures Distances(bh[..]) == old(Listed(bh[..]))
  {
    var n := bh.Length;
    ghost var all := bh[..];
    var ii: nat, m: nat, at: nat := 0, n, n;
    DrainStart(all);
    for i := 0 to n
      invariant ii <= i && m == n - i && at == n - ii
      invariant Drained(bh[..], m, at, all)
    {
      var next := m - 1;
      at := DrainTop(bh, m, next, at, all);
      ii, m := n - at, next;
    }
    nel := ii;
    FinishList(bh, nel, all);
    assert forall i :: 0 <= i < nel ==> bh[..nel][i] == bh[i];
  }

  /** Close the gap in front of the list and pad it. */
  method FinishList(bh: array<Hit>, nel: nat, ghost all: seq<Hit>)
    requires nel <= bh.Length == |all| && Slots(all)
    requires Drained(bh[..], 0, bh.Length - nel, all)
    modifies bh
    ensures Ordered(bh[..nel]) && (forall j :: 0 <= j < nel ==> bh[j].id != -1)
    ensures bh[nel..] == Padding(bh.Length - nel)
    ensures multiset(bh[..]) == multiset(all) && Distances(bh[..]) == Listed(all)
  {
    ghost var list := bh[..][bh.Length - nel..];
    assert bh[..][..0] == [] && list == bh[bh.Length - nel..];
    MoveToFront(bh, nel);
    Pad(bh, nel);
    Reordered(bh[..], list, all);
    forall j | 0 <= j < nel ensures bh[j].id != -1 {
      assert bh[j] == list[j];
    }
  }

  lemma DrainStart(all: seq<Hit>)
    requires IsHeap(all) && Slots(all)
    ensures Drained(all, |all|, |all|, all)
  {
    assert Padding(0) == [] && all[..|all|] == all && all[|all|..] == [];
  }

  method Pad(bh: array<Hit>, nel: nat)
    requires nel <= bh.Length
    modifies bh
    ensures bh[..] == old(bh[..nel]) + Padding(bh.Length - nel)
    ensures bh[..nel] == old(bh[..nel]) && bh[nel..] == Padding(bh.Length - nel)
  {
    for j := nel to bh.Length
      invariant bh[..nel] == old(bh[..nel])
      invariant forall q :: nel <= q < j ==> bh[q] == EMPTY_SLOT
    {
      bh[j] := EMPTY_SLOT;
    }
    assert bh[..] == bh[..nel] + bh[nel..];
    assert bh[nel..] == Padding(bh.Length - nel);
  }

  method MoveToFront(bh: array<Hit>, nel: nat)
    requires nel <= bh.Length
    modifies bh
    ensures bh[..nel] == old(bh[bh.Length - nel..])
  {
    var from := bh.Length - nel;
    ghost var was := bh[..];
    for j := 0 to nel
      invariant forall q :: 0 <= q < j ==> bh[q] == was[from + q]
      invariant forall q :: j <= q < bh.Length ==> bh[q] == was[q]
    {
      bh[j] := bh[from + j];
    }
    Moved(bh[..nel], was, from);
  }

  lemma Moved(r: seq<Hit>, was: seq<Hit>, from: nat)
    requires from + |r| == |was| && forall q :: 0 <= q < |r| ==> r[q] == was[from + q]
    ensures r == was[from..]
  {
  }

  lemma Reordered(r: seq<Hit>, list: seq<Hit>, all: seq<Hit>)
    requires |list| <= |all| && Draining([], list, |all| - |list|, all) && Slots(all)
    requires r == list + Padding(|all| - |list|)
    ensures multiset(r) == multiset(all) && Distances(r) == Listed(all)
  {
    DistancesPermutation(r, all);
    SortSorted(Distances(all));
    Ascending(r, list, all);
    SortedUnique(Distances(r), Listed(all));
  }

  lemma Ascending(r: seq<Hit>, list: seq<Hit>, all: seq<Hit>)
    requires multiset(r) == multiset(all) && Slots(all) && Ordered(list)
    requires |list| <= |all| && r == list + Padding(|all| - |list|)
    ensures Sorted(Distances(r))
  {
    forall i | 0 <= i < |list| ensures list[i].dis <= NEUTRAL {
      assert list[i] == r[i];
      Permutations.Member(r, all, r[i]);
    }
  }

  // ---- the whole life of a result list ----

  lemma PaddedBest(k: nat, d: seq<real>)
    requires forall i :: 0 <= i < |d| ==> d[i] < NEUTRAL
    ensures Best(k, Distances(Padding(k)) + d) == Best(k, d) + Distances(Padding(k - |Best(k, d)|))
  {
    var pad, h := Distances(Padding(k)), Sort(d);
    SortSorted(d);
    SortSorted(pad + d);
    forall i | 0 <= i < |h| ensures h[i] < NEUTRAL {
      Permutations.Member(h, d, h[i]);
    }
    AscendingPadded(k, h);
    SortedUnique(Sort(pad + d), h + pad);
    TakePadded(k, h);
  }

  lemma AscendingPadded(k: nat, h: seq<real>)
    requires Sorted(h) && forall i :: 0 <= i < |h| ==> h[i] < NEUTRAL
    ensures Sorted(h + Distances(Padding(k)))
  {
  }

  lemma TakePadded(k: nat, h: seq<real>)
    ensures Take(k, h + Distances(Padding(k))) == Take(k, h) + Distances(Padding(k - |Take(k, h)|))
  {
  }

  /** The candidates that an empty slot gives way to. */
  function Fitting(xs: seq<Hit>): seq<Hit> {
    if xs == [] then [] else (if xs[0].dis < NEUTRAL then [xs[0]] else []) + Fitting(xs[1..])
  }

  lemma {:induction false} FittingMembers(xs: seq<Hit>)
    ensures forall e :: e in Fitting(xs) <==> e in xs && e.dis < NEUTRAL
  {
    if xs != [] {
      FittingMembers(xs[1..]);
      assert xs == [xs[0]] + xs[1..];
    }
  }

  /** A full list of values up to NEUTRAL. */
  ghost predicate FullUpTo(k: nat, h: seq<real>) {
    k > 0 && |h| == k && Sorted(h) && h[k - 1] <= NEUTRAL
  }

  lemma PushStaysFull(k: nat, h: seq<real>, x: real)
    requires FullUpTo(k, h)
    ensures FullUpTo(k, Push(k, h, x)) && (x >= NEUTRAL ==> Push(k, h, x) == h)
  {
    if x < h[k - 1] {
      InsertElements(h, x);
      InsertSorted(h, x);
      var r := Insert(h, x);
      assert r[k - 1] in multiset(r);
    }
  }

  /** Candidates that do not fit change nothing. */
  lemma {:induction false} PushFitting(k: nat, h: seq<real>, xs: seq<Hit>)
    requires FullUpTo(k, h)
    ensures PushAll(k, h, Distances(xs)) == PushAll(k, h, Distances(Fitting(xs)))
    decreases |xs|
  {
    if xs == [] {
      assert Distances(xs) == [];
    } else {
      var x, rest := xs[0].dis, xs[1..];
      assert Distances(xs)[1..] == Distances(rest);
      PushStaysFull(k, h, x);
      PushFitting(k, Push(k, h, x), rest);
      if x < NEUTRAL {
        assert Distances(Fitting(xs))[1..] == Distances(Fitting(rest));
      } else {
        assert Fitting(xs) == Fitting(rest);
      }
    }
  }

  lemma PaddingIsFull(k: nat)
    requires k > 0
    ensures FullUpTo(k, Listed(Padding(k)))
  {
    ListOfPadding(k);
  }

  /** Initialise, add every candidate, reorder: the first entries are the k best of the
      candidates below the largest float, in ascending order, the other slots are empty. */
  method Collect(bh: array<Hit>, xs: seq<Hit>) returns (nel: nat)
    requires bh.Length > 0 && forall i :: 0 <= i < |xs| ==> xs[i].id != -1
    modifies bh
    ensures nel <= bh.Length && Distances(bh[..nel]) == Best(bh.Length, Distances(Fitting(xs)))
    ensures bh[nel..] == Padding(bh.Length - nel)
    ensures forall j :: 0 <= j < nel ==> bh[j] in xs
    ensures forall i, j :: 0 <= i < j < nel ==>
              bh[i].dis < bh[j].dis || (bh[i].dis == bh[j].dis && bh[i].id <= bh[j].id)
  {
    ghost var ys := Fitting(xs);
    FittingMembers(xs);
    Fill(bh, xs, ys);
    ghost var heap := bh[..];
    HoldsCandidates(heap, ys);
    nel := Reorder(bh);
    WholeList(bh[..], heap, ys, nel);
    assert bh[..][..nel] == bh[..nel];
  }

  /** Initialise and add every candidate. */
  method Fill(bh: array<Hit>, xs: seq<Hit>, ghost ys: seq<Hit>)
    requires bh.Length > 0 && ys == Fitting(xs)
    modifies bh
    ensures IsHeap(bh[..]) && (forall e :: e in bh[..] ==> e in ys || e in Padding(bh.Length))
    ensures Listed(bh[..])
            == Best(bh.Length, Distances(ys)) + Distances(Padding(bh.Length - |Best(bh.Length, Distances(ys))|))
    ensures forall i :: 0 <= i < |ys| ==> ys[i].dis < NEUTRAL
  {
    Heapify(bh);
    assert bh[0] == bh[..][0] == EMPTY_SLOT;
    AddN(bh, xs);
    FittingMembers(xs);
    CollectedList(bh.Length, xs, ys);
  }

  /** Pushing candidates into an empty list leaves the best of them, then empty slots. */
  lemma FullList(k: nat, d: seq<real>)
    requires k > 0 && forall i :: 0 <= i < |d| ==> d[i] < NEUTRAL
    ensures PushAll(k, Listed(Padding(k)), d) == Best(k, d) + Distances(Padding(k - |Best(k, d)|))
  {
    ListOfPadding(k);
    PushAllBest(k, Distances(Padding(k)), d);
    PaddedBest(k, d);
  }

  lemma CollectedList(k: nat, xs: seq<Hit>, ys: seq<Hit>)
    requires k > 0 && ys == Fitting(xs)
    ensures PushAll(k, Listed(Padding(k)), Distances(xs))
            == Best(k, Distances(ys)) + Distances(Padding(k - |Best(k, Distances(ys))|))
    ensures forall i :: 0 <= i < |ys| ==> ys[i].dis < NEUTRAL
  {
    PaddingIsFull(k);
    PushFitting(k, Listed(Padding(k)), xs);
    FittingMembers(xs);
    forall i | 0 <= i < |ys| ensures ys[i].dis < NEUTRAL {
      assert ys[i] in ys;
    }
    FullList(k, Distances(ys));
  }

  lemma HoldsCandidates(heap: seq<Hit>, xs: seq<Hit>)
    requires forall e :: e in heap ==> e in xs || e in Padding(|heap|)
    requires forall i :: 0 <= i < |xs| ==> xs[i].dis < NEUTRAL && xs[i].id != -1
    ensures Slots(heap)
  {
  }

  lemma ListOfPadding(k: nat)
    ensures Listed(Padding(k)) == Distances(Padding(k)) == Best(k, Distances(Padding(k)))
  {
    var d := Distances(Padding(k));
    SortSorted(d);
    SortedUnique(Sort(d), d);
  }

  lemma WholeList(r: seq<Hit>, heap: seq<Hit>, xs: seq<Hit>, nel: nat)
    requires multiset(r) == multiset(heap) && (forall e :: e in heap ==> e in xs || e in Padding(|r|))
    requires forall i :: 0 <= i < |xs| ==> xs[i].dis < NEUTRAL && xs[i].id != -1
    requires nel <= |r| && (forall j :: 0 <= j < nel ==> r[j].id != -1) && r[nel..] == Padding(|r| - nel)
    requires Distances(r) == Best(|r|, Distances(xs)) + Distances(Padding(|r| - |Best(|r|, Distances(xs))|))
    ensures Distances(r[..nel]) == Best(|r|, Distances(xs))
    ensures forall j :: 0 <= j < nel ==> r[j] in xs
  {
    var best := Best(|r|, Distances(xs));
    forall j | 0 <= j < |r| ensures r[j] in xs || r[j] == EMPTY_SLOT {
      Permutations.Member(r, heap, r[j]);
    }
    forall j | 0 <= j < |r| ensures j < nel <==> r[j].dis < NEUTRAL {
      if j >= nel {
        assert r[j] == r[nel..][j - nel];
      }
    }
    BestMeaning(|r|, Distances(xs));
    forall j | 0 <= j < |r| ensures j < |best| <==> r[j].dis < NEUTRAL {
      assert Distances(r)[j] == r[j].dis;
      if j < |best| {
        assert best[j] in multiset(best);
        assert best[j] in Distances(xs);
      }
    }
    assert nel < |r| ==> (nel < |best| <==> r[nel].dis < NEUTRAL);
    assert |best| < |r| ==> (|best| < nel <==> r[|best|].dis < NEUTRAL);
    assert Distances(r[..nel]) == Distances(r)[..nel];
  }
}
