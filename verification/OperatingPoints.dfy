/** Operating points: what was measured and which of it is Pareto-optimal. */
module OperatingPointSet {
  import opened Wrappers

  /** One experiment: performance, time, a label and the combination number. */
  datatype OperatingPoint = OperatingPoint(perf: real, t: real, key: string, cno: int)

  datatype Point = Point(perf: real, t: real)

  function PointOf(op: OperatingPoint): Point {
    Point(op.perf, op.t)
  }

  /** p is at least as accurate and at most as slow as q. */
  predicate Dominates(p: Point, q: Point) {
    p.perf >= q.perf && p.t <= q.t
  }

  /** Everything known: the measured points and "do nothing". */
  ghost function Recorded(all: seq<OperatingPoint>): set<Point> {
    {Point(0.0, 0.0)} + Points(all)
  }

  ghost function Points(a: seq<OperatingPoint>): set<Point> {
    set op | op in a :: PointOf(op)
  }

  /** The points that no other point dominates. */
  ghost function Frontier(s: set<Point>): set<Point> {
    set p | p in s && forall q :: q in s && Dominates(q, p) ==> q == p
  }

  ghost predicate Covered(a: seq<OperatingPoint>, p: Point) {
    exists i :: 0 <= i < |a| && Dominates(PointOf(a[i]), p)
  }

  ghost predicate PerfIncreasing(a: seq<OperatingPoint>) {
    forall i, j :: 0 <= i < j < |a| ==> a[i].perf < a[j].perf
  }

  ghost predicate TimeIncreasing(a: seq<OperatingPoint>) {
    forall i, j :: 0 <= i < j < |a| ==> a[i].t < a[j].t
  }

  ghost predicate Increasing(a: seq<OperatingPoint>) {
    PerfIncreasing(a) && TimeIncreasing(a)
  }

  function Curve(a: seq<OperatingPoint>): seq<Point> {
    seq(|a|, i requires 0 <= i < |a| => PointOf(a[i]))
  }

  /** A staircase of recorded points that covers everything recorded is the frontier. */
  lemma FrontierOf(a: seq<OperatingPoint>, s: set<Point>)
    requires Increasing(a) && Points(a) <= s
    requires forall p :: p in s ==> Covered(a, p)
    ensures Points(a) == Frontier(s)
  {
    forall p | p in Points(a) ensures p in Frontier(s) {
      var i :| 0 <= i < |a| && PointOf(a[i]) == p;
      forall q | q in s && Dominates(q, p) ensures q == p {
        var j :| 0 <= j < |a| && Dominates(PointOf(a[j]), q);
        assert i == j;
      }
    }
    forall p | p in Frontier(s) ensures p in Points(a) {
      var i :| 0 <= i < |a| && Dominates(PointOf(a[i]), p);
      assert PointOf(a[i]) in Points(a);
    }
  }

  /** The frontier as a set determines the stored curve: same points, same order. */
  lemma {:induction false} CurveUnique(a: seq<OperatingPoint>, b: seq<OperatingPoint>)
    requires Increasing(a) && Increasing(b) && Points(a) == Points(b)
    ensures Curve(a) == Curve(b)
  {
    EmptyPoints(a);
    EmptyPoints(b);
    if a != [] {
      LastPoint(a, b);
      LastPoint(b, a);
      var n, m := |a| - 1, |b| - 1;
      assert PointOf(a[n]) == PointOf(b[m]);
      DropLast(a);
      DropLast(b);
      CurveUnique(a[..n], b[..m]);
      assert Curve(a) == Curve(a[..n]) + [PointOf(a[n])];
      assert Curve(b) == Curve(b[..m]) + [PointOf(b[m])];
    }
  }

  lemma EmptyPoints(a: seq<OperatingPoint>)
    ensures a == [] <==> Points(a) == {}
  {
    if a != [] { assert PointOf(a[0]) in Points(a); }
  }

  lemma LastPoint(a: seq<OperatingPoint>, b: seq<OperatingPoint>)
    requires a != [] && b != [] && Increasing(a) && Increasing(b) && Points(a) == Points(b)
    ensures a[|a| - 1].perf <= b[|b| - 1].perf && a[|a| - 1].t <= b[|b| - 1].t
  {
    assert PointOf(a[|a| - 1]) in Points(b);
    var i :| 0 <= i < |b| && PointOf(b[i]) == PointOf(a[|a| - 1]);
  }

  lemma DropLast(a: seq<OperatingPoint>)
    requires a != [] && Increasing(a)
    ensures Points(a[..|a| - 1]) == Points(a) - {PointOf(a[|a| - 1])}
  {
    var n := |a| - 1;
    assert a == a[..n] + [a[n]];
    forall p | p in Points(a) && p != PointOf(a[n]) ensures p in Points(a[..n]) {
      var i :| 0 <= i < |a| && PointOf(a[i]) == p;
      assert a[i] == a[..n][i];
    }
  }

  lemma RecordedSnoc(a: seq<OperatingPoint>, op: OperatingPoint)
    ensures Recorded(a + [op]) == Recorded(a) + {PointOf(op)}
  {
  }

  lemma PointsSnoc(a: seq<OperatingPoint>, i: nat)
    requires i < |a|
    ensures Points(a[..i + 1]) == Points(a[..i]) + {PointOf(a[i])}
  {
    assert a[..i + 1] == a[..i] + [a[i]];
    RecordedSnoc(a[..i], a[i]);
  }

  /** Erase, from the back, each point whose surviving successor is not slower. */
  function Pruned(b: seq<OperatingPoint>): (a: seq<OperatingPoint>)
    ensures b != [] ==> a != [] && |a| <= |b|
    decreases |b|
  {
    if |b| <= 1 then b
    else
      var rest := Pruned(b[1..]);
      if rest[0].t <= b[0].t then rest else [b[0]] + rest
  }

  /** The backward scan leaves a staircase that covers its whole input. */
  lemma {:induction false} PrunedMeaning(b: seq<OperatingPoint>)
    requires PerfIncreasing(b)
    ensures Increasing(Pruned(b))
    ensures forall op :: op in Pruned(b) ==> op in b
    ensures forall j :: 0 <= j < |b| ==> Covered(Pruned(b), PointOf(b[j]))
    decreases |b|
  {
    var a := Pruned(b);
    if |b| <= 1 {
      if b != [] { assert Dominates(PointOf(a[0]), PointOf(b[0])); }
    } else {
      PrunedMeaning(b[1..]);
      PrunedHead(b);
      PrunedFrom(b);
      forall j | 0 < j < |b| ensures Covered(a, PointOf(b[j])) {
        PrunedTail(b, PointOf(b[1..][j - 1]));
      }
    }
  }

  lemma PrunedTail(b: seq<OperatingPoint>, p: Point)
    requires |b| > 1 && Covered(Pruned(b[1..]), p)
    ensures Covered(Pruned(b), p)
  {
    var rest := Pruned(b[1..]);
    if rest[0].t > b[0].t {
      CoveredCons(b[0], rest, p);
    }
  }

  lemma CoveredCons(x: OperatingPoint, rest: seq<OperatingPoint>, p: Point)
    requires Covered(rest, p)
    ensures Covered([x] + rest, p)
  {
    var i :| 0 <= i < |rest| && Dominates(PointOf(rest[i]), p);
    assert ([x] + rest)[i + 1] == rest[i];
  }

  lemma IncreasingCons(x: OperatingPoint, rest: seq<OperatingPoint>)
    requires rest != [] && Increasing(rest) && x.perf < rest[0].perf && x.t < rest[0].t
    ensures Increasing([x] + rest)
  {
    assert forall i :: 0 < i < |rest| ==> rest[0].perf < rest[i].perf && rest[0].t < rest[i].t;
  }

  /** A point that is faster than all more accurate ones survives the scan. */
  lemma {:induction false} PrunedKeeps(b: seq<OperatingPoint>, j: nat)
    requires j < |b| && forall l :: j < l < |b| ==> b[j].t < b[l].t
    ensures b[j] in Pruned(b)
    decreases |b|
  {
    if |b| > 1 {
      var rest := Pruned(b[1..]);
      if j == 0 {
        PrunedFrom(b[1..]);
        assert rest[0] in b[1..];
      } else {
        assert forall l :: j - 1 < l < |b[1..]| ==> b[1..][l] == b[l + 1];
        PrunedKeeps(b[1..], j - 1);
        assert b[j] in rest;
      }
    }
  }

  lemma {:induction false} PrunedFrom(b: seq<OperatingPoint>)
    ensures forall op :: op in Pruned(b) ==> op in b
    decreases |b|
  {
    if |b| > 1 {
      PrunedFrom(b[1..]);
    }
  }

  lemma PrunedHead(b: seq<OperatingPoint>)
    requires |b| > 1 && PerfIncreasing(b) && Increasing(Pruned(b[1..]))
    ensures Increasing(Pruned(b)) && Covered(Pruned(b), PointOf(b[0]))
  {
    var rest := Pruned(b[1..]);
    PrunedFrom(b[1..]);
    assert rest[0] in b[1..];
    if rest[0].t > b[0].t {
      IncreasingCons(b[0], rest);
    }
    assert Dominates(PointOf(Pruned(b)[0]), PointOf(b[0]));
  }

  /** One round of the scan: point i - 1 is erased when point i is not slower. */
  lemma PrunedStep(b: seq<OperatingPoint>, a: seq<OperatingPoint>, i: nat, front: seq<OperatingPoint>, rest: seq<OperatingPoint>)
    requires 0 < i < |b| && front == b[..i] && rest == Pruned(b[i..]) && a == front + rest
    ensures a[i] == rest[0] && a[i - 1] == b[i - 1]
    ensures (if a[i].t <= a[i - 1].t then a[..i - 1] + a[i..] else a) == b[..i - 1] + Pruned(b[i - 1..])
  {
    assert b[i - 1..][1..] == b[i..];
    assert a[..i - 1] == b[..i - 1] && a[i..] == rest && front == b[..i - 1] + [b[i - 1]];
  }

  method RemoveDominated(b: seq<OperatingPoint>) returns (a: seq<OperatingPoint>)
    ensures a == Pruned(b)
  {
    a := b;
    if a == [] { return; }
    var i := |a| - 1;
    while i > 0
      invariant 0 <= i < |b|
      invariant a == b[..i] + Pruned(b[i..])
    {
      PrunedStep(b, a, i, b[..i], Pruned(b[i..]));
      if a[i].t <= a[i - 1].t {
        a := a[..i - 1] + a[i..];
      }
      i := i - 1;
    }
    assert b[0..] == b;
  }

  /** A staircase of points of s that leaves no point of s uncovered. */
  ghost predicate Staircase(a: seq<OperatingPoint>, s: set<Point>) {
    && a != []
    && Increasing(a)
    && Points(a) <= s
    && forall p :: p in s ==> Covered(a, p)
  }

  /** Not both of performance 0 and faster than doing nothing. */
  predicate Sensible(perf: real, t: real) {
    perf != 0.0 || t >= 0.0
  }

  ghost predicate AllSensible(all: seq<OperatingPoint>) {
    forall i :: 0 <= i < |all| ==> Sensible(all[i].perf, all[i].t)
  }

  /** Where a newcomer goes: behind the end, in place of a point of equal
      performance, before the first more accurate point, or nowhere. */
  method Place(a: seq<OperatingPoint>, op: OperatingPoint, ghost s: set<Point>)
    returns (placed: bool, b: seq<OperatingPoint>, ghost p: nat)
    requires Staircase(a, s) && Point(0.0, 0.0) in s && Sensible(op.perf, op.t)
    ensures placed <==> forall q :: q in s ==> !Dominates(q, PointOf(op))
    ensures !placed ==> b == a && Covered(a, PointOf(op))
    ensures placed ==> IsPlaced(a, op, b, p)
  {
    b, p := a, 0;
    var last := |a| - 1;
    if op.perf == 0.0 {
      DominatedIsCovered(a, s, Point(0.0, 0.0), op);
      return false, a, 0;
    }
    if op.perf > a[last].perf {
      NotDominated(a, s, op, |a|);
      return true, a + [op], |a|;
    } else if op.perf == a[last].perf {
      if op.t < a[last].t {
        NotDominated(a, s, op, last);
        ReplacedIsPlaced(a, op, last);
        return true, a[last := op], last;
      }
      p := last;
    } else {
      var i := 0;
      while a[i].perf < op.perf
        invariant 0 <= i < |a|
        invariant forall j :: 0 <= j < i ==> a[j].perf < op.perf
        decreases |a| - i
      {
        i := i + 1;
      }
      if op.t < a[i].t {
        NotDominated(a, s, op, i);
        if a[i].perf == op.perf {
          ReplacedIsPlaced(a, op, i);
          return true, a[i := op], i;
        } else {
          InsertedIsPlaced(a, op, i);
          return true, a[..i] + [op] + a[i..], i;
        }
      }
      p := i;
    }
    assert PointOf(a[p]) in Points(a);
    DominatedIsCovered(a, s, PointOf(a[p]), op);
    placed := false;
  }

  ghost predicate IsPlaced(a: seq<OperatingPoint>, op: OperatingPoint, b: seq<OperatingPoint>, p: nat) {
    && p < |b| && b[p] == op
    && PerfIncreasing(b)
    && (forall l :: p < l < |b| ==> op.t < b[l].t)
    && (forall x :: x in b ==> x == op || x in a)
    && (forall x :: x in a ==> x in b || Dominates(PointOf(op), PointOf(x)))
  }

  lemma ReplacedIsPlaced(a: seq<OperatingPoint>, op: OperatingPoint, i: nat)
    requires i < |a| && Increasing(a) && op.perf == a[i].perf && op.t < a[i].t
    ensures IsPlaced(a, op, a[i := op], i)
  {
    var b := a[i := op];
    forall x | x in a ensures x in b || Dominates(PointOf(op), PointOf(x)) {
      var j :| 0 <= j < |a| && a[j] == x;
      assert j != i ==> b[j] == x;
    }
  }

  lemma InsertedIsPlaced(a: seq<OperatingPoint>, op: OperatingPoint, i: nat)
    requires i < |a| && Increasing(a)
    requires forall j :: 0 <= j < i ==> a[j].perf < op.perf
    requires op.perf < a[i].perf && op.t < a[i].t
    ensures IsPlaced(a, op, a[..i] + [op] + a[i..], i)
  {
    var b := a[..i] + [op] + a[i..];
    Inserted(a, op, i, b);
    forall x | x in a ensures x in b {
      var j :| 0 <= j < |a| && a[j] == x;
      assert b[if j < i then j else j + 1] == x;
    }
  }

  lemma Inserted(a: seq<OperatingPoint>, op: OperatingPoint, i: nat, b: seq<OperatingPoint>)
    requires i <= |a| && b == a[..i] + [op] + a[i..]
    ensures |b| == |a| + 1 && b[i] == op
    ensures forall l :: 0 <= l < i ==> b[l] == a[l]
    ensures forall l :: i < l < |b| ==> b[l] == a[l - 1]
  {
  }

  lemma DominatedIsCovered(a: seq<OperatingPoint>, s: set<Point>, q: Point, op: OperatingPoint)
    requires Staircase(a, s) && q in s && Dominates(q, PointOf(op))
    ensures Covered(a, PointOf(op))
  {
    var i :| 0 <= i < |a| && Dominates(PointOf(a[i]), q);
    assert Dominates(PointOf(a[i]), PointOf(op));
  }

  /** All points before i are less accurate, point i and all behind it slower. */
  lemma NotDominated(a: seq<OperatingPoint>, s: set<Point>, op: OperatingPoint, i: nat)
    requires Staircase(a, s) && i <= |a|
    requires forall j :: 0 <= j < i ==> a[j].perf < op.perf
    requires i < |a| ==> op.t < a[i].t
    ensures forall q :: q in s ==> !Dominates(q, PointOf(op))
  {
    forall q | q in s ensures !Dominates(q, PointOf(op)) {
      var j :| 0 <= j < |a| && Dominates(PointOf(a[j]), q);
    }
  }

  /** Clean up behind a placed newcomer; the result is the staircase of s and the newcomer. */
  method RemoveAndKeep(b: seq<OperatingPoint>, op: OperatingPoint, ghost p: nat,
                       ghost a: seq<OperatingPoint>, ghost s: set<Point>)
    returns (c: seq<OperatingPoint>)
    requires Staircase(a, s) && IsPlaced(a, op, b, p)
    ensures Staircase(c, s + {PointOf(op)}) && op in c
    ensures forall x :: x in c ==> x == op || x in a
  {
    c := RemoveDominated(b);
    PrunedMeaning(b);
    PrunedKeeps(b, p);
    forall q | q in s + {PointOf(op)} ensures Covered(c, q) {
      var j := StillCovered(a, op, b, p, s, q);
      CoveredThrough(c, PointOf(b[j]), q);
    }
    forall q | q in Points(c) ensures q in s + {PointOf(op)} {
      var x :| x in c && PointOf(x) == q;
      assert x in b;
      assert x == op || PointOf(x) in Points(a);
    }
  }

  lemma StaircaseFrontier(a: seq<OperatingPoint>, s: set<Point>)
    requires Staircase(a, s)
    ensures Points(a) == Frontier(s)
  {
    FrontierOf(a, s);
  }

  /** After a measurement is recorded the staircase is the frontier of what is known. */
  lemma Recording(all: seq<OperatingPoint>, op: OperatingPoint, a: seq<OperatingPoint>)
    requires Staircase(a, Recorded(all) + {PointOf(op)}) && AllSensible(all) && Sensible(op.perf, op.t)
    ensures Recorded(all + [op]) == Recorded(all) + {PointOf(op)}
    ensures Staircase(a, Recorded(all + [op])) && AllSensible(all + [op])
    ensures Points(a) == Frontier(Recorded(all + [op]))
  {
    RecordedSnoc(all, op);
    StaircaseFrontier(a, Recorded(all + [op]));
  }

  /** Offer a point to the staircase of s. */
  method Offer(a: seq<OperatingPoint>, op: OperatingPoint, ghost s: set<Point>)
    returns (kept: bool, c: seq<OperatingPoint>)
    requires Staircase(a, s) && Point(0.0, 0.0) in s && Sensible(op.perf, op.t)
    ensures Staircase(c, s + {PointOf(op)})
    ensures kept <==> forall q :: q in s ==> !Dominates(q, PointOf(op))
    ensures if kept then op in c else c == a
    ensures forall x :: x in c ==> x == op || x in a
  {
    var b;
    ghost var p;
    kept, b, p := Place(a, op, s);
    if kept {
      c := RemoveAndKeep(b, op, p, a, s);
    } else {
      c := a;
      RejectedStaircase(a, s, op);
    }
  }

  lemma RejectedStaircase(a: seq<OperatingPoint>, s: set<Point>, op: OperatingPoint)
    requires Staircase(a, s) && Covered(a, PointOf(op))
    ensures Staircase(a, s + {PointOf(op)})
  {
  }

  lemma StillCovered(a: seq<OperatingPoint>, op: OperatingPoint, b: seq<OperatingPoint>, p: nat, s: set<Point>, q: Point)
    returns (j: nat)
    requires Staircase(a, s) && IsPlaced(a, op, b, p) && q in s + {PointOf(op)}
    ensures j < |b| && Dominates(PointOf(b[j]), q)
  {
    if q in s {
      var i :| 0 <= i < |a| && Dominates(PointOf(a[i]), q);
      if a[i] in b {
        j :| 0 <= j < |b| && b[j] == a[i];
      } else {
        j := p;
      }
    } else {
      j := p;
    }
  }

  lemma CoveredThrough(c: seq<OperatingPoint>, p: Point, q: Point)
    requires Covered(c, p) && Dominates(p, q)
    ensures Covered(c, q)
  {
    var i :| 0 <= i < |c| && Dominates(PointOf(c[i]), p);
    assert Dominates(PointOf(c[i]), q);
  }

  /** Every entry of the curve is an experiment, label and combination number included, or
      "do nothing". */
  ghost predicate FromExperiments(a: seq<OperatingPoint>, all: seq<OperatingPoint>) {
    forall x :: x in a ==> x in all || x == OperatingPoint(0.0, 0.0, "", -1)
  }

  /** The accumulated measurements and their optimal subset. */
  class OperatingPoints {
    var allPts: seq<OperatingPoint>
    var optimalPts: seq<OperatingPoint>

    ghost predicate Valid()
      reads this
    {
      Staircase(optimalPts, Recorded(allPts)) && AllSensible(allPts) && FromExperiments(optimalPts, allPts)
    }

    /** Start with the single operating point "do nothing". */
    constructor ()
      ensures Valid() && allPts == []
      ensures optimalPts == [OperatingPoint(0.0, 0.0, "", -1)]
    {
      allPts := [];
      optimalPts := [OperatingPoint(0.0, 0.0, "", -1)];
      new;
      assert Dominates(PointOf(optimalPts[0]), Point(0.0, 0.0));
    }

    method Clear()
      modifies this
      ensures Valid() && allPts == []
      ensures optimalPts == [OperatingPoint(0.0, 0.0, "", -1)]
    {
      allPts := [];
      optimalPts := [OperatingPoint(0.0, 0.0, "", -1)];
      assert Dominates(PointOf(optimalPts[0]), Point(0.0, 0.0));
    }

    /** Record a measurement; it is kept exactly when nothing recorded dominates it. */
    method Add(perf: real, t: real, key: string, cno: int) returns (kept: bool)
      requires Valid() && Sensible(perf, t)
      modifies this
      ensures Valid()
      ensures allPts == old(allPts) + [OperatingPoint(perf, t, key, cno)]
      ensures Recorded(allPts) == Recorded(old(allPts)) + {Point(perf, t)}
      ensures Points(optimalPts) == Frontier(Recorded(allPts))
      ensures kept <==> forall q :: q in Recorded(old(allPts)) ==> !Dominates(q, Point(perf, t))
      ensures if kept then OperatingPoint(perf, t, key, cno) in optimalPts else optimalPts == old(optimalPts)
      ensures forall x :: x in optimalPts ==> x == OperatingPoint(perf, t, key, cno) || x in old(optimalPts)
    {
      var op := OperatingPoint(perf, t, key, cno);
      ghost var before := allPts;
      allPts := allPts + [op];
      kept, optimalPts := Offer(optimalPts, op, Recorded(before));
      Recording(before, op, optimalPts);
    }

    /** Merge the measurements of another set, in order, under a key prefix. */
    method MergeWith(other: OperatingPoints, prefix: string) returns (added: nat)
      requires this != other
      requires Valid() && AllSensible(other.allPts)
      modifies this
      ensures Valid()
      ensures allPts == old(allPts) + Prefixed(other.allPts, prefix)
      ensures Points(optimalPts) == Frontier(Recorded(old(allPts)) + Points(other.allPts))
      ensures added == NewlyOptimal(Recorded(old(allPts)), other.allPts)
    {
      ghost var base, known, seen := allPts, Recorded(allPts), Recorded(allPts);
      var todo := other.allPts;
      added := 0;
      assert todo[0..] == todo;
      for i := 0 to |todo|
        invariant other.allPts == todo && Valid() && Recorded(allPts) == seen
        invariant Merging(base, known, seen, todo, i, prefix, allPts, added)
      {
        var op := todo[i];
        ghost var before := allPts;
        var kept := Add(op.perf, op.t, prefix + op.key, op.cno);
        MergingNext(base, known, seen, todo, i, i + 1, prefix, before, added);
        seen := seen + {PointOf(op)};
        if kept {
          added := added + 1;
        }
      }
      assert todo[..|todo|] == todo;
      StaircaseFrontier(optimalPts, seen);
    }

    /** Bisection over the curve: the least time that reaches a performance;
        none stands for the source's 1e50. */
    method TForPerf(perf: real) returns (best: Option<real>)
      requires Valid()
      ensures best == None <==> forall p :: p in Recorded(allPts) ==> p.perf < perf
      ensures best.Some? ==>
                && (exists p :: p in Recorded(allPts) && p.perf >= perf && p.t == best.value)
                && (forall p :: p in Recorded(allPts) && p.perf >= perf ==> best.value <= p.t)
    {
      if perf > optimalPts[|optimalPts| - 1].perf {
        Unreached(optimalPts, Recorded(allPts), perf);
        return None;
      }
      var i1 := FirstReaching(optimalPts, perf);
      LeastTime(optimalPts, Recorded(allPts), perf, i1);
      return Some(optimalPts[i1].t);
    }
  }

  lemma Unreached(a: seq<OperatingPoint>, s: set<Point>, perf: real)
    requires Staircase(a, s) && perf > a[|a| - 1].perf
    ensures forall p :: p in s ==> p.perf < perf
  {
    forall p | p in s ensures p.perf < perf {
      var i :| 0 <= i < |a| && Dominates(PointOf(a[i]), p);
    }
  }

  method FirstReaching(a: seq<OperatingPoint>, perf: real) returns (i1: nat)
    requires a != [] && a[|a| - 1].perf >= perf
    ensures i1 < |a| && a[i1].perf >= perf && (i1 > 0 ==> a[i1 - 1].perf < perf)
  {
    var i0: int := -1;
    i1 := |a| - 1;
    while i0 + 1 < i1
      invariant -1 <= i0 < i1 < |a|
      invariant i0 >= 0 ==> a[i0].perf < perf
      invariant a[i1].perf >= perf
      decreases i1 - i0
    {
      var imed := (i0 + i1 + 1) / 2;
      if a[imed].perf < perf {
        i0 := imed;
      } else {
        i1 := imed;
      }
    }
  }

  lemma LeastTime(a: seq<OperatingPoint>, s: set<Point>, perf: real, i1: nat)
    requires Staircase(a, s) && i1 < |a| && a[i1].perf >= perf && (i1 > 0 ==> a[i1 - 1].perf < perf)
    ensures PointOf(a[i1]) in s
    ensures forall p :: p in s && p.perf >= perf ==> a[i1].t <= p.t
  {
    assert PointOf(a[i1]) in Points(a);
    forall p | p in s && p.perf >= perf ensures a[i1].t <= p.t {
      var i :| 0 <= i < |a| && Dominates(PointOf(a[i]), p);
    }
  }

  function Prefixed(a: seq<OperatingPoint>, prefix: string): seq<OperatingPoint> {
    seq(|a|, i requires 0 <= i < |a| => a[i].(key := prefix + a[i].key))
  }

  /** The first i of the points to merge are recorded, `added` of them as optimal. */
  ghost predicate Merging(base: seq<OperatingPoint>, known: set<Point>, seen: set<Point>, todo: seq<OperatingPoint>,
                          i: nat, prefix: string, all: seq<OperatingPoint>, added: nat)
  {
    && i <= |todo| && all == base + Prefixed(todo[..i], prefix) && seen == known + Points(todo[..i])
    && added + NewlyOptimal(seen, todo[i..]) == NewlyOptimal(known, todo)
  }

  lemma MergingNext(base: seq<OperatingPoint>, known: set<Point>, seen: set<Point>, todo: seq<OperatingPoint>,
                    i: nat, next: nat, prefix: string, all: seq<OperatingPoint>, added: nat)
    requires i < |todo| && next == i + 1 && Merging(base, known, seen, todo, i, prefix, all, added)
    ensures Merging(base, known, seen + {PointOf(todo[i])}, todo, next, prefix,
                    all + [todo[i].(key := prefix + todo[i].key)], added + IsNew(seen, PointOf(todo[i])))
  {
    PointsSnoc(todo, i);
    NewlyOptimalStep(seen, todo, i);
    assert Prefixed(todo[..next], prefix) == Prefixed(todo[..i], prefix) + [todo[i].(key := prefix + todo[i].key)];
  }

  ghost function IsNew(known: set<Point>, p: Point): nat {
    if exists q :: q in known && Dominates(q, p) then 0 else 1
  }

  /** How many points of a enter the frontier at the moment they are offered. */
  ghost function NewlyOptimal(known: set<Point>, a: seq<OperatingPoint>): nat
    decreases |a|
  {
    if a == [] then 0
    else IsNew(known, PointOf(a[0])) + NewlyOptimal(known + {PointOf(a[0])}, a[1..])
  }

  lemma NewlyOptimalStep(known: set<Point>, a: seq<OperatingPoint>, i: nat)
    requires i < |a|
    ensures NewlyOptimal(known, a[i..])
            == IsNew(known, PointOf(a[i])) + NewlyOptimal(known + {PointOf(a[i])}, a[i + 1..])
  {
    assert a[i..][1..] == a[i + 1..];
  }
}
