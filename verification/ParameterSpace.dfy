/** Combinations of parameter values, and the exploration that skips
    combinations which cannot improve the frontier. */
module ParameterSpaces {
  import opened OperatingPointSet
  import Permutations

  // ---- combination numbers as mixed-radix numerals, least significant digit first ----

  ghost predicate Sizes(sizes: seq<nat>) {
    forall i :: 0 <= i < |sizes| ==> sizes[i] > 0
  }

  function NComb(sizes: seq<nat>): nat {
    if sizes == [] then 1 else sizes[0] * NComb(sizes[1..])
  }

  function Digits(sizes: seq<nat>, c: nat): (ds: seq<nat>)
    requires Sizes(sizes)
    ensures |ds| == |sizes|
  {
    if sizes == [] then [] else [c % sizes[0]] + Digits(sizes[1..], c / sizes[0])
  }

  function Number(sizes: seq<nat>, ds: seq<nat>): nat
    requires |ds| == |sizes|
  {
    if sizes == [] then 0 else ds[0] + sizes[0] * Number(sizes[1..], ds[1..])
  }

  ghost predicate DigitsOf(sizes: seq<nat>, ds: seq<nat>) {
    |ds| == |sizes| && forall i :: 0 <= i < |ds| ==> ds[i] < sizes[i]
  }

  ghost predicate AllGe(d1: seq<nat>, d2: seq<nat>)
    requires |d1| == |d2|
  {
    forall i :: 0 <= i < |d1| ==> d1[i] >= d2[i]
  }

  /** The product order: every parameter of c1 is at least the one of c2. */
  ghost predicate Ge(sizes: seq<nat>, c1: nat, c2: nat)
    requires Sizes(sizes)
  {
    AllGe(Digits(sizes, c1), Digits(sizes, c2))
  }

  lemma AllGeCons(x1: nat, e1: seq<nat>, x2: nat, e2: seq<nat>)
    requires |e1| == |e2|
    ensures AllGe([x1] + e1, [x2] + e2) <==> x1 >= x2 && AllGe(e1, e2)
  {
    var d1, d2 := [x1] + e1, [x2] + e2;
    assert forall i :: 0 <= i < |e1| ==> d1[i + 1] == e1[i] && d2[i + 1] == e2[i];
    assert d1[0] == x1 && d2[0] == x2;
  }

  lemma GeUnfold(sizes: seq<nat>, c1: nat, c2: nat)
    requires Sizes(sizes) && sizes != []
    ensures Ge(sizes, c1, c2) <==>
              c1 % sizes[0] >= c2 % sizes[0] && Ge(sizes[1..], c1 / sizes[0], c2 / sizes[0])
  {
    AllGeCons(c1 % sizes[0], Digits(sizes[1..], c1 / sizes[0]),
              c2 % sizes[0], Digits(sizes[1..], c2 / sizes[0]));
  }

  lemma DivBound(c: nat, s: nat, m: nat)
    requires s > 0
    ensures c < s * m <==> c / s < m
  {
    assert c == s * (c / s) + c % s;
    if c / s < m {
      assert s * (c / s) <= s * (m - 1);
    } else {
      assert s * m <= s * (c / s);
    }
  }

  /** Numbers below n_combinations and digit tuples below the sizes are in bijection. */
  lemma {:induction false} NumberOfDigits(sizes: seq<nat>, c: nat)
    requires Sizes(sizes) && c < NComb(sizes)
    ensures DigitsOf(sizes, Digits(sizes, c)) && Number(sizes, Digits(sizes, c)) == c
  {
    if sizes != [] {
      var s := sizes[0];
      DivBound(c, s, NComb(sizes[1..]));
      NumberOfDigits(sizes[1..], c / s);
      DigitsCons(sizes, c % s, Digits(sizes[1..], c / s));
      assert c == c % s + s * (c / s);
    }
  }

  lemma DigitsCons(sizes: seq<nat>, d: nat, ds: seq<nat>)
    requires sizes != [] && d < sizes[0] && DigitsOf(sizes[1..], ds)
    ensures DigitsOf(sizes, [d] + ds) && Number(sizes, [d] + ds) == d + sizes[0] * Number(sizes[1..], ds)
  {
    assert ([d] + ds)[1..] == ds;
    assert forall i :: 0 < i < |sizes| ==> sizes[i] == sizes[1..][i - 1];
  }

  lemma {:induction false} DigitsOfNumber(sizes: seq<nat>, ds: seq<nat>)
    requires Sizes(sizes) && DigitsOf(sizes, ds)
    ensures Number(sizes, ds) < NComb(sizes) && Digits(sizes, Number(sizes, ds)) == ds
  {
    if sizes != [] {
      var s, r := sizes[0], Number(sizes[1..], ds[1..]);
      DigitsOfNumber(sizes[1..], ds[1..]);
      DivMod(ds[0], s, r);
      DivBound(ds[0] + s * r, s, NComb(sizes[1..]));
    }
  }

  lemma DivMod(d: nat, s: nat, r: nat)
    requires d < s
    ensures (d + s * r) / s == r && (d + s * r) % s == d
  {
    var c := d + s * r;
    assert c == s * (c / s) + c % s;
    MulStep(s, c / s, r);
    MulStep(s, r, c / s);
  }

  lemma MulStep(s: nat, a: nat, b: nat)
    ensures a < b ==> s * a + s <= s * b
  {
    if a + 1 < b {
      MulStep(s, a, b - 1);
      assert s * b == s * (b - 1) + s;
    } else if a < b {
      assert s * b == s * a + s;
    }
  }

  /** combination_ge is a partial order on the combinations. */
  lemma GePartialOrder(sizes: seq<nat>, c1: nat, c2: nat, c3: nat)
    requires Sizes(sizes)
    ensures Ge(sizes, c1, c1)
    ensures Ge(sizes, c1, c2) && Ge(sizes, c2, c3) ==> Ge(sizes, c1, c3)
    ensures Ge(sizes, c1, c2) && Ge(sizes, c2, c1) && c1 < NComb(sizes) && c2 < NComb(sizes) ==> c1 == c2
  {
    if Ge(sizes, c1, c2) && Ge(sizes, c2, c1) && c1 < NComb(sizes) && c2 < NComb(sizes) {
      assert Digits(sizes, c1) == Digits(sizes, c2);
      NumberOfDigits(sizes, c1);
      NumberOfDigits(sizes, c2);
    }
    if Ge(sizes, c1, c2) && Ge(sizes, c2, c3) {
      forall i | 0 <= i < |sizes| ensures Digits(sizes, c1)[i] >= Digits(sizes, c3)[i] {
        assert Digits(sizes, c1)[i] >= Digits(sizes, c2)[i] >= Digits(sizes, c3)[i];
      }
    }
  }

  /** Combination 0 is below, and n_combinations - 1 above, every combination. */
  lemma {:induction false} LeastAndGreatest(sizes: seq<nat>, c: nat)
    requires Sizes(sizes) && c < NComb(sizes)
    ensures NComb(sizes) > 0
    ensures Ge(sizes, c, 0) && Ge(sizes, NComb(sizes) - 1, c)
  {
    if sizes != [] {
      var s, m := sizes[0], NComb(sizes[1..]);
      DivBound(c, s, m);
      LeastAndGreatest(sizes[1..], c / s);
      LastNumeral(s, m);
      GeUnfold(sizes, c, 0);
      GeUnfold(sizes, s * m - 1, c);
    }
  }

  lemma LastNumeral(s: nat, m: nat)
    requires s > 0 && m > 0
    ensures s * m > 0 && (s * m - 1) / s == m - 1 && (s * m - 1) % s == s - 1
  {
    MulStep(s, 0, m);
    DivMod(s - 1, s, m - 1);
    assert s * m - 1 == (s - 1) + s * (m - 1);
  }

  lemma {:induction false} NCombPositive(sizes: seq<nat>)
    ensures NComb(sizes) > 0 <==> Sizes(sizes)
  {
    if sizes != [] {
      NCombPositive(sizes[1..]);
      assert Sizes(sizes) <==> sizes[0] > 0 && Sizes(sizes[1..]) by {
        assert forall i :: 0 < i < |sizes| ==> sizes[i] == sizes[1..][i - 1];
        if sizes[0] > 0 && Sizes(sizes[1..]) {
          forall i | 0 <= i < |sizes| ensures sizes[i] > 0 {
            if i > 0 { assert sizes[1..][i - 1] > 0; }
          }
        }
      }
    }
  }

  // ---- what one experiment would measure ----

  /** Measured performance and time of each combination, and its name. */
  datatype Oracle = Oracle(perf: nat -> real, time: nat -> real, name: nat -> string)

  ghost predicate Monotone(sizes: seq<nat>, o: Oracle)
    requires Sizes(sizes)
  {
    && (forall c: nat :: c < NComb(sizes) ==> 0.0 <= o.perf(c) <= 1.0 && o.time(c) >= 0.0)
    && (forall c1: nat, c2: nat :: c1 < NComb(sizes) && c2 < NComb(sizes) && Ge(sizes, c1, c2) ==>
          o.perf(c1) >= o.perf(c2) && o.time(c1) >= o.time(c2))
  }

  function Outcome(o: Oracle, c: nat): Point {
    Point(o.perf(c), o.time(c))
  }

  ghost function Outcomes(o: Oracle, tried: seq<nat>): set<Point> {
    set c | c in tried :: Outcome(o, c)
  }

  /** The recorded experiments are genuine: each shows what its combination measures. */
  ghost predicate Genuine(sizes: seq<nat>, o: Oracle, all: seq<OperatingPoint>) {
    forall op :: op in all ==> 0 <= op.cno < NComb(sizes) && PointOf(op) == Outcome(o, op.cno)
  }

  /** What is recorded of an experiment with combination c. */
  function Experiment(o: Oracle, c: nat): OperatingPoint {
    OperatingPoint(o.perf(c), o.time(c), o.name(c), c)
  }

  lemma GenuineSnoc(sizes: seq<nat>, o: Oracle, all: seq<OperatingPoint>, c: nat)
    requires Genuine(sizes, o, all) && c < NComb(sizes)
    ensures Genuine(sizes, o, all + [Experiment(o, c)])
  {
  }

  /** Behind what was recorded before, the experiments with combinations of `tried`, each
      under its own number and at most once. */
  ghost predicate Experiments(o: Oracle, tried: seq<nat>, before: seq<OperatingPoint>, all: seq<OperatingPoint>) {
    && before <= all
    && (forall i :: |before| <= i < |all| ==> IsExperiment(o, tried, all[i]))
    && (forall i, j :: |before| <= i < j < |all| ==> all[i].cno != all[j].cno)
  }

  ghost predicate IsExperiment(o: Oracle, tried: seq<nat>, op: OperatingPoint) {
    exists c :: c in tried && op == OperatingPoint(o.perf(c), o.time(c), o.name(c), c)
  }

  ghost predicate Numbered(all: seq<OperatingPoint>) {
    forall op :: op in all ==> op.cno >= 0
  }

  /** The tightest bounds that the recorded experiments put on combination c. */
  ghost function UpperPerf(sizes: seq<nat>, all: seq<OperatingPoint>, c: nat): real
    requires Sizes(sizes) && Numbered(all)
  {
    if all == [] then 1.0
    else
      var op, u := all[|all| - 1], UpperPerf(sizes, all[..|all| - 1], c);
      if Ge(sizes, op.cno, c) && op.perf < u then op.perf else u
  }

  ghost function LowerT(sizes: seq<nat>, all: seq<OperatingPoint>, c: nat): real
    requires Sizes(sizes) && Numbered(all)
  {
    if all == [] then 0.0
    else
      var op, l := all[|all| - 1], LowerT(sizes, all[..|all| - 1], c);
      if Ge(sizes, c, op.cno) && op.t > l then op.t else l
  }

  /** The upper bound is the least of 1 and the performances of the experiments above c,
      the lower bound the greatest of 0 and the times of the experiments below c. */
  lemma {:induction false} BoundsTightest(sizes: seq<nat>, all: seq<OperatingPoint>, c: nat)
    requires Sizes(sizes) && Numbered(all)
    ensures var u := UpperPerf(sizes, all, c);
            && (u == 1.0 || exists op :: op in all && Ge(sizes, op.cno, c) && op.perf == u)
            && u <= 1.0 && forall op :: op in all && Ge(sizes, op.cno, c) ==> u <= op.perf
    ensures var l := LowerT(sizes, all, c);
            && (l == 0.0 || exists op :: op in all && Ge(sizes, c, op.cno) && op.t == l)
            && l >= 0.0 && forall op :: op in all && Ge(sizes, c, op.cno) ==> op.t <= l
  {
    if all != [] {
      var n := |all| - 1;
      assert all == all[..n] + [all[n]];
      BoundsTightest(sizes, all[..n], c);
    }
  }

  /** For a monotone index the bounds enclose what the combination would measure. */
  lemma {:induction false} BoundsEnclose(sizes: seq<nat>, o: Oracle, all: seq<OperatingPoint>, c: nat)
    requires Sizes(sizes) && Monotone(sizes, o) && Genuine(sizes, o, all) && c < NComb(sizes)
    ensures o.perf(c) <= UpperPerf(sizes, all, c) && LowerT(sizes, all, c) <= o.time(c)
  {
    if all != [] {
      var op := all[|all| - 1];
      assert forall x :: x in all[..|all| - 1] ==> x in all;
      BoundsEnclose(sizes, o, all[..|all| - 1], c);
      var n: nat := op.cno;
      assert PointOf(op) == Outcome(o, n);
    }
  }

  /** A known point is as accurate as the bounds on combination c allow, and as fast. */
  ghost predicate Hopeless(sizes: seq<nat>, all: seq<OperatingPoint>, c: nat)
    requires Sizes(sizes) && Numbered(all)
  {
    exists p :: p in Recorded(all) && p.perf >= UpperPerf(sizes, all, c) && p.t <= LowerT(sizes, all, c)
  }

  /** What is recorded after trying the combinations of `perm` in order: each is run unless it
      is hopeless by then. */
  ghost function Explored(sizes: seq<nat>, o: Oracle, all: seq<OperatingPoint>, perm: seq<nat>): (r: seq<OperatingPoint>)
    requires Sizes(sizes) && Numbered(all)
    ensures Numbered(r)
  {
    if perm == [] then all
    else
      var r, c := Explored(sizes, o, all, perm[..|perm| - 1]), perm[|perm| - 1];
      if Hopeless(sizes, r, c) then r else r + [Experiment(o, c)]
  }

  /** These are genuine experiments, each under its own number, at most one for each combination. */
  lemma {:induction false} ExploredMeaning(sizes: seq<nat>, o: Oracle, all: seq<OperatingPoint>, perm: seq<nat>)
    requires Sizes(sizes) && Numbered(all) && Permutations.Distinct(perm)
    ensures Experiments(o, perm, all, Explored(sizes, o, all, perm))
  {
    if perm != [] {
      var n := |perm| - 1;
      ExploredMeaning(sizes, o, all, perm[..n]);
      ExperimentsSnoc(o, perm, n, all, Explored(sizes, o, all, perm[..n]));
    }
  }

  lemma ExperimentsSnoc(o: Oracle, perm: seq<nat>, n: nat, before: seq<OperatingPoint>, all: seq<OperatingPoint>)
    requires |perm| == n + 1 && Permutations.Distinct(perm) && Experiments(o, perm[..n], before, all)
    ensures Experiments(o, perm, before, all) && Experiments(o, perm, before, all + [Experiment(o, perm[n])])
  {
    assert perm == perm[..n] + [perm[n]];
    forall i | |before| <= i < |all| ensures IsExperiment(o, perm, all[i]) && all[i].cno != perm[n] {
      assert IsExperiment(o, perm[..n], all[i]);
      var c :| c in perm[..n] && all[i] == OperatingPoint(o.perf(c), o.time(c), o.name(c), c);
      assert c in perm;
    }
    assert perm[n] in perm;
  }

  /** A random ordering of 0 .. n-1; callers know no more about it. */
  method RandPerm(n: nat) returns (p: seq<nat>)
    ensures |p| == n && (forall i :: 0 <= i < n ==> p[i] < n)
    ensures forall i, j :: 0 <= i < j < n ==> p[i] != p[j]
  {
    p := seq(n, i => i);
  }

  ghost predicate DistinctBelow(p: seq<nat>, n: nat) {
    Permutations.Distinct(p) && forall i :: 0 <= i < |p| ==> p[i] < n
  }

  /** Take the greatest number out. */
  lemma DropGreatest(p: seq<nat>, n: nat, k: nat) returns (q: seq<nat>)
    requires n > 0 && DistinctBelow(p, n) && k < |p| && p[k] == n - 1
    ensures |q| == |p| - 1 && DistinctBelow(q, n - 1)
    ensures forall c :: c in q ==> c in p
  {
    q := p[..k] + p[k + 1..];
    assert forall i :: 0 <= i < |q| ==> q[i] == p[if i < k then i else i + 1];
  }

  /** n distinct numbers below n are all of them. */
  lemma {:induction false} DistinctCovers(p: seq<nat>, n: nat)
    requires DistinctBelow(p, n) && |p| == n
    ensures forall c: nat :: c < n ==> c in p
    decreases n
  {
    if n > 0 {
      if n - 1 in p {
        var k :| 0 <= k < n && p[k] == n - 1;
        var q := DropGreatest(p, n, k);
        DistinctCovers(q, n - 1);
      } else {
        TooMany(p, n - 1);
      }
    }
  }

  lemma {:induction false} TooMany(p: seq<nat>, n: nat)
    requires DistinctBelow(p, n)
    ensures |p| <= n
    decreases n
  {
    if p != [] {
      assert p[0] < n;
      if n - 1 in p {
        var k :| 0 <= k < |p| && p[k] == n - 1;
        var q := DropGreatest(p, n, k);
        TooMany(q, n - 1);
      } else {
        TooMany(p, n - 1);
      }
    }
  }

  lemma AllOutcomes(o: Oracle, tried: seq<nat>, n: nat)
    requires DistinctBelow(tried, n) && |tried| == n
    ensures forall c: nat :: c < n ==> Outcome(o, c) in Outcomes(o, tried)
  {
    DistinctCovers(tried, n);
  }

  /** Why skipping is lossless: bounds taken from genuine experiments enclose what
      the skipped combination would measure, so a known point dominates it. */
  lemma SkipIsDominated(known: set<Point>, skipped: Point, upperPerf: real, lowerT: real, bestT: real)
    requires skipped.perf <= upperPerf && lowerT <= skipped.t
    requires exists p :: p in known && p.perf >= upperPerf && p.t == bestT
    requires bestT <= lowerT
    ensures exists p :: p in known && Dominates(p, skipped)
    ensures skipped in known || Frontier(known + {skipped}) == Frontier(known)
  {
    var p :| p in known && p.perf >= upperPerf && p.t == bestT;
    assert Dominates(p, skipped);
    if skipped !in known {
      forall q | q in Frontier(known) ensures q in Frontier(known + {skipped}) {
        if Dominates(skipped, q) {
          assert Dominates(p, q);
        }
      }
    }
  }

  /** Two explorations of all combinations, in whatever random orders and with
      whatever skipping, store the same curve: that of trying everything. */
  lemma SameCurve(a: seq<OperatingPoint>, tried: seq<nat>, b: seq<OperatingPoint>, all: seq<nat>,
                  known: set<Point>, o: Oracle, n: nat)
    requires Increasing(a) && Points(a) == Frontier(known + Outcomes(o, tried))
    requires Increasing(b) && Points(b) == Frontier(known + Outcomes(o, all))
    requires DistinctBelow(tried, n) && |tried| == n && DistinctBelow(all, n) && |all| == n
    ensures Curve(a) == Curve(b)
  {
    DistinctCovers(tried, n);
    DistinctCovers(all, n);
    assert Outcomes(o, tried) == Outcomes(o, all);
    CurveUnique(a, b);
  }

  /** The tunable parameters of an index: one value count per parameter. */
  class ParameterSpace {
    const sizes: seq<nat>
    const nExperiments: int

    constructor (sizes: seq<nat>, nExperiments: int)
      ensures this.sizes == sizes && this.nExperiments == nExperiments
    {
      this.sizes := sizes;
      this.nExperiments := nExperiments;
    }

    method NCombinations() returns (n: nat)
      ensures n == NComb(sizes)
    {
      n := 1;
      for i := 0 to |sizes|
        invariant n * NComb(sizes[i..]) == NComb(sizes)
      {
        assert sizes[i..][1..] == sizes[i + 1..];
        MulAssoc(n, sizes[i], NComb(sizes[i + 1..]));
        n := n * sizes[i];
      }
    }

    static lemma MulAssoc(a: nat, b: nat, c: nat)
      ensures a * (b * c) == (a * b) * c
    {
    }

    /** Digit-by-digit comparison by repeated division. */
    method CombinationGe(c1: nat, c2: nat) returns (ge: bool)
      requires Sizes(sizes)
      ensures ge <==> Ge(sizes, c1, c2)
    {
      var r1, r2 := c1, c2;
      for i := 0 to |sizes|
        invariant Ge(sizes, c1, c2) <==> Ge(sizes[i..], r1, r2)
      {
        var nval := sizes[i];
        GeFrom(sizes, i, r1, r2);
        if r1 % nval < r2 % nval {
          return false;
        }
        r1, r2 := r1 / nval, r2 / nval;
      }
      return true;
    }

    static lemma GeFrom(sizes: seq<nat>, i: nat, r1: nat, r2: nat)
      requires Sizes(sizes) && i < |sizes|
      ensures Ge(sizes[i..], r1, r2) <==>
                r1 % sizes[i] >= r2 % sizes[i] && Ge(sizes[i + 1..], r1 / sizes[i], r2 / sizes[i])
    {
      GeUnfold(sizes[i..], r1, r2);
      assert sizes[i..][1..] == sizes[i + 1..];
    }

    /** Tighten the bounds for combination cno by one experiment. */
    method UpdateBounds(cno: nat, op: OperatingPoint, upperPerf: real, lowerT: real)
      returns (upper: real, lower: real)
      requires Sizes(sizes) && op.cno >= 0
      ensures upper == if Ge(sizes, op.cno, cno) && op.perf < upperPerf then op.perf else upperPerf
      ensures lower == if Ge(sizes, cno, op.cno) && op.t > lowerT then op.t else lowerT
    {
      upper, lower := upperPerf, lowerT;
      var ge := CombinationGe(cno, op.cno);
      if ge && op.t > lower {
        lower := op.t;
      }
      ge := CombinationGe(op.cno, cno);
      if ge && op.perf < upper {
        upper := op.perf;
      }
    }

    /** The bounds after all recorded experiments. */
    method Bounds(cno: nat, all: seq<OperatingPoint>) returns (upper: real, lower: real)
      requires Sizes(sizes) && Numbered(all)
      ensures upper == UpperPerf(sizes, all, cno) && lower == LowerT(sizes, all, cno)
    {
      lower, upper := 0.0, 1.0;
      for i := 0 to |all|
        invariant upper == UpperPerf(sizes, all[..i], cno) && lower == LowerT(sizes, all[..i], cno)
      {
        assert all[..i + 1][..i] == all[..i];
        upper, lower := UpdateBounds(cno, all[i], upper, lower);
      }
      assert all[..|all|] == all;
    }

    /** The order in which experiments are tried: the two extremes first. */
    method ExperimentOrder(n: nat) returns (perm: seq<nat>)
      requires n > 0
      ensures |perm| == n && DistinctBelow(perm, n)
      ensures perm[0] == 0 && (n > 1 ==> perm[1] == n - 1)
    {
      perm := [0];
      if n > 1 {
        var r := RandPerm(n - 2);
        perm := [0, n - 1] + seq(n - 2, i requires 0 <= i < n - 2 => r[i] + 1);
      }
    }

    /** Run the experiments, skipping those whose bounds show that they cannot
        improve the frontier.  The frontier is the one of running every tried
        combination; with as many experiments as combinations, of running all. */
    method Explore(ops: OperatingPoints, o: Oracle) returns (thrown: bool, ghost tried: seq<nat>)
      requires ops.Valid()
      requires Sizes(sizes) ==> Monotone(sizes, o) && Genuine(sizes, o, ops.allPts)
      modifies ops
      ensures ops.Valid()
      ensures thrown <==> nExperiments != 0 && NComb(sizes) != 1 && (NComb(sizes) <= 2 || 0 < nExperiments <= 2)
      ensures thrown ==> ops.allPts == old(ops.allPts) && ops.optimalPts == old(ops.optimalPts)
      ensures !thrown ==>
                && |tried| == (if 0 < nExperiments < NComb(sizes) then nExperiments else NComb(sizes))
                && DistinctBelow(tried, NComb(sizes))
                // what is recorded: genuine experiments, each under its own number
                && Experiments(o, tried, old(ops.allPts), ops.allPts)
                && (Sizes(sizes) ==> Genuine(sizes, o, ops.allPts))
                // every combination without a limit, else all but those known to be dominated
                && (nExperiments == 0 ==> AllExperiments(o, old(ops.allPts), ops.allPts, NComb(sizes)))
                && (nExperiments != 0 ==>
                      Sizes(sizes) && ops.allPts == Explored(sizes, o, old(ops.allPts), tried))
                && Points(ops.optimalPts) == Frontier(Recorded(old(ops.allPts)) + Outcomes(o, tried))
                && (nExperiments != 0 ==> tried[0] == 0 && (NComb(sizes) > 1 ==> tried[1] == NComb(sizes) - 1))
      ensures !thrown && !(0 < nExperiments < NComb(sizes)) ==>
                forall c: nat :: c < NComb(sizes) ==> Outcome(o, c) in Outcomes(o, tried)
    {
      NCombPositive(sizes);
      var n := NCombinations();
      thrown, tried := false, [];
      if nExperiments == 0 {
        tried := RunAll(ops, o, n);
      } else {
        var nExp := if nExperiments < 0 || nExperiments > n then n else nExperiments;
        if !(n == 1 || nExp > 2) {
          return true, [];
        }
        tried := RunBudget(ops, o, n, nExp);
      }
    }

    /** The budgeted loop over a random order of the combinations. */
    method RunBudget(ops: OperatingPoints, o: Oracle, n: nat, nExp: nat) returns (ghost tried: seq<nat>)
      requires ops.Valid() && n == NComb(sizes) && 0 < nExp <= n && (n == 1 || nExp > 2)
      requires Sizes(sizes) && Monotone(sizes, o) && Genuine(sizes, o, ops.allPts)
      modifies ops
      ensures ops.Valid() && |tried| == nExp && DistinctBelow(tried, n)
      ensures tried[0] == 0 && (n > 1 ==> tried[1] == n - 1)
      ensures Genuine(sizes, o, ops.allPts) && ops.allPts == Explored(sizes, o, old(ops.allPts), tried)
      ensures Experiments(o, tried, old(ops.allPts), ops.allPts)
      ensures Points(ops.optimalPts) == Frontier(Recorded(old(ops.allPts)) + Outcomes(o, tried))
      ensures nExp == n ==> forall c: nat :: c < n ==> Outcome(o, c) in Outcomes(o, tried)
    {
      var perm := ExperimentOrder(n);
      RunInOrder(ops, o, perm, n, nExp);
      tried := perm[..nExp];
      FirstOf(sizes, o, old(ops.allPts), ops.allPts, perm, n, nExp, tried);
    }

    static lemma FirstOf(sizes: seq<nat>, o: Oracle, before: seq<OperatingPoint>, all: seq<OperatingPoint>,
                         perm: seq<nat>, n: nat, nExp: nat, tried: seq<nat>)
      requires Sizes(sizes) && Numbered(before) && all == Explored(sizes, o, before, tried)
      requires |perm| == n && DistinctBelow(perm, n) && nExp <= n && tried == perm[..nExp]
      ensures |tried| == nExp && DistinctBelow(tried, n) && Experiments(o, tried, before, all)
      ensures nExp == n ==> forall c: nat :: c < n ==> Outcome(o, c) in Outcomes(o, tried)
    {
      ExploredMeaning(sizes, o, before, tried);
      if nExp == n {
        AllOutcomes(o, tried, n);
      }
    }

    /** Try the first nExp combinations of a given order. */
    method RunInOrder(ops: OperatingPoints, o: Oracle, perm: seq<nat>, n: nat, nExp: nat)
      requires ops.Valid() && n == NComb(sizes) && nExp <= n && |perm| == n && DistinctBelow(perm, n)
      requires Sizes(sizes) && Monotone(sizes, o) && Genuine(sizes, o, ops.allPts)
      modifies ops
      ensures ops.Valid() && Genuine(sizes, o, ops.allPts)
      ensures ops.allPts == Explored(sizes, o, old(ops.allPts), perm[..nExp])
      ensures Points(ops.optimalPts) == Frontier(Recorded(old(ops.allPts)) + Outcomes(o, perm[..nExp]))
    {
      ghost var done := Recorded(ops.allPts);
      ghost var known := done;
      for xp := 0 to nExp
        invariant ops.Valid() && Genuine(sizes, o, ops.allPts)
        invariant done == known + Outcomes(o, perm[..xp])
        invariant Recorded(ops.allPts) <= done
        invariant ops.allPts == Explored(sizes, o, old(ops.allPts), perm[..xp])
        invariant Staircase(ops.optimalPts, done)
      {
        done := TryNext(ops, o, perm, xp, xp + 1, known, done, old(ops.allPts));
      }
      StaircaseFrontier(ops.optimalPts, done);
    }

    /** One round of the loop, with all that the loop knows. */
    method TryNext(ops: OperatingPoints, o: Oracle, perm: seq<nat>, xp: nat, ghost next: nat, ghost known: set<Point>,
                   ghost done: set<Point>, ghost start: seq<OperatingPoint>)
      returns (ghost done': set<Point>)
      requires Sizes(sizes) && Monotone(sizes, o) && Numbered(start)
      requires next == xp + 1 && xp < |perm| && perm[xp] < NComb(sizes)
      requires ops.Valid() && Genuine(sizes, o, ops.allPts)
      requires done == known + Outcomes(o, perm[..xp]) && Recorded(ops.allPts) <= done
      requires ops.allPts == Explored(sizes, o, start, perm[..xp])
      requires Staircase(ops.optimalPts, done)
      modifies ops
      ensures ops.Valid() && Genuine(sizes, o, ops.allPts)
      ensures done' == known + Outcomes(o, perm[..next]) && Recorded(ops.allPts) <= done'
      ensures ops.allPts == Explored(sizes, o, start, perm[..next])
      ensures Staircase(ops.optimalPts, done')
    {
      Try(ops, o, perm[xp], done);
      ExploredSnoc(sizes, o, start, perm, xp, next);
      OutcomesSnoc(o, perm, xp, known, done);
      done' := done + {Outcome(o, perm[xp])};
    }

    static lemma ExploredSnoc(sizes: seq<nat>, o: Oracle, all: seq<OperatingPoint>, perm: seq<nat>, xp: nat, next: nat)
      requires Sizes(sizes) && Numbered(all) && next == xp + 1 && xp < |perm|
      ensures var r, c := Explored(sizes, o, all, perm[..xp]), perm[xp];
              Explored(sizes, o, all, perm[..next])
              == if Hopeless(sizes, r, c) then r else r + [Experiment(o, c)]
    {
      assert perm[..next][..xp] == perm[..xp];
    }

    static lemma OutcomesSnoc(o: Oracle, perm: seq<nat>, i: nat, known: set<Point>, done: set<Point>)
      requires i < |perm| && done == known + Outcomes(o, perm[..i])
      ensures done + {Outcome(o, perm[i])} == known + Outcomes(o, perm[..i + 1])
    {
      assert perm[..i + 1] == perm[..i] + [perm[i]];
    }

    lemma TimesNonNegative(o: Oracle, n: nat)
      requires n == NComb(sizes) && (Sizes(sizes) ==> Monotone(sizes, o))
      ensures forall c: nat :: c < n ==> o.time(c) >= 0.0
    {
      NCombPositive(sizes);
    }

    /** Without an experiment budget every combination is run in turn. */
    method RunAll(ops: OperatingPoints, o: Oracle, n: nat) returns (ghost tried: seq<nat>)
      requires ops.Valid() && n == NComb(sizes)
      requires Sizes(sizes) ==> Monotone(sizes, o) && Genuine(sizes, o, ops.allPts)
      modifies ops
      ensures ops.Valid() && |tried| == n && DistinctBelow(tried, n)
      ensures Experiments(o, tried, old(ops.allPts), ops.allPts)
      ensures AllExperiments(o, old(ops.allPts), ops.allPts, n)
      ensures Sizes(sizes) ==> Genuine(sizes, o, ops.allPts)
      ensures Points(ops.optimalPts) == Frontier(Recorded(old(ops.allPts)) + Outcomes(o, tried))
      ensures forall i :: 0 <= i < n ==> tried[i] == i
      ensures forall c: nat :: c < n ==> Outcome(o, c) in Outcomes(o, tried)
    {
      TimesNonNegative(o, n);
      tried := seq(n, i => i);
      RunEach(ops, o, n, tried);
      assert tried[..n] == tried;
      RunAllExperiments(sizes, o, tried, old(ops.allPts), ops.allPts, n);
      AllOutcomes(o, tried, n);
    }

    /** Behind what was recorded before, one experiment for each of the first n combinations, in order. */
    static ghost predicate AllExperiments(o: Oracle, before: seq<OperatingPoint>, all: seq<OperatingPoint>, n: nat) {
      && before <= all && |all| == |before| + n
      && forall i :: |before| <= i < |all| ==>
           var c := i - |before|; all[i] == OperatingPoint(o.perf(c), o.time(c), o.name(c), c)
    }

    static lemma AllExperimentsSnoc(o: Oracle, before: seq<OperatingPoint>, all: seq<OperatingPoint>, n: nat, next: nat)
      requires next == n + 1 && AllExperiments(o, before, all, n)
      ensures AllExperiments(o, before, all + [OperatingPoint(o.perf(n), o.time(n), o.name(n), n)], next)
    {
    }

    static lemma RunAllExperiments(sizes: seq<nat>, o: Oracle, tried: seq<nat>, before: seq<OperatingPoint>,
                                   all: seq<OperatingPoint>, n: nat)
      requires n == NComb(sizes) && AllExperiments(o, before, all, n)
      requires |tried| == n && forall i :: 0 <= i < n ==> tried[i] == i
      requires Sizes(sizes) ==> Genuine(sizes, o, before)
      ensures Experiments(o, tried, before, all)
      ensures Sizes(sizes) ==> Genuine(sizes, o, all)
    {
      forall i | |before| <= i < |all| ensures all[i].cno == i - |before| && IsExperiment(o, tried, all[i]) {
        var c: nat := i - |before|;
        assert tried[c] == c;
      }
      if Sizes(sizes) {
        forall op | op in all ensures 0 <= op.cno < n && PointOf(op) == Outcome(o, op.cno) {
          var i :| 0 <= i < |all| && all[i] == op;
          if i < |before| { assert op in before; }
        }
      }
    }

    method RunEach(ops: OperatingPoints, o: Oracle, n: nat, ghost all: seq<nat>)
      requires ops.Valid() && |all| == n && forall c :: 0 <= c < n ==> all[c] == c && o.time(c) >= 0.0
      modifies ops
      ensures ops.Valid() && AllExperiments(o, old(ops.allPts), ops.allPts, n)
      ensures Points(ops.optimalPts) == Frontier(Recorded(old(ops.allPts)) + Outcomes(o, all[..n]))
    {
      ghost var known := Recorded(ops.allPts);
      for c := 0 to n
        invariant ops.Valid() && AllExperiments(o, old(ops.allPts), ops.allPts, c)
        invariant Recorded(ops.allPts) == known + Outcomes(o, all[..c])
      {
        OutcomesSnoc(o, all, c, known, Recorded(ops.allPts));
        AllExperimentsSnoc(o, old(ops.allPts), ops.allPts, c, c + 1);
        var kept := ops.Add(o.perf(c), o.time(c), o.name(c), c);
      }
      StaircaseFrontier(ops.optimalPts, Recorded(ops.allPts));
    }

    /** Skip a combination only when something recorded dominates its outcome. */
    method MaySkip(ops: OperatingPoints, o: Oracle, cno: nat) returns (skip: bool)
      requires ops.Valid() && Sizes(sizes) && Monotone(sizes, o) && cno < NComb(sizes)
      requires Genuine(sizes, o, ops.allPts)
      ensures skip <==> exists p :: p in Recorded(ops.allPts) && p.perf >= UpperPerf(sizes, ops.allPts, cno)
                                    && p.t <= LowerT(sizes, ops.allPts, cno)
      ensures skip <==> Hopeless(sizes, ops.allPts, cno)
      ensures skip ==> exists p :: p in Recorded(ops.allPts) && Dominates(p, Outcome(o, cno))
    {
      var upper, lower := Bounds(cno, ops.allPts);
      BoundsEnclose(sizes, o, ops.allPts, cno);
      var best := ops.TForPerf(upper);
      skip := best.Some? && best.value <= lower;
      if skip {
        SkipIsDominated(Recorded(ops.allPts), Outcome(o, cno), upper, lower, best.value);
      }
    }

    /** One round: skip the combination, or run and record it. */
    method Try(ops: OperatingPoints, o: Oracle, cno: nat, ghost done: set<Point>)
      requires ops.Valid() && Sizes(sizes) && Monotone(sizes, o) && cno < NComb(sizes)
      requires Genuine(sizes, o, ops.allPts) && Recorded(ops.allPts) <= done
      requires Staircase(ops.optimalPts, done)
      modifies ops
      ensures ops.Valid() && Genuine(sizes, o, ops.allPts)
      ensures var all := old(ops.allPts);
              ops.allPts == if Hopeless(sizes, all, cno) then all
                            else all + [OperatingPoint(o.perf(cno), o.time(cno), o.name(cno), cno)]
      ensures Recorded(ops.allPts) <= done + {Outcome(o, cno)}
      ensures Staircase(ops.optimalPts, done + {Outcome(o, cno)})
    {
      var skip := MaySkip(ops, o, cno);
      if skip {
        SkippedStaircase(ops.optimalPts, Recorded(ops.allPts), done, Outcome(o, cno));
      } else {
        assert o.time(cno) >= 0.0;
        RunAndRecord(ops, o, cno, done);
      }
    }

    method RunAndRecord(ops: OperatingPoints, o: Oracle, cno: nat, ghost done: set<Point>)
      requires ops.Valid() && cno < NComb(sizes) && o.time(cno) >= 0.0
      requires Genuine(sizes, o, ops.allPts) && Recorded(ops.allPts) <= done
      requires Staircase(ops.optimalPts, done)
      modifies ops
      ensures ops.Valid() && Genuine(sizes, o, ops.allPts)
      ensures ops.allPts == old(ops.allPts) + [OperatingPoint(o.perf(cno), o.time(cno), o.name(cno), cno)]
      ensures Recorded(ops.allPts) <= done + {Outcome(o, cno)}
      ensures Staircase(ops.optimalPts, done + {Outcome(o, cno)})
    {
      ghost var known, before := Recorded(ops.allPts), ops.optimalPts;
      GenuineSnoc(sizes, o, ops.allPts, cno);
      var kept := ops.Add(o.perf(cno), o.time(cno), o.name(cno), cno);
      StaircaseGrows(before, done, known, ops.optimalPts, Outcome(o, cno));
    }

    static lemma SkippedStaircase(a: seq<OperatingPoint>, known: set<Point>, done: set<Point>, skipped: Point)
      requires Staircase(a, done) && known <= done
      requires exists p :: p in known && Dominates(p, skipped)
      ensures Staircase(a, done + {skipped})
    {
      var p :| p in known && Dominates(p, skipped);
      var op := OperatingPoint(skipped.perf, skipped.t, "", 0);
      DominatedIsCovered(a, done, p, op);
      RejectedStaircase(a, done, op);
    }

    static lemma StaircaseGrows(a: seq<OperatingPoint>, done: set<Point>, known: set<Point>, b: seq<OperatingPoint>, p: Point)
      requires Staircase(a, done) && Points(a) <= known && known <= done
      requires Staircase(b, known + {p})
      ensures Staircase(b, done + {p})
    {
      forall q | q in done ensures Covered(b, q) {
        var i :| 0 <= i < |a| && Dominates(PointOf(a[i]), q);
        assert PointOf(a[i]) in Points(a);
        CoveredThrough(b, PointOf(a[i]), q);
      }
    }
  }
}
