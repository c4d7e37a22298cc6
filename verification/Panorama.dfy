/** Panorama refinement: candidates are abandoned level by level as soon as the
    Cauchy-Schwarz inequality shows that they cannot enter the result heap. */
module Panorama {
  import Arithmetic
  import Permutations
  import ResultHeap
  import TopK

  type Hit = TopK.Hit

  type Vector = seq<real>

  function Dot(a: Vector, b: Vector): real
    requires |a| == |b|
  {
    if a == [] then 0.0 else a[0] * b[0] + Dot(a[1..], b[1..])
  }

  /** Squared Euclidean distance, computed directly. */
  function SquaredDistance(a: Vector, b: Vector): real
    requires |a| == |b|
  {
    if a == [] then 0.0 else (a[0] - b[0]) * (a[0] - b[0]) + SquaredDistance(a[1..], b[1..])
  }

  // ---- Cauchy-Schwarz ----

  function Combine(s: real, a: Vector, t: real, b: Vector): Vector
    requires |a| == |b|
  {
    if a == [] then [] else [s * a[0] - t * b[0]] + Combine(s, a[1..], t, b[1..])
  }

  lemma {:induction false} CombineLength(s: real, a: Vector, t: real, b: Vector)
    requires |a| == |b|
    ensures |Combine(s, a, t, b)| == |a|
  {
    if a != [] { CombineLength(s, a[1..], t, b[1..]); }
  }

  lemma SquareOfDifference(x: real, y: real)
    ensures (x - y) * (x - y) == x * x - 2.0 * (x * y) + y * y
  {
  }

  lemma ProductOfProducts(s: real, x: real, t: real, y: real)
    ensures (s * x) * (t * y) == (s * t) * (x * y)
  {
  }

  /** |s a - t b|^2 from |a|^2, a.b and |b|^2. */
  function Expanded(s: real, t: real, aa: real, ab: real, bb: real): real {
    (s * s) * aa - 2.0 * ((s * t) * ab) + (t * t) * bb
  }

  /** |s a - t b|^2 = s^2 |a|^2 - 2 s t a.b + t^2 |b|^2 */
  lemma {:induction false} CombineNorm(s: real, a: Vector, t: real, b: Vector)
    requires |a| == |b|
    ensures |Combine(s, a, t, b)| == |a|
    ensures Dot(Combine(s, a, t, b), Combine(s, a, t, b)) == Expanded(s, t, Dot(a, a), Dot(a, b), Dot(b, b))
  {
    CombineLength(s, a, t, b);
    if a != [] {
      var c := Combine(s, a, t, b);
      CombineNorm(s, a[1..], t, b[1..]);
      assert c[1..] == Combine(s, a[1..], t, b[1..]);
      CombineStep(s, a[0], t, b[0], c[0],
                  Dot(a[1..], a[1..]), Dot(a[1..], b[1..]), Dot(b[1..], b[1..]), Dot(c[1..], c[1..]));
    }
  }

  /** One more dimension, with the sums over the other dimensions given. */
  lemma CombineStep(s: real, x: real, t: real, y: real, z: real, aa: real, ab: real, bb: real, cc: real)
    requires z == s * x - t * y && cc == Expanded(s, t, aa, ab, bb)
    ensures z * z + cc == Expanded(s, t, x * x + aa, x * y + ab, y * y + bb)
  {
    SquareOfDifference(s * x, t * y);
    ProductOfProducts(s, x, s, x);
    ProductOfProducts(s, x, t, y);
    ProductOfProducts(t, y, t, y);
    Distribute(s * s, x * x, aa);
    Distribute(s * t, x * y, ab);
    Distribute(t * t, y * y, bb);
  }

  lemma Distribute(k: real, u: real, v: real)
    ensures k * (u + v) == k * u + k * v
  {
  }

  lemma {:induction false} NormNonNegative(a: Vector)
    ensures Dot(a, a) >= 0.0
  {
    if a != [] { NormNonNegative(a[1..]); }
  }

  lemma PositiveProduct(x: real, y: real, xy: real)
    requires x > 0.0 && y > 0.0 && xy == x * y
    ensures xy > 0.0
  {
  }

  lemma SquareSign(x: real, xx: real)
    requires xx == x * x
    ensures xx >= 0.0 && (x != 0.0 ==> xx > 0.0)
  {
    if x > 0.0 {
      PositiveProduct(x, x, xx);
    } else if x < 0.0 {
      PositiveProduct(-x, -x, xx);
    }
  }

  lemma {:induction false} ZeroNorm(a: Vector, b: Vector)
    requires |a| == |b| && Dot(a, a) == 0.0
    ensures Dot(a, b) == 0.0
  {
    if a != [] {
      NormNonNegative(a[1..]);
      var xx := a[0] * a[0];
      SquareSign(a[0], xx);
      assert Dot(a, a) == xx + Dot(a[1..], a[1..]);
      assert a[0] * b[0] == 0.0;
      ZeroNorm(a[1..], b[1..]);
    }
  }

  lemma {:induction false} DotCommutes(a: Vector, b: Vector)
    requires |a| == |b|
    ensures Dot(a, b) == Dot(b, a)
  {
    if a != [] { DotCommutes(a[1..], b[1..]); }
  }

  /** p is the norm of a. */
  ghost predicate IsNorm(p: real, a: Vector) {
    p >= 0.0 && p * p == Dot(a, a)
  }

  lemma CauchySchwarz(a: Vector, p: real, b: Vector, q: real)
    requires |a| == |b| && IsNorm(p, a) && IsNorm(q, b)
    ensures Dot(a, b) <= p * q
  {
    if p == 0.0 {
      ZeroNorm(a, b);
    } else if q == 0.0 {
      ZeroNorm(b, a);
      DotCommutes(a, b);
    } else {
      PositiveNorms(a, p, b, q, Combine(q, a, p, b));
    }
  }

  lemma PositiveNorms(a: Vector, p: real, b: Vector, q: real, c: Vector)
    requires |a| == |b| && p > 0.0 && q > 0.0 && p * p == Dot(a, a) && q * q == Dot(b, b)
    requires c == Combine(q, a, p, b)
    ensures Dot(a, b) <= p * q
  {
    CombineNorm(q, a, p, b);
    NormNonNegative(c);
    ScaledBound(p, q, Dot(a, a), Dot(b, b), Dot(a, b), Dot(c, c));
  }

  /** From 2 (p q)^2 >= 2 (p q) d, with p and q positive, d <= p q. */
  lemma ScaledBound(p: real, q: real, aa: real, bb: real, d: real, cc: real)
    requires p > 0.0 && q > 0.0 && aa == p * p && bb == q * q
    requires cc == Expanded(q, p, aa, d, bb) && cc >= 0.0
    ensures d <= p * q
  {
    var m := p * q;
    assert m > 0.0;
    assert (q * q) * aa == m * m && (p * p) * bb == m * m && (q * p) * d == m * d;
    Cancel(m, d, m * d, m * m);
  }

  lemma Cancel(m: real, d: real, md: real, mm: real)
    requires m > 0.0 && md == m * d && mm == m * m && mm >= md
    ensures d <= m
  {
    assert (d - m) * m == md - mm;
  }

  // ---- levels ----

  /** Number of dimensions before level l when levels are w wide. */
  function StartOf(d: nat, w: nat, l: nat): nat {
    if l * w < d then l * w else d
  }

  /** The levels tile the d dimensions; only the last one may be narrower. */
  ghost predicate Tiles(d: nat, w: nat, levels: nat) {
    w > 0 && levels > 0 && (levels - 1) * w < d <= levels * w
  }

  /** Level width and level count derived from the requested count. */
  method DeriveLevels(d: nat, requested: nat) returns (ok: bool, w: nat, levels: nat)
    ensures ok <==> 0 < requested <= d
    ensures ok ==> (w - 1) * requested < d <= w * requested && (levels - 1) * w < d <= levels * w
    ensures ok ==> Tiles(d, w, levels) && levels <= requested
  {
    if requested == 0 || requested > d {
      return false, 0, 0;
    }
    w := (d + requested - 1) / requested;
    CeilingDivision(d, requested);
    var real_levels := d / w;
    if d > real_levels * w {
      real_levels := real_levels + 1;
    }
    LevelCount(d, w, requested);
    return true, w, real_levels;
  }

  lemma CeilingDivision(d: nat, r: nat)
    requires 0 < r <= d
    ensures var w := (d + r - 1) / r; w > 0 && (w - 1) * r < d <= w * r && r * w == w * r
  {
    var w := (d + r - 1) / r;
    assert d + r - 1 == r * w + (d + r - 1) % r;
    assert r * w == w * r && (w - 1) * r == w * r - r;
    assert w == 0 ==> r * w == 0;
  }

  lemma LevelCount(d: nat, w: nat, r: nat)
    requires w > 0 && r > 0 && 0 < d <= r * w
    ensures var n := d / w; var l := if d > n * w then n + 1 else n; Tiles(d, w, l) && l <= r
  {
    var n := d / w;
    assert d == w * n + d % w;
    assert n * w == w * n;
    assert n >= r ==> n * w >= r * w;
    assert (n + 1) * w == n * w + w && (n - 1) * w == n * w - w;
    assert n == 0 ==> n * w == 0;
  }

  /** c[l] is the norm of the part of x from level l on; the last entry is 0. */
  ghost predicate SuffixNorms(x: Vector, w: nat, levels: nat, c: seq<real>) {
    && |c| == levels + 1
    && (forall l :: 0 <= l <= levels ==> IsNorm(c[l], x[StartOf(|x|, w, l)..]))
  }

  lemma {:induction false} DotConcat(a: Vector, b: Vector, n: nat)
    requires |a| == |b| && n <= |a|
    ensures Dot(a, b) == Dot(a[..n], b[..n]) + Dot(a[n..], b[n..])
  {
    if n > 0 {
      DotConcat(a[1..], b[1..], n - 1);
      assert a[..n][1..] == a[1..][..n - 1] && b[..n][1..] == b[1..][..n - 1];
      assert a[1..][n - 1..] == a[n..] && b[1..][n - 1..] == b[n..];
    } else {
      assert a[0..] == a && b[0..] == b;
    }
  }

  /** The dot product from level l on is that of the level plus that of the rest. */
  lemma LevelStep(x: Vector, y: Vector, w: nat, levels: nat, l: nat)
    requires |x| == |y| && Tiles(|x|, w, levels) && l < levels
    ensures var s, e := StartOf(|x|, w, l), StartOf(|x|, w, l + 1);
            && s == l * w && s < e <= |x| && e - s == (if w < |x| - s then w else |x| - s)
            && Dot(x[s..], y[s..]) == Dot(x[s..e], y[s..e]) + Dot(x[e..], y[e..])
  {
    LevelBounds(|x|, w, levels, l);
    var s, e := StartOf(|x|, w, l), StartOf(|x|, w, l + 1);
    DotFrom(x, y, s, e);
  }

  lemma LevelBounds(d: nat, w: nat, levels: nat, l: nat)
    requires Tiles(d, w, levels) && l < levels
    ensures var s, e := StartOf(d, w, l), StartOf(d, w, l + 1);
            s == l * w && s < e <= d && e - s == if w < d - s then w else d - s
  {
    Arithmetic.MulMonotone(l, levels - 1, w);
    assert (l + 1) * w == l * w + w;
    assert (levels - 1) * w + w == levels * w;
  }

  lemma DotFrom(x: Vector, y: Vector, s: nat, e: nat)
    requires |x| == |y| && s <= e <= |x|
    ensures Dot(x[s..], y[s..]) == Dot(x[s..e], y[s..e]) + Dot(x[e..], y[e..])
  {
    DotConcat(x[s..], y[s..], e - s);
    assert x[s..][..e - s] == x[s..e] && y[s..][..e - s] == y[s..e];
    assert x[s..][e - s..] == x[e..] && y[s..][e - s..] == y[e..];
  }

  /** The polarisation used for L2: distances from norms and dot product. */
  lemma {:induction false} DistanceByDot(a: Vector, b: Vector)
    requires |a| == |b|
    ensures SquaredDistance(a, b) == Dot(a, a) + Dot(b, b) - 2.0 * Dot(a, b)
  {
    if a != [] {
      DistanceByDot(a[1..], b[1..]);
      SquareOfDifference(a[0], b[0]);
    }
  }

  // ---- the result heap ----

  /** cmp2 of the heap: a is evicted before b. */
  predicate EvictedFirst(sim: bool, a: Hit, b: Hit) {
    if sim then a.dis < b.dis || (a.dis == b.dis && a.id < b.id)
    else a.dis > b.dis || (a.dis == b.dis && a.id > b.id)
  }

  function Place(sim: bool, h: seq<Hit>, e: Hit): seq<Hit> {
    if h == [] then [e]
    else if EvictedFirst(sim, h[0], e) then [e] + h
    else [h[0]] + Place(sim, h[1..], e)
  }

  /** cmp of the heap: a value x is kept only if it beats the threshold. */
  predicate Beats(sim: bool, threshold: real, x: real) {
    if sim then threshold < x else threshold > x
  }

  /** The heap as the list of its genuine entries, best first; add_result replaces
      the top, and nothing happens when the distance does not beat it. */
  function AddResult(sim: bool, k: nat, h: seq<Hit>, e: Hit): seq<Hit>
    requires k > 0
  {
    if |h| < k then Place(sim, h, e)
    else if Beats(sim, h[|h| - 1].dis, e.dis) then Place(sim, h[..|h| - 1], e)
    else h
  }

  lemma {:induction false} PlaceLength(sim: bool, h: seq<Hit>, e: Hit)
    ensures |Place(sim, h, e)| == |h| + 1
  {
    if h != [] { PlaceLength(sim, h[1..], e); }
  }

  // ---- the list and the binary heap ----

  /** A similarity heap is the mirror image of a distance heap. */
  function Mirror(sim: bool, e: Hit): Hit {
    if sim then TopK.Hit(-e.dis, -e.id) else e
  }

  function Mirrored(sim: bool, h: seq<Hit>): (r: seq<Hit>)
    ensures |r| == |h|
  {
    seq(|h|, i requires 0 <= i < |h| => Mirror(sim, h[i]))
  }

  lemma {:induction false} MirrorPlace(sim: bool, h: seq<Hit>, e: Hit)
    ensures Mirrored(sim, Place(sim, h, e)) == Place(false, Mirrored(sim, h), Mirror(sim, e))
  {
    if h != [] {
      MirrorPlace(sim, h[1..], e);
      assert Mirrored(sim, h)[1..] == Mirrored(sim, h[1..]);
      assert h == [h[0]] + h[1..];
    }
  }

  lemma MirrorAdd(sim: bool, k: nat, h: seq<Hit>, e: Hit)
    requires 0 < k
    ensures Mirrored(sim, AddResult(sim, k, h, e)) == AddResult(false, k, Mirrored(sim, h), Mirror(sim, e))
  {
    MirrorPlace(sim, h, e);
    if |h| > 0 {
      var front := h[..|h| - 1];
      MirrorPlace(sim, front, e);
      assert Mirrored(sim, front) == Mirrored(sim, h)[..|h| - 1];
    }
  }

  function Copies(e: Hit, n: nat): (s: seq<Hit>)
    ensures |s| == n
  {
    seq(n, _ => e)
  }

  /** Heap p holds the genuine entries h, listed from the best to the one evicted first,
      and empty slots. */
  ghost predicate Holds(p: seq<Hit>, h: seq<Hit>, empty: Hit) {
    && ResultHeap.IsHeap(p) && |h| <= |p|
    && multiset(p) == multiset(h) + multiset(Copies(empty, |p| - |h|))
    && ResultHeap.Ordered(h) && (forall e :: e in h ==> e.dis < empty.dis)
  }

  lemma {:induction false} PlaceElements(h: seq<Hit>, e: Hit)
    ensures multiset(Place(false, h, e)) == multiset(h) + multiset{e}
  {
    if h != [] {
      PlaceElements(h[1..], e);
      assert h == [h[0]] + h[1..];
    }
  }

  lemma {:induction false} PlaceOrdered(h: seq<Hit>, e: Hit)
    requires ResultHeap.Ordered(h)
    ensures ResultHeap.Ordered(Place(false, h, e))
  {
    if h != [] && !EvictedFirst(false, h[0], e) {
      var rest, r := h[1..], Place(false, h[1..], e);
      PlaceOrdered(rest, e);
      PlaceElements(rest, e);
      forall i | 0 <= i < |r| ensures !ResultHeap.After(h[0], r[i]) {
        assert r[i] in multiset(r);
        assert r[i] == e || r[i] in rest;
      }
      OrderedCons(h[0], r);
    }
  }

  lemma OrderedCons(x: Hit, r: seq<Hit>)
    requires ResultHeap.Ordered(r) && forall i :: 0 <= i < |r| ==> !ResultHeap.After(x, r[i])
    ensures ResultHeap.Ordered([x] + r)
  {
  }

  /** The top of a full heap is the last of the list; otherwise it is an empty slot. */
  lemma TopOf(p: seq<Hit>, h: seq<Hit>, empty: Hit)
    requires Holds(p, h, empty) && p != []
    ensures p[0] == if |h| < |p| then empty else h[|h| - 1]
  {
    ResultHeap.TopIsLast(p);
    var last := if |h| < |p| then empty else h[|h| - 1];
    var all := h + Copies(empty, |p| - |h|);
    assert multiset(all) == multiset(p);
    assert last in all by {
      if |h| < |p| { assert Copies(empty, |p| - |h|)[0] == empty; }
    }
    Permutations.Member(all, p, last);
    Permutations.Member(p, all, p[0]);
    assert p[0] in p;
  }

  /** Exchanging one element exchanges it in the multiset. */
  lemma Exchanged(p: seq<Hit>, e: Hit, rest: multiset<Hit>)
    requires p != [] && multiset(p) == rest + multiset{p[0]}
    ensures multiset(p[0 := e]) == rest + multiset{e}
  {
    assert multiset(p[0 := e]) == multiset(p) - multiset{p[0]} + multiset{e};
  }

  lemma PlaceBelow(h: seq<Hit>, e: Hit, bound: real)
    requires e.dis < bound && forall x :: x in h ==> x.dis < bound
    ensures forall x :: x in Place(false, h, e) ==> x.dis < bound
  {
    PlaceElements(h, e);
    forall x | x in Place(false, h, e) ensures x.dis < bound {
      assert x in multiset(Place(false, h, e));
    }
  }

  /** The candidate takes the place of an entry `out` of the heap: of an empty slot, or of
      the last one of the list. */
  lemma HoldsReplaced(p: seq<Hit>, q: seq<Hit>, front: seq<Hit>, n: nat, e: Hit, empty: Hit)
    requires p != [] && multiset(p) == multiset(front) + multiset(Copies(empty, n)) + multiset{p[0]}
    requires ResultHeap.IsHeap(q) && |q| == |front| + 1 + n && multiset(q) == multiset(p[0 := e])
    requires ResultHeap.Ordered(front) && e.dis < empty.dis && forall x :: x in front ==> x.dis < empty.dis
    ensures Holds(q, Place(false, front, e), empty)
  {
    Exchanged(p, e, multiset(front) + multiset(Copies(empty, n)));
    PlaceElements(front, e);
    PlaceOrdered(front, e);
    PlaceLength(false, front, e);
    PlaceBelow(front, e, empty.dis);
  }

  /** One more candidate: the heap holds what the list makes of it. */
  lemma HoldsAfterAdd(p: seq<Hit>, q: seq<Hit>, h: seq<Hit>, e: Hit, empty: Hit)
    requires Holds(p, h, empty) && p != [] && e.dis < empty.dis
    requires ResultHeap.IsHeap(q) && |q| == |p| && multiset(q) == multiset(ResultHeap.Replaced(p, e))
    ensures Holds(q, AddResult(false, |p|, h, e), empty)
  {
    TopOf(p, h, empty);
    if |h| < |p| {
      var n := |p| - |h| - 1;
      CopiesLess(empty, n + 1);
      HoldsReplaced(p, q, h, n, e, empty);
    } else if e.dis < p[0].dis {
      var front := h[..|h| - 1];
      Permutations.DropLast(h);
      HoldsReplaced(p, q, front, 0, e, empty);
    }
  }

  lemma CopiesLess(e: Hit, n: nat)
    requires n > 0
    ensures multiset(Copies(e, n)) == multiset(Copies(e, n - 1)) + multiset{e}
  {
    assert Copies(e, n) == Copies(e, n - 1) + [e];
  }

  /** Offering a candidate to the binary heap does what AddResult does to the list, for
      both metrics; `empty` is the neutral slot of the mirrored heap. */
  method AddToHeap(sim: bool, bh: array<Hit>, e: Hit, ghost h: seq<Hit>, ghost empty: Hit)
    requires bh.Length > 0 && Holds(bh[..], Mirrored(sim, h), empty) && Mirror(sim, e).dis < empty.dis
    modifies bh
    ensures Holds(bh[..], Mirrored(sim, AddResult(sim, bh.Length, h, e)), empty)
  {
    ghost var p := bh[..];
    ResultHeap.AddResult(bh, Mirror(sim, e));
    MirrorAdd(sim, |p|, h, e);
    HoldsAfterAdd(p, bh[..], Mirrored(sim, h), Mirror(sim, e), empty);
  }

  /** True distance (L2) or similarity (inner product). */
  function TrueValue(sim: bool, x: Vector, y: Vector): real
    requires |x| == |y|
  {
    if sim then Dot(x, y) else SquaredDistance(x, y)
  }

  /** The reference: every valid label is evaluated completely. */
  function Evaluate(sim: bool, k: nat, x: Vector, base: seq<Vector>, labels: seq<int>, h: seq<Hit>): seq<Hit>
    requires k > 0 && forall i :: 0 <= i < |base| ==> |base[i]| == |x|
    requires forall j :: 0 <= j < |labels| ==> labels[j] < |base|
  {
    if labels == [] then h
    else
      var n := |labels| - 1;
      var g := Evaluate(sim, k, x, base, labels[..n], h);
      if labels[n] < 0 then g else AddResult(sim, k, g, TopK.Hit(TrueValue(sim, x, base[labels[n]]), labels[n]))
  }

  // ---- the reference is the k best ----

  lemma PlaceIsInsert(h: seq<Hit>, e: Hit)
    requires ResultHeap.Ordered(h)
    ensures TopK.Distances(Place(false, h, e)) == TopK.Insert(TopK.Distances(h), e.dis)
  {
    var d, r := TopK.Distances(h), Place(false, h, e);
    PlaceElements(h, e);
    PlaceOrdered(h, e);
    assert multiset(r) == multiset(h + [e]);
    ResultHeap.DistancesPermutation(r, h + [e]);
    assert TopK.Distances(h + [e]) == d + [e.dis];
    TopK.InsertElements(d, e.dis);
    TopK.InsertSorted(d, e.dis);
    TopK.SortedUnique(TopK.Distances(r), TopK.Insert(d, e.dis));
  }

  lemma {:induction false} InsertBeforeLast(d: seq<real>, x: real)
    requires d != [] && x < d[|d| - 1]
    ensures |TopK.Insert(d, x)| == |d| + 1
    ensures TopK.Insert(d, x)[..|d|] == TopK.Insert(d[..|d| - 1], x)
  {
    var n := |d| - 1;
    TopK.InsertElements(d, x);
    if n > 0 && x >= d[0] {
      InsertBeforeLast(d[1..], x);
      assert d[1..][..n - 1] == d[..n][1..];
      assert TopK.Insert(d, x)[..n + 1] == [d[0]] + TopK.Insert(d[1..], x)[..n];
    }
  }

  /** On the distances the list does what the bounded sorted list does. */
  lemma AddIsPush(k: nat, h: seq<Hit>, e: Hit)
    requires 0 < k && |h| <= k && ResultHeap.Ordered(h)
    ensures var r := AddResult(false, k, h, e);
            |r| <= k && ResultHeap.Ordered(r) && TopK.Distances(r) == TopK.Push(k, TopK.Distances(h), e.dis)
  {
    if |h| < k {
      PlaceLength(false, h, e);
      PlaceOrdered(h, e);
      PlaceIsInsert(h, e);
    } else if e.dis < h[k - 1].dis {
      var front := h[..k - 1];
      PlaceLength(false, front, e);
      PlaceOrdered(front, e);
      PlaceIsInsert(front, e);
      assert TopK.Distances(front) == TopK.Distances(h)[..k - 1];
      InsertBeforeLast(TopK.Distances(h), e.dis);
    }
  }

  /** The true values of the valid labels, similarities negated. */
  function Offered(sim: bool, x: Vector, base: seq<Vector>, labels: seq<int>): seq<real>
    requires forall i :: 0 <= i < |base| ==> |base[i]| == |x|
    requires forall j :: 0 <= j < |labels| ==> labels[j] < |base|
  {
    if labels == [] then []
    else
      var n := |labels| - 1;
      var v := Offered(sim, x, base, labels[..n]);
      if labels[n] < 0 then v
      else v + [Mirror(sim, TopK.Hit(TrueValue(sim, x, base[labels[n]]), labels[n])).dis]
  }

  /** Complete evaluation collects the k best of the valid labels, for both metrics. */
  lemma {:induction false} EvaluateBest(sim: bool, k: nat, x: Vector, base: seq<Vector>, labels: seq<int>)
    requires k > 0 && forall i :: 0 <= i < |base| ==> |base[i]| == |x|
    requires forall j :: 0 <= j < |labels| ==> labels[j] < |base|
    ensures var m := Mirrored(sim, Evaluate(sim, k, x, base, labels, []));
            && |m| <= k && ResultHeap.Ordered(m)
            && TopK.Distances(m) == TopK.Best(k, Offered(sim, x, base, labels))
    // smaller ids first among equal distances, larger ones among equal similarities
    ensures var h := Evaluate(sim, k, x, base, labels, []);
            forall i, j :: 0 <= i < j < |h| ==>
              if sim then h[i].dis > h[j].dis || (h[i].dis == h[j].dis && h[i].id >= h[j].id)
              else h[i].dis < h[j].dis || (h[i].dis == h[j].dis && h[i].id <= h[j].id)
  {
    if labels != [] {
      var n := |labels| - 1;
      EvaluateBest(sim, k, x, base, labels[..n]);
      if labels[n] >= 0 {
        var g, e := Evaluate(sim, k, x, base, labels[..n], []), TopK.Hit(TrueValue(sim, x, base[labels[n]]), labels[n]);
        MirrorAdd(sim, k, g, e);
        AddIsPush(k, Mirrored(sim, g), Mirror(sim, e));
        TopK.PushBest(k, Offered(sim, x, base, labels[..n]), Mirror(sim, e).dis);
      }
    }
    BestFirst(sim, Evaluate(sim, k, x, base, labels, []));
  }

  lemma BestFirst(sim: bool, h: seq<Hit>)
    requires ResultHeap.Ordered(Mirrored(sim, h))
    ensures forall i, j :: 0 <= i < j < |h| ==>
              if sim then h[i].dis > h[j].dis || (h[i].dis == h[j].dis && h[i].id >= h[j].id)
              else h[i].dis < h[j].dis || (h[i].dis == h[j].dis && h[i].id <= h[j].id)
  {
    var m := Mirrored(sim, h);
    forall i, j | 0 <= i < j < |h|
      ensures if sim then h[i].dis > h[j].dis || (h[i].dis == h[j].dis && h[i].id >= h[j].id)
              else h[i].dis < h[j].dis || (h[i].dis == h[j].dis && h[i].id <= h[j].id)
    {
      assert !ResultHeap.After(m[i], m[j]);
    }
  }

  // ---- early abandoning ----

  /** What the loop has accumulated before level l. */
  ghost function Partial(sim: bool, x: Vector, y: Vector, s: nat): real
    requires |x| == |y| && s <= |x|
  {
    if sim then Dot(x[..s], y[..s])
    else Dot(x, x) + Dot(y, y) - 2.0 * Dot(x[..s], y[..s])
  }

  /** The partial value minus the Cauchy-Schwarz term bounds the true value. */
  lemma BoundHolds(sim: bool, x: Vector, y: Vector, s: nat, p: real, q: real)
    requires |x| == |y| && s <= |x| && IsNorm(p, x[s..]) && IsNorm(q, y[s..])
    ensures sim ==> TrueValue(sim, x, y) <= Partial(sim, x, y, s) + q * p
    ensures !sim ==> TrueValue(sim, x, y) >= Partial(sim, x, y, s) - 2.0 * q * p
  {
    CauchySchwarz(x[s..], p, y[s..], q);
    DotConcat(x, y, s);
    DistanceByDot(x, y);
    assert q * p == p * q;
    assert 2.0 * q * p == 2.0 * (p * q);
  }

  /** Evaluate one candidate level by level; give up when the bound shows that it
      cannot enter the heap. */
  method Refine(sim: bool, k: nat, x: Vector, xc: seq<real>, y: Vector, yc: seq<real>, w: nat, levels: nat, h: seq<Hit>)
    returns (pruned: bool, value: real)
    requires k > 0 && |x| == |y| && Tiles(|x|, w, levels) && |h| <= k
    requires SuffixNorms(x, w, levels, xc) && SuffixNorms(y, w, levels, yc)
    ensures !pruned ==> value == TrueValue(sim, x, y)
    ensures pruned ==> |h| == k && !Beats(sim, h[k - 1].dis, TrueValue(sim, x, y))
  {
    var d := |x|;
    value := if sim then 0.0 else yc[0] * yc[0] + xc[0] * xc[0];
    PartialStart(sim, x, xc, y, yc, w, levels);
    for level := 0 to levels
      invariant value == Partial(sim, x, y, StartOf(d, w, level))
    {
      LevelBounds(d, w, levels, level);
      var s := level * w;
      var e := s + if w < d - s then w else d - s;
      var dot := Dot(x[s..e], y[s..e]);
      PartialStep(sim, x, y, s, e);
      value := if sim then value + dot else value - 2.0 * dot;
      var p, q := xc[level + 1], yc[level + 1];
      assert IsNorm(p, x[e..]) && IsNorm(q, y[e..]);
      BoundHolds(sim, x, y, e, p, q);
      var csBound := if sim then -q * p else 2.0 * q * p;
      var bound := value - csBound;
      if |h| == k && (if sim then bound < h[k - 1].dis else bound > h[k - 1].dis) {
        return true, value;
      }
    }
    PartialEnd(sim, x, y);
    pruned := false;
  }

  lemma PartialStart(sim: bool, x: Vector, xc: seq<real>, y: Vector, yc: seq<real>, w: nat, levels: nat)
    requires |x| == |y| && Tiles(|x|, w, levels)
    requires SuffixNorms(x, w, levels, xc) && SuffixNorms(y, w, levels, yc)
    ensures StartOf(|x|, w, 0) == 0
    ensures Partial(sim, x, y, 0) == if sim then 0.0 else yc[0] * yc[0] + xc[0] * xc[0]
  {
    assert IsNorm(xc[0], x[StartOf(|x|, w, 0)..]) && IsNorm(yc[0], y[StartOf(|x|, w, 0)..]);
    assert x[0..] == x && y[0..] == y;
  }

  lemma PartialStep(sim: bool, x: Vector, y: Vector, s: nat, e: nat)
    requires |x| == |y| && s <= e <= |x|
    ensures var dot := Dot(x[s..e], y[s..e]);
            Partial(sim, x, y, e) == Partial(sim, x, y, s) + if sim then dot else -2.0 * dot
  {
    DotConcat(x[..e], y[..e], s);
    assert x[..e][..s] == x[..s] && y[..e][..s] == y[..s];
    assert x[..e][s..] == x[s..e] && y[..e][s..] == y[s..e];
  }

  lemma PartialEnd(sim: bool, x: Vector, y: Vector)
    requires |x| == |y|
    ensures Partial(sim, x, y, |x|) == TrueValue(sim, x, y)
  {
    assert x[..|x|] == x && y[..|x|] == y;
    DistanceByDot(x, y);
  }

  /** The refinement of one query's base labels ends in exactly the heap, ids
      included, that complete evaluation of every valid label produces. */
  method SearchSubset(sim: bool, k: nat, x: Vector, xc: seq<real>, base: seq<Vector>, cumSums: seq<seq<real>>,
                      labels: seq<int>, w: nat, levels: nat)
    returns (h: seq<Hit>)
    requires k > 0 && Tiles(|x|, w, levels) && SuffixNorms(x, w, levels, xc)
    requires |cumSums| == |base|
    requires forall i :: 0 <= i < |base| ==> |base[i]| == |x| && SuffixNorms(base[i], w, levels, cumSums[i])
    requires forall j :: 0 <= j < |labels| ==> labels[j] < |base|
    ensures h == Evaluate(sim, k, x, base, labels, [])
  {
    h := [];
    for j := 0 to |labels|
      invariant |h| <= k
      invariant h == Evaluate(sim, k, x, base, labels[..j], [])
    {
      assert labels[..j + 1][..j] == labels[..j];
      var idx := labels[j];
      if idx >= 0 {
        var pruned, value := Refine(sim, k, x, xc, base[idx], cumSums[idx], w, levels, h);
        PlaceLength(sim, h, TopK.Hit(value, idx));
        if |h| > 0 { PlaceLength(sim, h[..|h| - 1], TopK.Hit(value, idx)); }
        if !pruned {
          h := AddResult(sim, k, h, TopK.Hit(value, idx));
        }
      }
    }
    assert labels[..|labels|] == labels;
  }
}
