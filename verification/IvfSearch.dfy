/** Four ways of scheduling the top-k scan of inverted lists.

    Each mode scans the same lists for the same queries; they differ in what runs in
    parallel and in whether threads fill heaps of their own that are merged later.  All
    of them return, per query, the k least distances over the lists that it probes. */
module IvfSearch {
  import opened Arithmetic
  import Permutations
  import opened TopK

  type Lists = seq<seq<real>>

  /** What scanning the list with the given key offers to the heap: keys below
      zero stand for missing centroids. */
  function Offered(lists: Lists, key: int): seq<real> {
    if 0 <= key < |lists| then lists[key] else []
  }

  function Parts(lists: Lists, keys: seq<int>): (parts: seq<seq<real>>)
    ensures |parts| == |keys|
  {
    seq(|keys|, ik requires 0 <= ik < |keys| => Offered(lists, keys[ik]))
  }

  function Collected(lists: Lists, keys: seq<int>, order: seq<nat>): seq<real>
    requires forall i :: 0 <= i < |order| ==> order[i] < |keys|
  {
    Permutations.Concat(Parts(lists, keys), order)
  }

  /** The reference answer for one query: the k best over its probes in order. */
  function Answer(lists: Lists, keys: seq<int>, k: nat): seq<real> {
    Best(k, Collected(lists, keys, Permutations.Identity(|keys|)))
  }

  /** Visiting every probe once, in whatever order, gives the reference answer. */
  lemma AnyOrder(lists: Lists, keys: seq<int>, k: nat, order: seq<nat>)
    requires forall i, j :: 0 <= i < j < |order| ==> order[i] != order[j]
    requires forall p: nat :: p in order <==> p < |keys|
    ensures forall i :: 0 <= i < |order| ==> order[i] < |keys|
    ensures Best(k, Collected(lists, keys, order)) == Answer(lists, keys, k)
  {
    forall i | 0 <= i < |order| ensures order[i] < |keys| {
      assert order[i] in order;
    }
    var parts := Parts(lists, keys);
    Permutations.IdentityPermutation(order, |keys|);
    Permutations.ConcatPermutation(parts, order, Permutations.Identity(|keys|));
    BestPermutation(k, Collected(lists, keys, order), Collected(lists, keys, Permutations.Identity(|keys|)));
  }

  ghost predicate Invalid(keys: seq<int>, nlist: nat) {
    exists ik :: 0 <= ik < |keys| && keys[ik] >= nlist
  }

  /** Scan one list into a heap; a key past the last list is an error. */
  method ScanOneList(lists: Lists, key: int, k: nat, heap: seq<real>) returns (thrown: bool, heap': seq<real>)
    requires k > 0
    ensures thrown <==> key >= |lists|
    ensures heap' == PushAll(k, heap, Offered(lists, key))
  {
    thrown, heap' := false, heap;
    if key < 0 {
      return;
    }
    if key >= |lists| {
      thrown := true;
      return;
    }
    var rest := lists[key];
    while rest != []
      invariant PushAll(k, heap', rest) == PushAll(k, heap, lists[key])
      decreases |rest|
    {
      heap' := Push(k, heap', rest[0]);
      rest := rest[1..];
    }
  }

  lemma CollectedNext(lists: Lists, keys: seq<int>, order: seq<nat>, ik: nat, more: seq<nat>)
    requires ik < |keys| && more == order + [ik] && forall i :: 0 <= i < |order| ==> order[i] < |keys|
    ensures forall i :: 0 <= i < |more| ==> more[i] < |keys|
    ensures Collected(lists, keys, more) == Collected(lists, keys, order) + Offered(lists, keys[ik])
  {
    Permutations.ConcatOne(Parts(lists, keys), order, ik);
  }

  /** One more probe in a heap that is best for the probes of `order`. */
  lemma ScanNext(lists: Lists, keys: seq<int>, k: nat, order: seq<nat>, ik: nat)
    requires k > 0 && ik < |keys| && forall i :: 0 <= i < |order| ==> order[i] < |keys|
    ensures PushAll(k, Best(k, Collected(lists, keys, order)), Offered(lists, keys[ik]))
            == Best(k, Collected(lists, keys, order + [ik]))
  {
    CollectedNext(lists, keys, order, ik, order + [ik]);
    PushAllBest(k, Collected(lists, keys, order), Offered(lists, keys[ik]));
  }

  /** Merging the heap of the probes `b` into the heap of the probes `a`. */
  lemma MergeNext(lists: Lists, keys: seq<int>, k: nat, a: seq<nat>, b: seq<nat>)
    requires k > 0
    requires forall i :: 0 <= i < |a| ==> a[i] < |keys|
    requires forall i :: 0 <= i < |b| ==> b[i] < |keys|
    ensures PushAll(k, Best(k, Collected(lists, keys, a)), Best(k, Collected(lists, keys, b)))
            == Best(k, Collected(lists, keys, a + b))
  {
    Permutations.ConcatAppend(Parts(lists, keys), a, b);
    MergeBest(k, Collected(lists, keys, a), Collected(lists, keys, b));
  }

  function Upto(n: nat): (s: set<nat>)
    ensures forall p: nat :: p in s <==> p < n
  {
    if n == 0 then {} else Upto(n - 1) + {n - 1}
  }

  // ---- modes 0 and 3: one heap per query ----

  method SearchSequential(lists: Lists, keys: seq<int>, k: nat) returns (thrown: bool, heap: seq<real>)
    requires k > 0
    ensures thrown <==> Invalid(keys, |lists|)
    ensures !thrown ==> heap == Answer(lists, keys, k)
  {
    thrown, heap := false, [];
    var ik := 0;
    while ik < |keys|
      invariant 0 <= ik <= |keys| && !thrown
      invariant !Invalid(keys[..ik], |lists|)
      invariant forall i :: 0 <= i < |Permutations.Identity(ik)| ==> Permutations.Identity(ik)[i] < |keys|
      invariant heap == Best(k, Collected(lists, keys, Permutations.Identity(ik)))
    {
      ScanNext(lists, keys, k, Permutations.Identity(ik), ik);
      thrown, heap := ScanOneList(lists, keys[ik], k, heap);
      if thrown {
        return;
      }
      assert Permutations.Identity(ik) + [ik] == Permutations.Identity(ik + 1);
      ik := ik + 1;
    }
    assert keys[..|keys|] == keys;
  }

  // ---- mode 1: the probes of one query are spread over threads ----

  /** Thread t has scanned exactly the probes that the schedule gave to it. */
  ghost predicate Owned(orders: seq<seq<nat>>, owner: seq<nat>) {
    && (forall t, a {:trigger orders[t][a]} :: 0 <= t < |orders| && 0 <= a < |orders[t]| ==>
          orders[t][a] < |owner| && owner[orders[t][a]] == t)
    && (forall t, a, b {:trigger orders[t][a], orders[t][b]} ::
          0 <= t < |orders| && 0 <= a < b < |orders[t]| ==> orders[t][a] != orders[t][b])
    && (forall p {:trigger owner[p]} :: 0 <= p < |owner| && owner[p] < |orders| ==> p in orders[owner[p]])
  }

  lemma OwnNext(orders: seq<seq<nat>>, owner: seq<nat>, t: nat, p: nat)
    requires Owned(orders, owner) && t < |orders| && p < |owner| && owner[p] == |orders|
    ensures Owned(orders[t := orders[t] + [p]], owner[p := t])
  {
    var orders', owner' := orders[t := orders[t] + [p]], owner[p := t];
    forall q | 0 <= q < |owner'| && owner'[q] < |orders'| ensures q in orders'[owner'[q]] {
      if q == p {
        assert orders'[t][|orders[t]|] == p;
      } else {
        assert q in orders[owner[q]];
      }
    }
  }

  ghost predicate Heap(lists: Lists, keys: seq<int>, k: nat, order: seq<nat>, heap: seq<real>) {
    && (forall i :: 0 <= i < |order| ==> order[i] < |keys|)
    && heap == Best(k, Collected(lists, keys, order))
  }

  /** The scan phase so far: the probes in `todo` have no thread yet. */
  ghost predicate SharedInv(lists: Lists, keys: seq<int>, k: nat, todo: set<nat>, locals: seq<seq<real>>,
                            orders: seq<seq<nat>>, owner: seq<nat>)
  {
    && |owner| == |keys| && Owned(orders, owner) && (forall p :: p in todo ==> p < |keys|)
    && Assigned(owner, |orders|, todo) && Heaps(lists, keys, k, orders, locals)
  }

  /** The probes in `todo`, and no others, are marked as having no owner among n threads. */
  ghost predicate Assigned(owner: seq<nat>, n: nat, todo: set<nat>) {
    forall p {:trigger owner[p]} :: 0 <= p < |owner| ==> owner[p] <= n && (owner[p] == n <==> p in todo)
  }

  ghost predicate Heaps(lists: Lists, keys: seq<int>, k: nat, orders: seq<seq<nat>>, locals: seq<seq<real>>) {
    |locals| == |orders| && forall t :: 0 <= t < |orders| ==> Heap(lists, keys, k, orders[t], locals[t])
  }

  lemma AssignedNext(owner: seq<nat>, n: nat, todo: set<nat>, p: nat, t: nat)
    requires Assigned(owner, n, todo) && p < |owner| && t < n
    ensures Assigned(owner[p := t], n, todo - {p})
  {
  }

  lemma HeapsNext(lists: Lists, keys: seq<int>, k: nat, orders: seq<seq<nat>>, locals: seq<seq<real>>, t: nat,
                  order: seq<nat>, heap: seq<real>)
    requires Heaps(lists, keys, k, orders, locals) && t < |orders| && Heap(lists, keys, k, order, heap)
    ensures Heaps(lists, keys, k, orders[t := order], locals[t := heap])
  {
  }

  lemma SharedStep(lists: Lists, keys: seq<int>, k: nat, todo: set<nat>, locals: seq<seq<real>>,
                   orders: seq<seq<nat>>, owner: seq<nat>, p: nat, t: nat)
    requires k > 0 && p in todo && t < |orders| && SharedInv(lists, keys, k, todo, locals, orders, owner)
    requires p < |keys|
    ensures SharedInv(lists, keys, k, todo - {p}, locals[t := PushAll(k, locals[t], Offered(lists, keys[p]))],
                      orders[t := orders[t] + [p]], owner[p := t])
  {
    assert Heap(lists, keys, k, orders[t], locals[t]);
    assert owner[p] == |orders|;
    OwnNext(orders, owner, t, p);
    AssignedNext(owner, |orders|, todo, p, t);
    HeapNext(lists, keys, k, orders[t], locals[t], p);
    HeapsNext(lists, keys, k, orders, locals, t, orders[t] + [p], PushAll(k, locals[t], Offered(lists, keys[p])));
  }

  lemma HeapNext(lists: Lists, keys: seq<int>, k: nat, order: seq<nat>, heap: seq<real>, p: nat)
    requires k > 0 && Heap(lists, keys, k, order, heap) && p < |keys|
    ensures Heap(lists, keys, k, order + [p], PushAll(k, heap, Offered(lists, keys[p])))
  {
    ScanNext(lists, keys, k, order, p);
  }

  /** The scan phase: every probe goes to some thread, in any order. */
  method ScanShared(lists: Lists, keys: seq<int>, k: nat, nt: nat)
    returns (thrown: bool, locals: seq<seq<real>>, orders: seq<seq<nat>>, owner: seq<nat>)
    requires k > 0 && nt > 0
    ensures thrown <==> Invalid(keys, |lists|)
    ensures |orders| == nt && SharedInv(lists, keys, k, {}, locals, orders, owner)
  {
    thrown, locals, orders := false, seq(nt, _ => []), seq(nt, _ => []);
    owner := seq(|keys|, _ => nt);
    var todo := Upto(|keys|);
    while todo != {}
      invariant |orders| == nt && SharedInv(lists, keys, k, todo, locals, orders, owner)
      invariant thrown <==> exists p :: 0 <= p < |keys| && p !in todo && keys[p] >= |lists|
      decreases todo
    {
      var p :| p in todo;
      var t: nat :| t < nt;
      SharedStep(lists, keys, k, todo, locals, orders, owner, p, t);
      var bad, heap := ScanOneList(lists, keys[p], k, locals[t]);
      thrown := thrown || bad;
      todo := todo - {p};
      locals, orders, owner := locals[t := heap], orders[t := orders[t] + [p]], owner[p := t];
    }
  }

  /** The probes merged so far are those of the merged threads. */
  ghost predicate MergedFrom(merged: seq<nat>, owner: seq<nat>, todo: set<nat>) {
    && (forall i, j :: 0 <= i < j < |merged| ==> merged[i] != merged[j])
    && (forall i :: 0 <= i < |merged| ==> merged[i] < |owner| && owner[merged[i]] !in todo)
    && (forall p {:trigger owner[p]} :: 0 <= p < |owner| && owner[p] !in todo ==> p in merged)
  }

  /** Mode 1: after the scan, the threads merge their heaps in any order. */
  method SearchSharedQuery(lists: Lists, keys: seq<int>, k: nat, nt: nat) returns (thrown: bool, heap: seq<real>)
    requires k > 0 && nt > 0
    ensures thrown <==> Invalid(keys, |lists|)
    ensures !thrown ==> heap == Answer(lists, keys, k)
  {
    var locals, orders, owner;
    thrown, locals, orders, owner := ScanShared(lists, keys, k, nt);
    heap := [];
    ghost var merged: seq<nat> := [];
    var todo := Upto(nt);
    while todo != {}
      invariant forall t :: t in todo ==> t < nt
      invariant MergedFrom(merged, owner, todo) && Heap(lists, keys, k, merged, heap)
      decreases todo
    {
      var t :| t in todo;
      assert Heap(lists, keys, k, orders[t], locals[t]);
      MergeNext(lists, keys, k, merged, orders[t]);
      todo := todo - {t};
      heap := PushAll(k, heap, locals[t]);
      merged := merged + orders[t];
    }
    forall p: nat ensures p in merged <==> p < |keys| {
      if p < |keys| {
        assert owner[p] !in todo;
      }
    }
    AnyOrder(lists, keys, k, merged);
  }

  // ---- batches of queries ----

  /** Per query: its distances to the entries of every list, and its probes. */
  ghost predicate Shape(dis: seq<Lists>, keys: seq<seq<int>>, nprobe: nat, nlist: nat) {
    && |dis| == |keys|
    && (forall i :: 0 <= i < |keys| ==> |keys[i]| == nprobe)
    && (forall i :: 0 <= i < |dis| ==> |dis[i]| == nlist)
  }

  ghost predicate AnyInvalid(keys: seq<seq<int>>, nlist: nat) {
    exists i :: 0 <= i < |keys| && Invalid(keys[i], nlist)
  }

  ghost predicate Answers(dis: seq<Lists>, keys: seq<seq<int>>, k: nat, heaps: seq<seq<real>>)
    requires |dis| == |keys|
  {
    |heaps| == |keys| && forall i :: 0 <= i < |heaps| ==> heaps[i] == Answer(dis[i], keys[i], k)
  }

  method SearchByQuery(dis: seq<Lists>, keys: seq<seq<int>>, nprobe: nat, ghost nlist: nat, k: nat)
    returns (thrown: bool, heaps: seq<seq<real>>)
    requires k > 0 && Shape(dis, keys, nprobe, nlist)
    ensures thrown <==> AnyInvalid(keys, nlist)
    ensures !thrown ==> Answers(dis, keys, k, heaps)
  {
    heaps := [];
    for i := 0 to |keys|
      invariant !AnyInvalid(keys[..i], nlist)
      invariant |heaps| == i && forall j :: 0 <= j < i ==> heaps[j] == Answer(dis[j], keys[j], k)
    {
      var bad, heap := SearchSequential(dis[i], keys[i], k);
      if bad {
        return true, heaps;
      }
      heaps := heaps + [heap];
    }
    thrown := false;
    assert keys[..|keys|] == keys;
  }

  method SearchByProbe(dis: seq<Lists>, keys: seq<seq<int>>, nprobe: nat, ghost nlist: nat, k: nat, nt: nat)
    returns (thrown: bool, heaps: seq<seq<real>>)
    requires k > 0 && nt > 0 && Shape(dis, keys, nprobe, nlist)
    ensures thrown <==> AnyInvalid(keys, nlist)
    ensures !thrown ==> Answers(dis, keys, k, heaps)
  {
    thrown, heaps := false, [];
    for i := 0 to |keys|
      invariant thrown <==> AnyInvalid(keys[..i], nlist)
      invariant |heaps| == i
      invariant !thrown ==> forall j :: 0 <= j < i ==> heaps[j] == Answer(dis[j], keys[j], k)
    {
      var bad, heap := SearchSharedQuery(dis[i], keys[i], k, nt);
      heaps := heaps + [heap];
      assert keys[..i + 1] == keys[..i] + [keys[i]];
      assert bad <==> Invalid(keys[i], nlist);
      InvalidNext(keys[..i], keys[i], nlist);
      thrown := thrown || bad;
    }
    assert keys[..|keys|] == keys;
  }

  lemma InvalidNext(keys: seq<seq<int>>, more: seq<int>, nlist: nat)
    ensures AnyInvalid(keys + [more], nlist) <==> AnyInvalid(keys, nlist) || Invalid(more, nlist)
  {
    if AnyInvalid(keys, nlist) {
      var i :| 0 <= i < |keys| && Invalid(keys[i], nlist);
      assert Invalid((keys + [more])[i], nlist);
    }
    if Invalid(more, nlist) {
      assert Invalid((keys + [more])[|keys|], nlist);
    }
  }

  // ---- mode 2: all (query, probe) pairs are spread over threads ----

  datatype Pair = Pair(query: nat, probe: nat)

  /** The pairs met by the first `total` rounds of the flat loop over n * nprobe. */
  function PairsUpto(total: nat, nprobe: nat): set<Pair>
    requires nprobe > 0
  {
    if total == 0 then {}
    else PairsUpto(total - 1, nprobe) + {Pair((total - 1) / nprobe, (total - 1) % nprobe)}
  }

  lemma {:induction false} PairsMet(total: nat, nprobe: nat, p: Pair)
    requires nprobe > 0
    ensures p in PairsUpto(total, nprobe) <==> p.probe < nprobe && p.query * nprobe + p.probe < total
  {
    if total > 0 {
      PairsMet(total - 1, nprobe, p);
      if p.probe < nprobe && p.query * nprobe + p.probe == total - 1 {
        DivUnique(total - 1, nprobe, p.query, p.probe);
      }
    }
  }

  lemma Inside(q: nat, r: nat, n: nat, d: nat)
    requires r < d
    ensures q * d + r < n * d <==> q < n
  {
    MulMonotone(q + 1, n, d);
    MulMonotone(n, q, d);
  }

  /** The flat loop meets every probe of every query. */
  lemma AllPairs(n: nat, nprobe: nat)
    requires nprobe > 0
    ensures forall p :: p in PairsUpto(n * nprobe, nprobe) <==> p.query < n && p.probe < nprobe
  {
    forall p: Pair
      ensures p in PairsUpto(n * nprobe, nprobe) <==> p.query < n && p.probe < nprobe
    {
      PairsMet(n * nprobe, nprobe, p);
      if p.probe < nprobe {
        Inside(p.query, p.probe, n, nprobe);
      }
    }
  }

  /** The pairs neither waiting nor held by a thread have been merged, once each. */
  ghost predicate MergedPairs(merged: seq<seq<nat>>, nprobe: nat, pending: set<Pair>) {
    && (forall i, a, b {:trigger merged[i][a], merged[i][b]} ::
          0 <= i < |merged| && 0 <= a < b < |merged[i]| ==> merged[i][a] != merged[i][b])
    && (forall i, a {:trigger merged[i][a]} :: 0 <= i < |merged| && 0 <= a < |merged[i]| ==>
          merged[i][a] < nprobe && Pair(i, merged[i][a]) !in pending)
    && (forall i: nat, ik: nat :: i < |merged| && ik < nprobe && Pair(i, ik) !in pending ==> ik in merged[i])
  }

  lemma MergePair(merged: seq<seq<nat>>, nprobe: nat, pending: set<Pair>, p: Pair)
    requires MergedPairs(merged, nprobe, pending) && p.query < |merged| && p.probe < nprobe && p in pending
    ensures MergedPairs(merged[p.query := merged[p.query] + [p.probe]], nprobe, pending - {p})
  {
    var i := p.query;
    var merged', pending' := merged[i := merged[i] + [p.probe]], pending - {p};
    forall j: nat, jk: nat | j < |merged'| && jk < nprobe && Pair(j, jk) !in pending' ensures jk in merged'[j] {
      if Pair(j, jk) == p {
        assert merged'[i][|merged[i]|] == p.probe;
      } else {
        assert jk in merged[j];
      }
    }
  }

  ghost predicate IsPair(keys: seq<seq<int>>, nprobe: nat, p: Pair) {
    p.query < |keys| && p.probe < nprobe == |keys[p.query]|
  }

  /** What a thread holds after scanning a pair. */
  ghost predicate Scanned(dis: seq<Lists>, keys: seq<seq<int>>, nprobe: nat, k: nat, p: Pair, heap: seq<real>)
    requires |dis| == |keys|
  {
    IsPair(keys, nprobe, p) && heap == Best(k, Collected(dis[p.query], keys[p.query], [p.probe]))
  }

  ghost predicate BadPair(keys: seq<seq<int>>, nprobe: nat, nlist: nat, waiting: set<Pair>) {
    exists p: Pair :: IsPair(keys, nprobe, p) && p !in waiting && keys[p.query][p.probe] >= nlist
  }

  lemma BadNext(keys: seq<seq<int>>, nprobe: nat, nlist: nat, waiting: set<Pair>, p: Pair)
    requires p in waiting && IsPair(keys, nprobe, p)
    ensures BadPair(keys, nprobe, nlist, waiting - {p})
            <==> BadPair(keys, nprobe, nlist, waiting) || keys[p.query][p.probe] >= nlist
  {
    if BadPair(keys, nprobe, nlist, waiting) {
      var other: Pair :| IsPair(keys, nprobe, other) && other !in waiting && keys[other.query][other.probe] >= nlist;
      assert IsPair(keys, nprobe, other) && other !in waiting - {p};
    }
  }

  lemma BadAtAll(keys: seq<seq<int>>, nprobe: nat, nlist: nat, waiting: set<Pair>)
    requires forall i :: 0 <= i < |keys| ==> |keys[i]| == nprobe
    requires waiting == {}
    ensures BadPair(keys, nprobe, nlist, waiting) <==> AnyInvalid(keys, nlist)
  {
    if BadPair(keys, nprobe, nlist, waiting) {
      var p: Pair :| IsPair(keys, nprobe, p) && keys[p.query][p.probe] >= nlist;
      assert Invalid(keys[p.query], nlist);
    }
    if AnyInvalid(keys, nlist) {
      var i :| 0 <= i < |keys| && Invalid(keys[i], nlist);
      var ik :| 0 <= ik < |keys[i]| && keys[i][ik] >= nlist;
      assert IsPair(keys, nprobe, Pair(i, ik)) && Pair(i, ik) !in waiting;
    }
  }

  lemma AllMerged(dis: seq<Lists>, keys: seq<seq<int>>, nprobe: nat, nlist: nat, k: nat,
                  merged: seq<seq<nat>>, heaps: seq<seq<real>>, pending: set<Pair>)
    requires Shape(dis, keys, nprobe, nlist) && |merged| == |heaps| == |keys|
    requires pending == {} && MergedPairs(merged, nprobe, pending)
    requires forall i :: 0 <= i < |keys| ==> Heap(dis[i], keys[i], k, merged[i], heaps[i])
    ensures Answers(dis, keys, k, heaps)
  {
    forall i: nat | i < |heaps| ensures heaps[i] == Answer(dis[i], keys[i], k) {
      assert Heap(dis[i], keys[i], k, merged[i], heaps[i]);
      forall p: nat ensures p in merged[i] <==> p < nprobe {
        assert Pair(i, p) !in pending;
        if p in merged[i] {
          var a :| 0 <= a < |merged[i]| && merged[i][a] == p;
        }
      }
      AnyOrder(dis[i], keys[i], k, merged[i]);
    }
  }

  /** The state between two steps of the pair loop. */
  ghost predicate PairInv(dis: seq<Lists>, keys: seq<seq<int>>, nprobe: nat, k: nat, waiting: set<Pair>,
                          held: set<Pair>, locals: map<Pair, seq<real>>, merged: seq<seq<nat>>, heaps: seq<seq<real>>)
    requires |dis| == |keys|
  {
    && |heaps| == |merged| == |keys| && waiting !! held
    && (forall p :: p in waiting + held ==> IsPair(keys, nprobe, p))
    && MergedPairs(merged, nprobe, waiting + held)
    && (forall i :: 0 <= i < |keys| ==> Heap(dis[i], keys[i], k, merged[i], heaps[i]))
    && (forall p :: p in held ==> p in locals && Scanned(dis, keys, nprobe, k, p, locals[p]))
  }

  lemma ScanStep(dis: seq<Lists>, keys: seq<seq<int>>, nprobe: nat, k: nat, waiting: set<Pair>, held: set<Pair>,
                 locals: map<Pair, seq<real>>, merged: seq<seq<nat>>, heaps: seq<seq<real>>, p: Pair, heap: seq<real>)
    requires |dis| == |keys| && Scanned(dis, keys, nprobe, k, p, heap) && p in waiting
    requires PairInv(dis, keys, nprobe, k, waiting, held, locals, merged, heaps)
    ensures PairInv(dis, keys, nprobe, k, waiting - {p}, held + {p}, locals[p := heap], merged, heaps)
  {
    assert waiting - {p} + (held + {p}) == waiting + held;
  }

  lemma MergeStep(dis: seq<Lists>, keys: seq<seq<int>>, nprobe: nat, k: nat, waiting: set<Pair>, held: set<Pair>,
                  locals: map<Pair, seq<real>>, merged: seq<seq<nat>>, heaps: seq<seq<real>>, p: Pair)
    requires k > 0 && |dis| == |keys| && p in held && IsPair(keys, nprobe, p)
    requires PairInv(dis, keys, nprobe, k, waiting, held, locals, merged, heaps)
    ensures PairInv(dis, keys, nprobe, k, waiting, held - {p}, locals,
                    merged[p.query := merged[p.query] + [p.probe]],
                    heaps[p.query := PushAll(k, heaps[p.query], locals[p])])
  {
    var i := p.query;
    assert Scanned(dis, keys, nprobe, k, p, locals[p]);
    assert Heap(dis[i], keys[i], k, merged[i], heaps[i]);
    MergeNext(dis[i], keys[i], k, merged[i], [p.probe]);
    MergePair(merged, nprobe, waiting + held, p);
    assert waiting + (held - {p}) == waiting + held - {p};
  }

  lemma PairStart(dis: seq<Lists>, keys: seq<seq<int>>, nprobe: nat, nlist: nat, k: nat)
    requires nprobe > 0 && Shape(dis, keys, nprobe, nlist)
    ensures PairInv(dis, keys, nprobe, k, PairsUpto(|keys| * nprobe, nprobe), {}, map[],
                    seq(|keys|, _ => []), seq(|keys|, _ => []))
    ensures !BadPair(keys, nprobe, nlist, PairsUpto(|keys| * nprobe, nprobe))
  {
    AllPairs(|keys|, nprobe);
  }

  method ScanPair(dis: seq<Lists>, keys: seq<seq<int>>, nprobe: nat, k: nat, p: Pair)
    returns (thrown: bool, heap: seq<real>)
    requires k > 0 && |dis| == |keys| && IsPair(keys, nprobe, p)
    ensures thrown <==> keys[p.query][p.probe] >= |dis[p.query]|
    ensures Scanned(dis, keys, nprobe, k, p, heap)
  {
    ScanNext(dis[p.query], keys[p.query], k, [], p.probe);
    thrown, heap := ScanOneList(dis[p.query], keys[p.query][p.probe], k, []);
  }

  /** A thread takes any waiting pair and scans its list into an empty heap; a held
      heap is merged into the query's result at any later time. */
  method SearchByPair(dis: seq<Lists>, keys: seq<seq<int>>, nprobe: nat, ghost nlist: nat, k: nat)
    returns (thrown: bool, heaps: seq<seq<real>>)
    requires k > 0 && nprobe > 0 && Shape(dis, keys, nprobe, nlist)
    ensures thrown <==> AnyInvalid(keys, nlist)
    ensures !thrown ==> Answers(dis, keys, k, heaps)
  {
    var n := |keys|;
    thrown, heaps := false, seq(n, _ => []);
    ghost var merged: seq<seq<nat>> := seq(n, _ => []);
    var waiting, held: set<Pair> := PairsUpto(n * nprobe, nprobe), {};
    var locals: map<Pair, seq<real>> := map[];
    PairStart(dis, keys, nprobe, nlist, k);
    while waiting + held != {}
      invariant PairInv(dis, keys, nprobe, k, waiting, held, locals, merged, heaps)
      invariant thrown <==> BadPair(keys, nprobe, nlist, waiting)
      decreases waiting, held
    {
      var p :| p in waiting + held;
      assert IsPair(keys, nprobe, p);
      if p in waiting {
        BadNext(keys, nprobe, nlist, waiting, p);
        var bad, heap := ScanPair(dis, keys, nprobe, k, p);
        ScanStep(dis, keys, nprobe, k, waiting, held, locals, merged, heaps, p, heap);
        thrown := thrown || bad;
        waiting, held, locals := waiting - {p}, held + {p}, locals[p := heap];
      } else {
        MergeStep(dis, keys, nprobe, k, waiting, held, locals, merged, heaps, p);
        heaps := heaps[p.query := PushAll(k, heaps[p.query], locals[p])];
        merged := merged[p.query := merged[p.query] + [p.probe]];
        held := held - {p};
      }
    }
    AllMerged(dis, keys, nprobe, nlist, k, merged, heaps, waiting + held);
    assert waiting == {};
    BadAtAll(keys, nprobe, nlist, waiting);
  }

  // ---- search ----

  datatype Outcome = Failure | Found(heaps: seq<seq<real>>)

  /** Every parallel mode gives every query its k best distances. */
  method SearchPreassigned(dis: seq<Lists>, keys: seq<seq<int>>, nprobe: nat, ghost nlist: nat, k: int, mode: nat,
                           nt: nat)
    returns (r: Outcome)
    requires nt > 0 && Shape(dis, keys, nprobe, nlist)
    ensures r.Failure? <==> k <= 0 || nprobe == 0 || mode > 3 || AnyInvalid(keys, nlist)
    ensures r.Found? ==> Answers(dis, keys, k, r.heaps)
  {
    if k <= 0 || nprobe == 0 || mode > 3 {
      return Failure;
    }
    var thrown, heaps;
    if mode == 0 || mode == 3 {
      thrown, heaps := SearchByQuery(dis, keys, nprobe, nlist, k);
    } else if mode == 1 {
      thrown, heaps := SearchByProbe(dis, keys, nprobe, nlist, k, nt);
    } else {
      thrown, heaps := SearchByPair(dis, keys, nprobe, nlist, k);
    }
    return if thrown then Failure else Outcome.Found(heaps);
  }

  // ---- mode 0 cuts the batch into slices ----

  function Cut(n: nat, s: nat, nt: nat): (c: nat)
    requires nt > 0
    ensures c == n * s / nt
  {
    MulMonotone(0, n, s);
    n * s / nt
  }

  /** Where the slices start and end. */
  function Cuts(n: nat, nt: nat): (cuts: seq<nat>)
    requires nt > 0
    ensures |cuts| == nt + 1
  {
    seq(nt + 1, s requires 0 <= s => Cut(n, s, nt))
  }

  ghost predicate Tiling(cuts: seq<nat>, n: nat) {
    && |cuts| > 1 && cuts[0] == 0 && cuts[|cuts| - 1] == n
    && forall s, t :: 0 <= s <= t < |cuts| ==> cuts[s] <= cuts[t]
  }

  /** The slices tile the batch. */
  lemma CutsTile(n: nat, nt: nat)
    requires nt > 0
    ensures Tiling(Cuts(n, nt), n)
  {
    var cuts := Cuts(n, nt);
    DivUnique(n * nt, nt, n, 0);
    DivUnique(n * 0, nt, 0, 0);
    forall s, t | 0 <= s <= t < |cuts| ensures cuts[s] <= cuts[t] {
      MulMonotone(s, t, n);
      DivMonotone(n * s, n * t, nt);
    }
  }

  ghost predicate InSlice(cuts: seq<nat>, s: nat, i: nat) {
    s + 1 < |cuts| && cuts[s] <= i < cuts[s + 1]
  }

  lemma {:induction false} SliceOf(cuts: seq<nat>, n: nat, i: nat, t: nat) returns (s: nat)
    requires Tiling(cuts, n) && t < |cuts| && i < cuts[t]
    ensures s < t && InSlice(cuts, s, i)
  {
    if i < cuts[t - 1] {
      s := SliceOf(cuts, n, i, t - 1);
    } else {
      s := t - 1;
    }
  }

  /** The slices that have been searched hold their answers. */
  ghost predicate SlicesDone(dis: seq<Lists>, keys: seq<seq<int>>, k: nat, heaps: seq<seq<real>>, cuts: seq<nat>,
                             todo: set<nat>)
    requires |dis| == |keys| == |heaps|
  {
    forall s: nat, i: nat {:trigger InSlice(cuts, s, i)} ::
      InSlice(cuts, s, i) && s !in todo && i < |keys| ==> heaps[i] == Answer(dis[i], keys[i], k)
  }

  ghost predicate BadSlice(keys: seq<seq<int>>, nlist: nat, cuts: seq<nat>, s: nat) {
    exists i: nat :: InSlice(cuts, s, i) && i < |keys| && Invalid(keys[i], nlist)
  }

  lemma SliceStored(dis: seq<Lists>, keys: seq<seq<int>>, k: nat, heaps: seq<seq<real>>, cuts: seq<nat>,
                    todo: set<nat>, s: nat, part: seq<seq<real>>)
    requires |dis| == |keys| == |heaps| && Tiling(cuts, |keys|) && s + 1 < |cuts|
    requires SlicesDone(dis, keys, k, heaps, cuts, todo)
    requires Answers(dis[cuts[s]..cuts[s + 1]], keys[cuts[s]..cuts[s + 1]], k, part)
    ensures SlicesDone(dis, keys, k, heaps[..cuts[s]] + part + heaps[cuts[s + 1]..], cuts, todo - {s})
  {
    var i0, i1 := cuts[s], cuts[s + 1];
    var heaps' := heaps[..i0] + part + heaps[i1..];
    forall t: nat, i: nat | InSlice(cuts, t, i) && t !in todo - {s} && i < |keys|
      ensures heaps'[i] == Answer(dis[i], keys[i], k)
    {
      Pasted(heaps, part, i0, i1, i);
      if i0 <= i < i1 {
        PartAnswer(dis, keys, k, part, i0, i1, i);
      } else {
        assert t != s;
      }
    }
  }

  lemma PartAnswer(dis: seq<Lists>, keys: seq<seq<int>>, k: nat, part: seq<seq<real>>, i0: nat, i1: nat, i: nat)
    requires i0 <= i < i1 <= |dis| == |keys| && Answers(dis[i0..i1], keys[i0..i1], k, part)
    ensures |part| == i1 - i0 && part[i - i0] == Answer(dis[i], keys[i], k)
  {
    assert dis[i0..i1][i - i0] == dis[i] && keys[i0..i1][i - i0] == keys[i];
  }

  lemma Pasted(heaps: seq<seq<real>>, part: seq<seq<real>>, i0: nat, i1: nat, i: nat)
    requires i0 <= i1 <= |heaps| && |part| == i1 - i0 && i < |heaps|
    ensures (heaps[..i0] + part + heaps[i1..])[i] == if i0 <= i < i1 then part[i - i0] else heaps[i]
  {
  }

  lemma BadSliceIs(keys: seq<seq<int>>, nlist: nat, cuts: seq<nat>, s: nat)
    requires Tiling(cuts, |keys|) && s + 1 < |cuts|
    ensures BadSlice(keys, nlist, cuts, s) <==> AnyInvalid(keys[cuts[s]..cuts[s + 1]], nlist)
  {
    var i0, i1 := cuts[s], cuts[s + 1];
    var part := keys[i0..i1];
    if AnyInvalid(part, nlist) {
      var j :| 0 <= j < |part| && Invalid(part[j], nlist);
      assert InSlice(cuts, s, i0 + j) && Invalid(keys[i0 + j], nlist);
    }
    if BadSlice(keys, nlist, cuts, s) {
      var i: nat :| InSlice(cuts, s, i) && i < |keys| && Invalid(keys[i], nlist);
      assert Invalid(part[i - i0], nlist);
    }
  }

  lemma AllSlices(dis: seq<Lists>, keys: seq<seq<int>>, k: nat, heaps: seq<seq<real>>, cuts: seq<nat>, todo: set<nat>)
    requires |dis| == |keys| == |heaps| && Tiling(cuts, |keys|) && todo == {}
    requires SlicesDone(dis, keys, k, heaps, cuts, todo)
    ensures Answers(dis, keys, k, heaps)
  {
    forall i: nat | i < |keys| ensures heaps[i] == Answer(dis[i], keys[i], k) {
      var s := SliceOf(cuts, |keys|, i, |cuts| - 1);
    }
  }

  lemma BadSomewhere(keys: seq<seq<int>>, nlist: nat, cuts: seq<nat>, todo: set<nat>)
    requires Tiling(cuts, |keys|) && todo == {}
    ensures AnyInvalid(keys, nlist) <==> exists s: nat :: s !in todo && BadSlice(keys, nlist, cuts, s)
  {
    if AnyInvalid(keys, nlist) {
      var i: nat :| i < |keys| && Invalid(keys[i], nlist);
      var s := SliceOf(cuts, |keys|, i, |cuts| - 1);
      assert s !in todo && BadSlice(keys, nlist, cuts, s);
    }
  }

  /** The slices are searched in any order. */
  method SearchSliced(dis: seq<Lists>, keys: seq<seq<int>>, nprobe: nat, ghost nlist: nat, k: nat, nt: nat)
    returns (thrown: bool, heaps: seq<seq<real>>)
    requires k > 0 && nt > 0 && Shape(dis, keys, nprobe, nlist)
    ensures thrown <==> AnyInvalid(keys, nlist)
    ensures !thrown ==> Answers(dis, keys, k, heaps)
  {
    var n := |keys|;
    var cuts := Cuts(n, nt);
    CutsTile(n, nt);
    thrown, heaps := false, seq(n, _ => []);
    var todo := Upto(nt);
    while todo != {}
      invariant |heaps| == n && forall s :: s in todo ==> s < nt
      invariant thrown <==> exists s: nat :: s !in todo && BadSlice(keys, nlist, cuts, s)
      invariant !thrown ==> SlicesDone(dis, keys, k, heaps, cuts, todo)
      decreases todo
    {
      var s :| s in todo;
      var i0, i1 := cuts[s], cuts[s + 1];
      BadSliceIs(keys, nlist, cuts, s);
      if i1 > i0 {
        var bad, part := SearchByQuery(dis[i0..i1], keys[i0..i1], nprobe, nlist, k);
        if !bad {
          if !thrown {
            SliceStored(dis, keys, k, heaps, cuts, todo, s, part);
          }
          heaps := heaps[..i0] + part + heaps[i1..];
        }
        thrown := thrown || bad;
      }
      todo := todo - {s};
    }
    BadSomewhere(keys, nlist, cuts, todo);
    if !thrown {
      AllSlices(dis, keys, k, heaps, cuts, todo);
    }
  }

  /** The whole search, from the probes that the coarse quantizer found. */
  method Search(dis: seq<Lists>, keys: seq<seq<int>>, nprobe: nat, ghost nlist: nat, k: int, mode: nat, maxThreads: nat)
    returns (r: Outcome)
    requires maxThreads > 0 && Shape(dis, keys, nprobe, nlist)
    ensures r.Failure? <==> k <= 0 || nprobe == 0 || mode > 3 || AnyInvalid(keys, nlist)
    ensures r.Found? ==> Answers(dis, keys, k, r.heaps)
  {
    if k <= 0 || nprobe == 0 {
      return Failure;
    }
    if mode == 0 {
      var nt := if maxThreads < |keys| then maxThreads else |keys|;
      if nt == 0 {
        return Outcome.Found([]);
      }
      var thrown, heaps := SearchSliced(dis, keys, nprobe, nlist, k, nt);
      return if thrown then Failure else Outcome.Found(heaps);
    }
    r := SearchPreassigned(dis, keys, nprobe, nlist, k, mode, maxThreads);
  }
}
