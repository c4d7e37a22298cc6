/** The scan budget of one query in parallel modes 0 and 3: how many codes the probe
    loop may compute distances for, and when it stops early. */
module IvfBudget {
  import opened Arithmetic
  import IvfSearch
  import Permutations
  import opened TopK
  import opened Vectors

  const UNLIMITED: nat := 0x7fff_ffff_ffff_ffff

  /** An entry of a list: its id and its distance to the query. */
  type Row = Hit

  /** No selector, a predicate on ids, or a range of ids in lists sorted by id. */
  datatype Selector = All | Where(member: int -> bool) | SortedRange(imin: int, imax: int)

  predicate IsMember(sel: Selector, id: int) {
    match sel
    case All => true
    case Where(member) => member(id)
    case SortedRange(imin, imax) => imin <= id < imax
  }

  ghost predicate SortedIds(rows: seq<Row>) {
    forall i, j :: 0 <= i <= j < |rows| ==> rows[i].id <= rows[j].id
  }

  ghost predicate Admissible(sel: Selector, lists: seq<seq<Row>>) {
    sel.SortedRange? ==> forall l :: 0 <= l < |lists| ==> SortedIds(lists[l])
  }

  // ---- what a scan means ----

  /** The distances of the rows that pass the selector, in order. */
  function Passing(sel: Selector, rows: seq<Row>): (s: seq<real>)
    ensures |s| <= |rows|
  {
    if rows == [] then []
    else
      var n := |rows| - 1;
      Passing(sel, rows[..n]) + if IsMember(sel, rows[n].id) then [rows[n].dis] else []
  }

  function Clip(rows: seq<Row>, max: nat): (r: seq<Row>)
    ensures |r| <= max
  {
    if |rows| <= max then rows else rows[..max]
  }

  function RowsOf(lists: seq<seq<Row>>, key: int): seq<Row> {
    if 0 <= key < |lists| then lists[key] else []
  }

  /** Every passing row of the probed lists. */
  function Candidates(lists: seq<seq<Row>>, keys: seq<int>, sel: Selector): seq<real> {
    if keys == [] then []
    else Candidates(lists, keys[..|keys| - 1], sel) + Passing(sel, RowsOf(lists, keys[|keys| - 1]))
  }

  /** With a hard budget, each list is cut at what the earlier lists have left. */
  function Scanned(lists: seq<seq<Row>>, keys: seq<int>, sel: Selector, budget: nat): (s: seq<real>)
    ensures |s| <= budget
  {
    if keys == [] then []
    else
      var s := Scanned(lists, keys[..|keys| - 1], sel, budget);
      s + Passing(sel, Clip(RowsOf(lists, keys[|keys| - 1]), budget - |s|))
  }

  function TotalRows(lists: seq<seq<Row>>, keys: seq<int>): nat {
    if keys == [] then 0 else TotalRows(lists, keys[..|keys| - 1]) + |RowsOf(lists, keys[|keys| - 1])|
  }

  lemma PassingNext(sel: Selector, rows: seq<Row>, j: nat)
    requires j < |rows|
    ensures Passing(sel, rows[..j + 1])
            == Passing(sel, rows[..j]) + if IsMember(sel, rows[j].id) then [rows[j].dis] else []
  {
    assert rows[..j + 1][..j] == rows[..j];
  }

  lemma CandidatesNext(lists: seq<seq<Row>>, keys: seq<int>, sel: Selector, ik: nat)
    requires ik < |keys|
    ensures Candidates(lists, keys[..ik + 1], sel)
            == Candidates(lists, keys[..ik], sel) + Passing(sel, RowsOf(lists, keys[ik]))
  {
    assert keys[..ik + 1][..ik] == keys[..ik];
  }

  lemma ScannedNext(lists: seq<seq<Row>>, keys: seq<int>, sel: Selector, budget: nat, ik: nat, left: nat)
    requires ik < |keys| && left + |Scanned(lists, keys[..ik], sel, budget)| == budget
    ensures Scanned(lists, keys[..ik + 1], sel, budget)
            == Scanned(lists, keys[..ik], sel, budget) + Passing(sel, Clip(RowsOf(lists, keys[ik]), left))
  {
    assert keys[..ik + 1][..ik] == keys[..ik];
  }

  lemma {:induction false} PassingConcat(sel: Selector, a: seq<Row>, b: seq<Row>)
    ensures Passing(sel, a + b) == Passing(sel, a) + Passing(sel, b)
  {
    if b == [] {
      assert a + b == a;
    } else {
      var front, row := b[..|b| - 1], b[|b| - 1];
      PassingConcat(sel, a, front);
      LastApart(a, b, front, row);
      PassingLast(sel, b, front, row);
      PassingLast(sel, a + b, a + front, row);
    }
  }

  lemma PassingLast(sel: Selector, rows: seq<Row>, front: seq<Row>, row: Row)
    requires rows == front + [row]
    ensures Passing(sel, rows) == Passing(sel, front) + if IsMember(sel, row.id) then [row.dis] else []
  {
    assert rows[..|rows| - 1] == front;
  }

  lemma {:induction false} PassingAll(rows: seq<Row>)
    ensures |Passing(All, rows)| == |rows|
    ensures forall i :: 0 <= i < |rows| ==> Passing(All, rows)[i] == rows[i].dis
  {
    if rows != [] {
      PassingAll(rows[..|rows| - 1]);
    }
  }

  /** Rows that all pass, or none of which passes. */
  lemma {:induction false} PassingUniform(sel: Selector, rows: seq<Row>, all: bool)
    requires forall i :: 0 <= i < |rows| ==> IsMember(sel, rows[i].id) == all
    ensures Passing(sel, rows) == if all then Passing(All, rows) else []
  {
    if rows != [] {
      PassingUniform(sel, rows[..|rows| - 1], all);
    }
  }

  /** Without a selector, a hard budget scans exactly the first rows of the probed
      lists, as many as the budget allows. */
  lemma {:induction false} HardBudgetIsPrefix(lists: seq<seq<Row>>, keys: seq<int>, budget: nat)
    ensures Scanned(lists, keys, All, budget) == Prefix(Candidates(lists, keys, All), budget)
  {
    if keys != [] {
      var front, rows := keys[..|keys| - 1], RowsOf(lists, keys[|keys| - 1]);
      HardBudgetIsPrefix(lists, front, budget);
      var left := budget - |Scanned(lists, front, All, budget)|;
      PassingClip(rows, left);
      PrefixOfSum(Candidates(lists, front, All), Passing(All, rows), budget);
    }
  }

  function Prefix(s: seq<real>, n: nat): seq<real> {
    if |s| <= n then s else s[..n]
  }

  lemma PassingClip(rows: seq<Row>, max: nat)
    ensures Passing(All, Clip(rows, max)) == Prefix(Passing(All, rows), max)
  {
    PassingAll(rows);
    PassingAll(Clip(rows, max));
  }

  lemma PrefixOfSum(a: seq<real>, b: seq<real>, n: nat)
    ensures |Prefix(a, n)| <= n
    ensures Prefix(a + b, n) == Prefix(a, n) + Prefix(b, n - |Prefix(a, n)|)
  {
  }

  /** A budget that covers all rows of the probed lists does not cut anything. */
  lemma {:induction false} LargeBudget(lists: seq<seq<Row>>, keys: seq<int>, sel: Selector, budget: nat)
    requires TotalRows(lists, keys) <= budget
    ensures Scanned(lists, keys, sel, budget) == Candidates(lists, keys, sel)
    ensures |Candidates(lists, keys, sel)| <= TotalRows(lists, keys)
  {
    if keys != [] {
      LargeBudget(lists, keys[..|keys| - 1], sel, budget);
    }
  }

  lemma {:induction false} CandidatesGrow(lists: seq<seq<Row>>, keys: seq<int>, sel: Selector, n: nat)
    requires n <= |keys|
    ensures |Candidates(lists, keys[..n], sel)| <= |Candidates(lists, keys, sel)|
  {
    if n == |keys| {
      assert keys[..n] == keys;
    } else {
      CandidatesGrow(lists, keys[..|keys| - 1], sel, n);
      assert keys[..|keys| - 1][..n] == keys[..n];
    }
  }

  /** Once the budget is used up, the remaining probes add nothing. */
  lemma {:induction false} ExhaustedBudget(lists: seq<seq<Row>>, keys: seq<int>, sel: Selector, budget: nat, n: nat)
    requires n <= |keys| && |Scanned(lists, keys[..n], sel, budget)| == budget
    ensures Scanned(lists, keys, sel, budget) == Scanned(lists, keys[..n], sel, budget)
  {
    if n == |keys| {
      assert keys[..n] == keys;
    } else {
      assert keys[..|keys| - 1][..n] == keys[..n];
      ExhaustedBudget(lists, keys[..|keys| - 1], sel, budget, n);
    }
  }

  // ---- the scan of one list ----

  /** Bisection for the rows of a sorted id range. */
  method SortedBounds(rows: seq<Row>, imin: int, imax: int) returns (jmin: nat, jmax: nat)
    requires SortedIds(rows)
    ensures jmin <= jmax <= |rows|
    ensures forall j :: 0 <= j < |rows| ==> (jmin <= j < jmax <==> imin <= rows[j].id < imax)
  {
    var n := |rows|;
    if n == 0 || imax <= rows[0].id || imin > rows[n - 1].id {
      return 0, 0;
    }
    if rows[0].id >= imin {
      jmin := 0;
    } else {
      jmin := Bisect(rows, imin, 0);
    }
    if jmin == n || rows[jmin].id >= imax {
      jmax := jmin;
    } else {
      jmax := Bisect(rows, imax, jmin);
    }
  }

  /** The first row from j0 on whose id reaches the bound. */
  method Bisect(rows: seq<Row>, bound: int, start: nat) returns (j: nat)
    requires SortedIds(rows) && start < |rows| && rows[start].id < bound
    ensures start < j <= |rows| && rows[j - 1].id < bound && (j < |rows| ==> rows[j].id >= bound)
  {
    var j0 := start;
    j := |rows|;
    while j > j0 + 1
      invariant start <= j0 < j <= |rows| && rows[j0].id < bound && (j < |rows| ==> rows[j].id >= bound)
    {
      var jmed := (j0 + j) / 2;
      if rows[jmed].id >= bound {
        j := jmed;
      } else {
        j0 := jmed;
      }
    }
  }

  /** Offer the selected rows to the heap and count them. */
  method ScanCodes(rows: seq<Row>, sel: Selector, k: nat, heap: seq<real>, ghost before: seq<real>)
    returns (heap': seq<real>, scanned: nat)
    requires k > 0 && heap == Best(k, before)
    ensures heap' == Best(k, before + Passing(sel, rows)) && scanned == |Passing(sel, rows)|
  {
    heap', scanned := heap, 0;
    assert before + [] == before;
    for j := 0 to |rows|
      invariant heap' == Best(k, before + Passing(sel, rows[..j])) && scanned == |Passing(sel, rows[..j])|
    {
      PassingNext(sel, rows, j);
      if IsMember(sel, rows[j].id) {
        PushBest(k, before + Passing(sel, rows[..j]), rows[j].dis);
        assert before + Passing(sel, rows[..j]) + [rows[j].dis] == before + Passing(sel, rows[..j + 1]);
        heap' := Push(k, heap', rows[j].dis);
        scanned := scanned + 1;
      } else {
        assert Passing(sel, rows[..j + 1]) == Passing(sel, rows[..j]);
      }
    }
    assert rows[..|rows|] == rows;
  }

  /** The list is cut to its allowed size first, then restricted to the id range. */
  method ScanOneList(lists: seq<seq<Row>>, key: int, sel: Selector, k: nat, heap: seq<real>, listSizeMax: nat,
                     ghost before: seq<real>)
    returns (thrown: bool, heap': seq<real>, scanned: nat)
    requires k > 0 && heap == Best(k, before) && Admissible(sel, lists)
    ensures thrown <==> key >= |lists|
    ensures heap' == Best(k, before + Passing(sel, Clip(RowsOf(lists, key), listSizeMax)))
    ensures scanned == |Passing(sel, Clip(RowsOf(lists, key), listSizeMax))|
  {
    thrown, heap', scanned := false, heap, 0;
    assert before + [] == before;
    if key < 0 {
      return;
    }
    if key >= |lists| {
      thrown := true;
      return;
    }
    if lists[key] == [] {
      return;
    }
    var rows := Clip(lists[key], listSizeMax);
    if sel.SortedRange? {
      assert SortedIds(lists[key]);
      var jmin, jmax := SortedBounds(rows, sel.imin, sel.imax);
      RangeOnly(rows, sel, jmin, jmax);
      if jmax == jmin {
        return;
      }
      heap', scanned := ScanCodes(rows[jmin..jmax], All, k, heap, before);
    } else {
      heap', scanned := ScanCodes(rows, sel, k, heap, before);
    }
  }

  lemma RangeOnly(rows: seq<Row>, sel: Selector, jmin: nat, jmax: nat)
    requires sel.SortedRange? && jmin <= jmax <= |rows|
    requires forall j :: 0 <= j < |rows| ==> (jmin <= j < jmax <==> sel.imin <= rows[j].id < sel.imax)
    ensures Passing(sel, rows) == Passing(All, rows[jmin..jmax])
  {
    WithinOnly(sel, rows[..jmin], rows[jmin..jmax], rows[jmax..]);
    assert rows == rows[..jmin] + rows[jmin..jmax] + rows[jmax..];
  }

  lemma WithinOnly(sel: Selector, below: seq<Row>, within: seq<Row>, above: seq<Row>)
    requires forall j :: 0 <= j < |below| ==> !IsMember(sel, below[j].id)
    requires forall j :: 0 <= j < |within| ==> IsMember(sel, within[j].id)
    requires forall j :: 0 <= j < |above| ==> !IsMember(sel, above[j].id)
    ensures Passing(sel, below + within + above) == Passing(All, within)
  {
    PassingConcat(sel, below + within, above);
    PassingConcat(sel, below, within);
    PassingUniform(sel, below, false);
    PassingUniform(sel, within, true);
    PassingUniform(sel, above, false);
  }

  // ---- the probe loop ----

  /** Before the last visited probe, the budget had not been reached. */
  ghost predicate StopsAtOnce(lists: seq<seq<Row>>, keys: seq<int>, sel: Selector, budget: nat, visited: nat)
    requires visited <= |keys|
  {
    visited == 0 || |Candidates(lists, keys[..visited - 1], sel)| < budget
  }

  ghost predicate ValidKeys(keys: seq<int>, n: nat, nlist: nat)
    requires n <= |keys|
  {
    forall ik :: 0 <= ik < n ==> keys[ik] < nlist
  }

  /** The first n probes are scanned under a hard budget. */
  ghost predicate HardState(lists: seq<seq<Row>>, keys: seq<int>, sel: Selector, k: nat, budget: nat, n: nat,
                            heap: seq<real>, nscan: nat)
    requires n <= |keys|
  {
    var s := Scanned(lists, keys[..n], sel, budget);
    ValidKeys(keys, n, |lists|) && nscan == |s| && heap == Best(k, s)
  }

  /** One probe under a hard budget. */
  method ProbeHard(lists: seq<seq<Row>>, keys: seq<int>, sel: Selector, k: nat, budget: nat, ik: nat, ghost next: nat,
                   heap: seq<real>, nscan: nat)
    returns (thrown: bool, heap': seq<real>, nscan': nat)
    requires k > 0 && Admissible(sel, lists) && ik < |keys| && next == ik + 1
    requires HardState(lists, keys, sel, k, budget, ik, heap, nscan)
    ensures thrown <==> keys[ik] >= |lists|
    ensures !thrown ==> HardState(lists, keys, sel, k, budget, next, heap', nscan')
  {
    var left := budget - nscan;
    ScannedNext(lists, keys, sel, budget, ik, left);
    var found;
    thrown, heap', found := ScanOneList(lists, keys[ik], sel, k, heap, left, Scanned(lists, keys[..ik], sel, budget));
    nscan' := nscan + found;
  }

  /** One probe under a soft budget. */
  method ProbeSoft(lists: seq<seq<Row>>, keys: seq<int>, sel: Selector, k: nat, ik: nat, heap: seq<real>, nscan: nat)
    returns (thrown: bool, heap': seq<real>, nscan': nat)
    requires k > 0 && Admissible(sel, lists) && ik < |keys|
    requires forall l :: 0 <= l < |lists| ==> |lists[l]| <= UNLIMITED
    requires nscan == |Candidates(lists, keys[..ik], sel)|
    requires heap == Best(k, Candidates(lists, keys[..ik], sel))
    ensures thrown <==> keys[ik] >= |lists|
    ensures nscan' == |Candidates(lists, keys[..ik + 1], sel)|
    ensures heap' == Best(k, Candidates(lists, keys[..ik + 1], sel))
  {
    CandidatesNext(lists, keys, sel, ik);
    var found;
    thrown, heap', found := ScanOneList(lists, keys[ik], sel, k, heap, UNLIMITED, Candidates(lists, keys[..ik], sel));
    nscan' := nscan + found;
  }

  // ---- without selector and budget: the plain scan ----

  function DistanceLists(lists: seq<seq<Row>>): (dis: IvfSearch.Lists)
    ensures |dis| == |lists|
  {
    seq(|lists|, l requires 0 <= l < |lists| => Distances(lists[l]))
  }

  lemma {:induction false} CandidatesCollected(lists: seq<seq<Row>>, keys: seq<int>, n: nat, order: seq<nat>)
    requires n <= |keys| && order == Permutations.Identity(n)
    ensures forall i :: 0 <= i < |order| ==> order[i] < |keys|
    ensures Candidates(lists, keys[..n], All) == IvfSearch.Collected(DistanceLists(lists), keys, order)
  {
    if n > 0 {
      var front := Permutations.Identity(n - 1);
      CandidatesCollected(lists, keys, n - 1, front);
      CandidatesNext(lists, keys, All, n - 1);
      FoundRows(lists, keys[n - 1]);
      IvfSearch.CollectedNext(DistanceLists(lists), keys, front, n - 1, order);
    }
  }

  lemma FoundRows(lists: seq<seq<Row>>, key: int)
    ensures Passing(All, RowsOf(lists, key)) == IvfSearch.Offered(DistanceLists(lists), key)
  {
    PassingAll(RowsOf(lists, key));
  }

  /** Without selector and budget the rows scanned are those of the plain search. */
  lemma UnlimitedIsPlain(lists: seq<seq<Row>>, keys: seq<int>, k: nat)
    requires TotalRows(lists, keys) <= UNLIMITED
    ensures Best(k, Scanned(lists, keys, All, UNLIMITED)) == IvfSearch.Answer(DistanceLists(lists), keys, k)
  {
    LargeBudget(lists, keys, All, UNLIMITED);
    CandidatesCollected(lists, keys, |keys|, Permutations.Identity(|keys|));
    assert keys[..|keys|] == keys;
  }

  /** The search without selector and budget is the plain search. */
  method SearchUnlimited(lists: seq<seq<Row>>, keys: seq<int>, k: nat) returns (thrown: bool, heap: seq<real>, nscan: nat)
    requires k > 0 && TotalRows(lists, keys) < UNLIMITED
    ensures thrown <==> IvfSearch.Invalid(keys, |lists|)
    ensures !thrown ==> heap == IvfSearch.Answer(DistanceLists(lists), keys, k) && nscan == TotalRows(lists, keys)
  {
    ghost var visited;
    thrown, heap, nscan, visited := SearchHard(lists, keys, All, k, 0);
    UnlimitedIsPlain(lists, keys, k);
    LargeBudget(lists, keys, All, UNLIMITED);
    AllCandidates(lists, keys);
  }

  lemma {:induction false} AllCandidates(lists: seq<seq<Row>>, keys: seq<int>)
    ensures |Candidates(lists, keys, All)| == TotalRows(lists, keys)
  {
    if keys != [] {
      AllCandidates(lists, keys[..|keys| - 1]);
      PassingAll(RowsOf(lists, keys[|keys| - 1]));
    }
  }

  /** A hard budget, unlimited if max_codes is zero: each list is cut at what the lists before it have
      left, until nothing is left.  Without a selector the answer is the k best of exactly
      the first max_codes rows of the probed lists. */
  method SearchHard(lists: seq<seq<Row>>, keys: seq<int>, sel: Selector, k: nat, maxCodes: nat)
    returns (thrown: bool, heap: seq<real>, nscan: nat, ghost visited: nat)
    requires k > 0 && Admissible(sel, lists)
    ensures visited <= |keys| && ValidKeys(keys, visited, |lists|)
    ensures maxCodes > 0 ==> nscan <= maxCodes
    // it goes on exactly while there is a probe and the budget is not used up
    ensures thrown <==> visited < |keys| && nscan < (if maxCodes == 0 then UNLIMITED else maxCodes)
                        && keys[visited] >= |lists|
    ensures !thrown ==> visited == |keys| || nscan == if maxCodes == 0 then UNLIMITED else maxCodes
    ensures nscan == |Scanned(lists, keys[..visited], sel, if maxCodes == 0 then UNLIMITED else maxCodes)|
    ensures heap == Best(k, Scanned(lists, keys[..visited], sel, if maxCodes == 0 then UNLIMITED else maxCodes))
    // the probes that are not visited would add nothing
    ensures !thrown ==>
              var all := Scanned(lists, keys, sel, if maxCodes == 0 then UNLIMITED else maxCodes);
              nscan == |all| && heap == Best(k, all)
    ensures !thrown && sel == All && maxCodes > 0 ==>
              && nscan == Min(maxCodes, TotalRows(lists, keys))
              && heap == Best(k, Prefix(Candidates(lists, keys, All), maxCodes))
  {
    var budget := if maxCodes == 0 then UNLIMITED else maxCodes;
    thrown, heap, nscan, visited := ProbeUntilSpent(lists, keys, sel, k, budget);
    if !thrown {
      SpentOrDone(lists, keys, sel, budget, visited);
      HardBudgetIsPrefix(lists, keys, budget);
      AllCandidates(lists, keys);
    }
  }

  lemma SpentOrDone(lists: seq<seq<Row>>, keys: seq<int>, sel: Selector, budget: nat, n: nat)
    requires n <= |keys| && (n == |keys| || |Scanned(lists, keys[..n], sel, budget)| == budget)
    ensures Scanned(lists, keys, sel, budget) == Scanned(lists, keys[..n], sel, budget)
  {
    if n == |keys| {
      assert keys[..n] == keys;
    } else {
      ExhaustedBudget(lists, keys, sel, budget, n);
    }
  }

  method ProbeUntilSpent(lists: seq<seq<Row>>, keys: seq<int>, sel: Selector, k: nat, budget: nat)
    returns (thrown: bool, heap: seq<real>, nscan: nat, ghost visited: nat)
    requires k > 0 && Admissible(sel, lists) && budget > 0
    ensures visited <= |keys|
    ensures thrown <==> visited < |keys| && nscan < budget && keys[visited] >= |lists|
    ensures !thrown ==> visited == |keys| || nscan >= budget
    ensures HardState(lists, keys, sel, k, budget, visited, heap, nscan)
  {
    heap, nscan := [], 0;
    var ik := 0;
    while ik < |keys|
      invariant 0 <= ik <= |keys| && nscan < budget
      invariant HardState(lists, keys, sel, k, budget, ik, heap, nscan)
    {
      var bad, next, count := ProbeHard(lists, keys, sel, k, budget, ik, ik + 1, heap, nscan);
      if bad {
        return true, heap, nscan, ik;
      }
      heap, nscan, ik := next, count, ik + 1;
      if nscan >= budget {
        return false, heap, nscan, ik;
      }
    }
    thrown, visited := false, ik;
  }

  /** A soft budget: whole lists are scanned up to the first one whose end reaches both max_codes
      (the unlimited size if that is zero) and k, so the result is as full as the passing
      candidates allow. */
  method SearchSoft(lists: seq<seq<Row>>, keys: seq<int>, sel: Selector, k: nat, maxCodes: nat)
    returns (thrown: bool, heap: seq<real>, nscan: nat, visited: nat)
    requires k > 0 && Admissible(sel, lists)
    requires forall l :: 0 <= l < |lists| ==> |lists[l]| <= UNLIMITED
    ensures visited <= |keys| && ValidKeys(keys, visited, |lists|)
    ensures nscan == |Candidates(lists, keys[..visited], sel)|
    ensures heap == Best(k, Candidates(lists, keys[..visited], sel))
    // one list less would not have been enough
    ensures visited > 0 ==>
              var before := |Candidates(lists, keys[..visited - 1], sel)|;
              before < k || before < if maxCodes == 0 then UNLIMITED else maxCodes
    ensures thrown <==> visited < |keys| && keys[visited] >= |lists|
                        && (nscan < k || nscan < if maxCodes == 0 then UNLIMITED else maxCodes)
    ensures !thrown && visited < |keys| ==> nscan >= k && nscan >= if maxCodes == 0 then UNLIMITED else maxCodes
    ensures !thrown ==> nscan >= Min(k, |Candidates(lists, keys, sel)|)
    ensures !thrown ==> |heap| == Min(k, |Candidates(lists, keys, sel)|)
  {
    var limit := if maxCodes == 0 then UNLIMITED else maxCodes;
    thrown, heap, nscan, visited := ProbeUntilFull(lists, keys, sel, k, if limit < k then k else limit);
    CandidatesGrow(lists, keys, sel, visited);
    BestMeaning(k, Candidates(lists, keys[..visited], sel));
    assert keys[..|keys|] == keys;
  }

  method ProbeUntilFull(lists: seq<seq<Row>>, keys: seq<int>, sel: Selector, k: nat, budget: nat)
    returns (thrown: bool, heap: seq<real>, nscan: nat, visited: nat)
    requires k > 0 && Admissible(sel, lists) && budget > 0
    requires forall l :: 0 <= l < |lists| ==> |lists[l]| <= UNLIMITED
    ensures visited <= |keys| && ValidKeys(keys, visited, |lists|)
    ensures thrown <==> visited < |keys| && nscan < budget && keys[visited] >= |lists|
    ensures nscan == |Candidates(lists, keys[..visited], sel)|
    ensures heap == Best(k, Candidates(lists, keys[..visited], sel))
    ensures StopsAtOnce(lists, keys, sel, budget, visited)
    ensures !thrown ==> visited == |keys| || nscan >= budget
  {
    heap, nscan, visited := [], 0, 0;
    while visited < |keys|
      invariant visited <= |keys| && ValidKeys(keys, visited, |lists|) && nscan < budget
      invariant nscan == |Candidates(lists, keys[..visited], sel)|
      invariant heap == Best(k, Candidates(lists, keys[..visited], sel))
      invariant StopsAtOnce(lists, keys, sel, budget, visited)
    {
      var bad, next, count := ProbeSoft(lists, keys, sel, k, visited, heap, nscan);
      if bad {
        thrown := true;
        return;
      }
      heap, nscan, visited := next, count, visited + 1;
      if nscan >= budget {
        break;
      }
    }
    thrown := false;
  }
}
