/** Arbitrary ids over a flat store of codes: a list of (id, code) pairs kept in two
    places, and for the second version also a map back from ids to positions.  Removal
    translates a selector on ids into one on positions and compacts both places; the map
    back is rebuilt from the list, or extended by the positions that were added. */
module IdMap {
  import Permutations
  import opened FlatCodes
  import opened Vectors

  datatype Pair = Pair(id: int, code: seq<int>)

  function Zip(ids: seq<int>, records: seq<seq<int>>): (r: seq<Pair>)
    requires |ids| == |records|
    ensures |r| == |ids|
  {
    seq(|ids|, i requires 0 <= i < |ids| => Pair(ids[i], records[i]))
  }

  /** The pairs whose id the selector does not name. */
  function Remaining(pairs: seq<Pair>, sel: int -> bool): seq<Pair> {
    if pairs == [] then []
    else
      var n := |pairs| - 1;
      Remaining(pairs[..n], sel) + if sel(pairs[n].id) then [] else [pairs[n]]
  }

  /** Each pair with an unselected id remains as often as it was there, no other does. */
  lemma {:induction false} RemainingMeaning(pairs: seq<Pair>, sel: int -> bool, p: Pair)
    ensures multiset(Remaining(pairs, sel))[p] == if sel(p.id) then 0 else multiset(pairs)[p]
  {
    if pairs != [] {
      var front, last := pairs[..|pairs| - 1], pairs[|pairs| - 1];
      RemainingMeaning(front, sel, p);
      assert pairs == front + [last];
      RemainingLast(front, last, sel);
    }
  }

  /** The selector that a wrapper hands to its sub-index: by position, not by id. */
  function Translated(ids: seq<int>, sel: int -> bool): int -> bool {
    i => 0 <= i < |ids| && sel(ids[i])
  }

  lemma ZipLast(ids: seq<int>, records: seq<seq<int>>, id: int, record: seq<int>)
    requires |ids| == |records|
    ensures Zip(ids + [id], records + [record]) == Zip(ids, records) + [Pair(id, record)]
  {
  }

  lemma RemainingLast(pairs: seq<Pair>, p: Pair, sel: int -> bool)
    ensures Remaining(pairs + [p], sel) == Remaining(pairs, sel) + if sel(p.id) then [] else [p]
  {
    assert (pairs + [p])[..|pairs|] == pairs;
  }

  lemma Longer<T>(s: seq<T>, n: nat, next: nat)
    requires n < |s| && next == n + 1
    ensures s[..next] == s[..n] + [s[n]]
  {
  }

  /** Compacting ids and codes separately leaves exactly the remaining pairs. */
  lemma {:induction false} CompactTogether(ids: seq<int>, records: seq<seq<int>>, n: nat, sel: int -> bool)
    requires n <= |ids| == |records|
    ensures |Kept(ids[..n], Translated(ids, sel))| == |Kept(records[..n], Translated(ids, sel))|
    ensures Zip(Kept(ids[..n], Translated(ids, sel)), Kept(records[..n], Translated(ids, sel)))
            == Remaining(Zip(ids[..n], records[..n]), sel)
  {
    if n > 0 {
      var m, gone := n - 1, Translated(ids, sel);
      CompactTogether(ids, records, m, sel);
      KeptNext(ids, gone, m);
      KeptNext(records, gone, m);
      Longer(ids, m, n);
      Longer(records, m, n);
      ZipLast(ids[..m], records[..m], ids[m], records[m]);
      RemainingLast(Zip(ids[..m], records[..m]), Pair(ids[m], records[m]), sel);
      if !gone(m) {
        ZipLast(Kept(ids[..m], gone), Kept(records[..m], gone), ids[m], records[m]);
      }
    }
  }

  function Shifted(pairs: seq<Pair>, addId: int): (r: seq<Pair>)
    ensures |r| == |pairs| && forall i :: 0 <= i < |r| ==> r[i] == Pair(pairs[i].id + addId, pairs[i].code)
  {
    seq(|pairs|, i requires 0 <= i < |pairs| => Pair(pairs[i].id + addId, pairs[i].code))
  }

  // ---- ids to positions ----

  /** Each id with the last position that holds it. */
  function LastPositions(ids: seq<int>): (m: map<int, nat>)
    ensures forall id :: id in m <==> id in ids
    ensures forall id :: id in m ==> m[id] < |ids| && ids[m[id]] == id
  {
    if ids == [] then map[]
    else LastPositions(ids[..|ids| - 1])[ids[|ids| - 1] := |ids| - 1]
  }

  /** No later position holds the same id. */
  lemma {:induction false} LastIsLast(ids: seq<int>, p: nat)
    requires p < |ids|
    ensures p <= LastPositions(ids)[ids[p]]
  {
    if p < |ids| - 1 {
      LastIsLast(ids[..|ids| - 1], p);
    }
  }

  /** The map is the inverse of the list exactly when no id is repeated. */
  lemma InverseIffDistinct(ids: seq<int>)
    ensures (forall p :: 0 <= p < |ids| ==> LastPositions(ids)[ids[p]] == p) <==> Permutations.Distinct(ids)
  {
    if Permutations.Distinct(ids) {
      forall p | 0 <= p < |ids| ensures LastPositions(ids)[ids[p]] == p {
        LastIsLast(ids, p);
      }
    }
  }

  lemma {:induction false} SizeWhenDistinct(ids: seq<int>)
    requires Permutations.Distinct(ids)
    ensures |LastPositions(ids)| == |ids|
  {
    if ids != [] {
      SizeWhenDistinct(ids[..|ids| - 1]);
    }
  }

  /** m records the first n positions. */
  ghost predicate Records(m: map<int, nat>, ids: seq<int>, n: nat) {
    n <= |ids| && m == LastPositions(ids[..n])
  }

  lemma RecordsNext(m: map<int, nat>, ids: seq<int>, i: nat, next: nat)
    requires Records(m, ids, i) && i < |ids| && next == i + 1
    ensures Records(m[ids[i] := i], ids, next)
  {
    assert ids[..next][..i] == ids[..i];
  }

  // ---- the wrapper ----

  class IndexIDMap {
    const index: IndexFlatCodes
    var idMap: seq<int>
    var ntotal: nat

    ghost predicate Valid()
      reads this, index
    {
      index.Valid() && |idMap| == ntotal == index.ntotal
    }

    /** What the wrapper stands for. */
    ghost function Pairs(): seq<Pair>
      requires Valid()
      reads this, index
    {
      Zip(idMap, index.records)
    }

    constructor (index: IndexFlatCodes)
      requires index.Valid() && index.ntotal == 0
      ensures Valid() && Pairs() == [] && this.index == index
    {
      this.index, idMap, ntotal := index, [], 0;
    }

    /** Adding codes under given ids; vectors are encoded before they get here. */
    method AddSaCodes(n: nat, bytes: seq<int>, xids: seq<int>, ghost more: seq<seq<int>>)
      requires Valid() && n == |more| == |xids| && Uniform(more, index.codeSize) && bytes == Join(more)
      modifies this, index
      ensures Valid() && Pairs() == old(Pairs()) + Zip(xids, more)
      ensures idMap == old(idMap) + xids
    {
      index.AddSaCodes(n, bytes, more);
      for i := 0 to n
        invariant idMap == old(idMap) + xids[..i]
        invariant index.Valid() && index.records == old(index.records) + more
      {
        idMap := idMap + [xids[i]];
      }
      ntotal := index.ntotal;
    }

    /** Removal by id: the sub-index compacts by position, the ids by themselves, and
        both end with the same number of elements. */
    method RemoveIds(sel: int -> bool) returns (nremove: nat)
      requires Valid()
      modifies this, index
      ensures Valid() && Pairs() == Remaining(old(Pairs()), sel)
      ensures idMap == Kept(old(idMap), Translated(old(idMap), sel))
      ensures nremove == |old(idMap)| - |idMap|
    {
      ghost var ids := idMap;
      var gone := Translated(idMap, sel);
      nremove := index.RemoveIds(gone);
      var n := ntotal;
      var j := 0;
      for i := 0 to n
        invariant n == |idMap| == |ids| && ntotal == n && j <= i
        invariant Compacted(idMap, ids, gone, i, j)
        invariant index.Valid() && index.records == Kept(old(index.records), gone)
      {
        CompactStep(idMap, ids, gone, i, j);
        assert gone(i) == sel(idMap[i]);
        if sel(idMap[i]) {
        } else {
          idMap := idMap[j := idMap[i]];
          j := j + 1;
        }
      }
      ghost var records := old(index.records);
      assert ids[..n] == ids && records[..n] == records;
      CompactTogether(ids, records, n, sel);
      assert j == index.ntotal;
      ntotal := j;
      idMap := idMap[..ntotal];
    }

    /** Append the pairs of another wrapper, with shifted ids, and empty it. */
    method MergeFrom(other: IndexIDMap, addId: int) returns (thrown: bool)
      requires Valid() && other.Valid() && other != this && other.index != index
      modifies this, index, other, other.index
      ensures Valid() && other.Valid()
      ensures thrown <==> other.index.codeSize != index.codeSize
      ensures thrown ==> Pairs() == old(Pairs()) && other.Pairs() == old(other.Pairs())
      ensures thrown ==> idMap == old(idMap) && other.idMap == old(other.idMap)
      ensures !thrown ==> Pairs() == old(Pairs()) + Shifted(old(other.Pairs()), addId) && other.Pairs() == []
      ensures !thrown ==> idMap == old(idMap) + AddTo(old(other.idMap), addId) && other.idMap == []
    {
      if other.index.codeSize != index.codeSize {
        return true;
      }
      var bad := index.MergeFrom(other.index, 0);
      for i := 0 to |other.idMap|
        invariant other.idMap == old(other.idMap)
        invariant idMap == old(idMap) + AddTo(old(other.idMap), addId)[..i]
        invariant index.Valid() && other.index.Valid() && other.index.records == []
        invariant index.records == old(index.records) + old(other.index.records)
      {
        idMap := idMap + [other.idMap[i] + addId];
      }
      ghost var more, records := AddTo(other.idMap, addId), old(other.index.records);
      assert more[..|more|] == more;
      assert Zip(more, records) == Shifted(old(other.Pairs()), addId);
      other.idMap := [];
      ntotal := index.ntotal;
      other.ntotal := 0;
      return false;
    }

    method Reset()
      requires index.Valid()
      modifies this, index
      ensures Valid() && Pairs() == []
    {
      index.Reset();
      idMap := [];
      ntotal := 0;
    }
  }

  function AddTo(ids: seq<int>, addId: int): (r: seq<int>)
    ensures |r| == |ids| && forall i :: 0 <= i < |r| ==> r[i] == ids[i] + addId
  {
    seq(|ids|, i requires 0 <= i < |ids| => ids[i] + addId)
  }

  // ---- the wrapper with a reverse map ----

  ghost predicate Consistent(ids: seq<int>, ntotal: nat, rev: map<int, nat>) {
    && |rev| == |ids| == ntotal
    && forall p :: 0 <= p < |ids| ==> ids[p] in rev && rev[ids[p]] == p
  }

  /** The self-check accepts exactly the lists without repeated ids. */
  lemma ConsistentIffDistinct(ids: seq<int>)
    ensures Consistent(ids, |ids|, LastPositions(ids)) <==> Permutations.Distinct(ids)
  {
    InverseIffDistinct(ids);
    if Permutations.Distinct(ids) {
      SizeWhenDistinct(ids);
    }
  }

  class IndexIDMap2 {
    const base: IndexIDMap
    var revMap: map<int, nat>

    ghost predicate Valid()
      reads this, base, base.index
    {
      base.Valid() && revMap == LastPositions(base.idMap)
    }

    constructor (index: IndexFlatCodes)
      requires index.Valid() && index.ntotal == 0
      ensures Valid() && base.Pairs() == [] && base.index == index && fresh(base)
    {
      base := new IndexIDMap(index);
      revMap := map[];
    }

    /** Record the positions from `start` on. */
    method ExtendRevMap(start: nat)
      requires base.Valid() && start <= base.ntotal && revMap == LastPositions(base.idMap[..start])
      modifies this
      ensures Valid()
    {
      revMap := Recorded(revMap, base.idMap, start, base.ntotal);
      assert base.idMap[..base.ntotal] == base.idMap;
    }

    static method Recorded(before: map<int, nat>, ids: seq<int>, start: nat, n: nat) returns (revMap: map<int, nat>)
      requires start <= n == |ids| && Records(before, ids, start)
      ensures Records(revMap, ids, n)
    {
      revMap := before;
      for i := start to n
        invariant Records(revMap, ids, i)
      {
        RecordsNext(revMap, ids, i, i + 1);
        revMap := revMap[ids[i] := i];
      }
    }

    method ConstructRevMap()
      requires base.Valid()
      modifies this
      ensures Valid()
    {
      revMap := map[];
      ExtendRevMap(0);
    }

    method AddSaCodes(n: nat, bytes: seq<int>, xids: seq<int>, ghost more: seq<seq<int>>)
      requires Valid() && n == |more| == |xids| && Uniform(more, base.index.codeSize) && bytes == Join(more)
      modifies this, base, base.index
      ensures Valid() && base.Pairs() == old(base.Pairs()) + Zip(xids, more)
    {
      var before := base.ntotal;
      base.AddSaCodes(n, bytes, xids, more);
      assert base.idMap[..before] == old(base.idMap);
      ExtendRevMap(before);
    }

    method RemoveIds(sel: int -> bool) returns (nremove: nat)
      requires Valid()
      modifies this, base, base.index
      ensures Valid() && base.Pairs() == Remaining(old(base.Pairs()), sel)
      ensures nremove == |old(base.Pairs())| - |base.Pairs()|
    {
      nremove := base.RemoveIds(sel);
      ConstructRevMap();
    }

    method MergeFrom(other: IndexIDMap2, addId: int) returns (thrown: bool)
      requires Valid() && other.Valid() && other != this && other.base != base && other.base.index != base.index
      modifies this, base, base.index, other, other.base, other.base.index
      ensures Valid() && other.Valid()
      ensures thrown <==> other.base.index.codeSize != base.index.codeSize
      ensures thrown ==> base.Pairs() == old(base.Pairs()) && other.base.Pairs() == old(other.base.Pairs())
      ensures !thrown ==> base.Pairs() == old(base.Pairs()) + Shifted(old(other.base.Pairs()), addId)
      ensures !thrown ==> other.base.Pairs() == []
    {
      var before := base.ntotal;
      thrown := base.MergeFrom(other.base, addId);
      if thrown {
        return;
      }
      assert base.idMap[..before] == old(base.idMap);
      ExtendRevMap(before);
      other.revMap := map[];
    }

    /** The self-check, in any state of the three fields. */
    method CheckConsistency() returns (thrown: bool)
      ensures thrown <==> !(|revMap| == |base.idMap| == base.ntotal
                            && forall p :: 0 <= p < |base.idMap| ==>
                                 base.idMap[p] in revMap && revMap[base.idMap[p]] == p)
      ensures thrown <==> !Consistent(base.idMap, base.ntotal, revMap)
    {
      if |revMap| != |base.idMap| || |base.idMap| != base.ntotal {
        return true;
      }
      for i := 0 to base.ntotal
        invariant forall p :: 0 <= p < i ==> base.idMap[p] in revMap && revMap[base.idMap[p]] == p
      {
        if base.idMap[i] !in revMap || revMap[base.idMap[i]] != i {
          return true;
        }
      }
      return false;
    }

    /** The code of an id: the last one stored under it. */
    method Reconstruct(key: int) returns (thrown: bool, code: seq<int>)
      requires Valid()
      ensures thrown <==> key !in base.idMap
      ensures !thrown ==> exists p :: 0 <= p < |base.idMap| && base.Pairs()[p] == Pair(key, code)
                                      && forall q :: p < q < |base.idMap| ==> base.idMap[q] != key
    {
      if key !in revMap {
        return true, [];
      }
      var p := revMap[key];
      thrown, code := base.index.Reconstruct(p);
      assert base.Pairs()[p] == Pair(key, code);
      forall q | p < q < |base.idMap| ensures base.idMap[q] != key {
        LastIsLast(base.idMap, q);
      }
    }

    /** Resetting is inherited from the base, which does not know the reverse map: the
        self-check holds afterwards exactly when there was nothing to reset. */
    method InheritedReset()
      requires Valid()
      modifies base, base.index
      ensures base.Valid() && base.Pairs() == []
      ensures Consistent(base.idMap, base.ntotal, revMap) <==> old(base.idMap) == []
      ensures Valid() <==> old(base.idMap) == []
    {
      assert base.idMap != [] ==> base.idMap[0] in revMap;
      base.Reset();
      assert revMap != map[] ==> |revMap| > 0;
    }
  }
}
