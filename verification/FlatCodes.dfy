/** A flat store of fixed-size codes in one byte vector.

    The store is the sequence of its codes; the byte vector is their concatenation.  A
    removal compacts the bytes in place, front to back, moving each kept code down to the
    next free place; the same loop compacts the ids of the wrappers over the store, so its
    specification is shared.  Merging appends the other store's bytes and empties it. */
module FlatCodes {
  import opened Arithmetic
  import opened Vectors

  // ---- records in a byte vector ----

  ghost predicate Uniform(records: seq<seq<int>>, codeSize: nat) {
    forall i :: 0 <= i < |records| ==> |records[i]| == codeSize
  }

  lemma {:induction false} JoinLength(records: seq<seq<int>>, codeSize: nat)
    requires Uniform(records, codeSize)
    ensures |Join(records)| == |records| * codeSize
  {
    if records != [] {
      JoinLength(records[..|records| - 1], codeSize);
      Distribute(|records| - 1, 1, codeSize);
    }
  }

  /** The vector around the place of record i. */
  lemma JoinSplit(records: seq<seq<int>>, codeSize: nat, i: nat)
    requires Uniform(records, codeSize) && i < |records|
    ensures Join(records) == Join(records[..i]) + records[i] + Join(records[i + 1..])
    ensures 0 <= codeSize * i == |Join(records[..i])| && codeSize * i + codeSize <= |Join(records)|
  {
    assert records == records[..i] + [records[i]] + records[i + 1..];
    JoinConcat(records[..i] + [records[i]], records[i + 1..]);
    JoinConcat(records[..i], [records[i]]);
    JoinOne(records[i]);
    JoinLength(records[..i], codeSize);
  }

  lemma RecordAt(records: seq<seq<int>>, codeSize: nat, i: nat)
    requires Uniform(records, codeSize) && i < |records|
    ensures 0 <= codeSize * i && codeSize * i + codeSize <= |Join(records)|
    ensures Join(records)[codeSize * i..codeSize * i + codeSize] == records[i]
  {
    JoinSplit(records, codeSize, i);
  }

  lemma JoinReplaced(records: seq<seq<int>>, codeSize: nat, j: nat, x: seq<int>)
    requires Uniform(records, codeSize) && j < |records| && |x| == codeSize
    ensures Uniform(records[j := x], codeSize)
    ensures Join(records[j := x]) == Join(records[..j]) + x + Join(records[j + 1..])
  {
    var after := records[j := x];
    assert after[..j] == records[..j] && after[j + 1..] == records[j + 1..];
    JoinSplit(after, codeSize, j);
  }

  lemma MoveBetween(v: seq<int>, a: seq<int>, b: seq<int>, c: seq<int>, x: seq<int>, to: nat, from: nat, n: nat)
    requires v == a + b + c && |a| == to && |b| == n && from + n <= |v| && v[from..from + n] == x
    ensures MemMove(v, to, from, n) == a + x + c
  {
    assert v[..to] == a && v[to + n..] == c;
  }

  /** Copying record i over record j. */
  lemma MoveRecord(records: seq<seq<int>>, codeSize: nat, j: nat, i: nat)
    requires Uniform(records, codeSize) && j < |records| && i < |records|
    ensures 0 <= codeSize * j && codeSize * j + codeSize <= |Join(records)|
    ensures 0 <= codeSize * i && codeSize * i + codeSize <= |Join(records)|
    ensures Uniform(records[j := records[i]], codeSize)
    ensures Join(records[j := records[i]]) == MemMove(Join(records), codeSize * j, codeSize * i, codeSize)
  {
    RecordAt(records, codeSize, i);
    JoinSplit(records, codeSize, j);
    JoinReplaced(records, codeSize, j, records[i]);
    var to, from := codeSize * j, codeSize * i;
    MoveBetween(Join(records), Join(records[..j]), records[j], Join(records[j + 1..]), records[i], to, from, codeSize);
  }

  // ---- compaction ----

  /** The elements whose position the selector does not name, in order. */
  function Kept<T>(s: seq<T>, gone: int -> bool): (r: seq<T>)
    ensures |r| <= |s|
  {
    if s == [] then []
    else
      var n := |s| - 1;
      Kept(s[..n], gone) + if gone(n) then [] else [s[n]]
  }

  /** How many of the first i positions the selector does not name. */
  ghost function Rank(gone: int -> bool, i: nat): nat {
    if i == 0 then 0 else Rank(gone, i - 1) + if gone(i - 1) then 0 else 1
  }

  /** Every element at an unselected position is kept, behind those before it, and nothing else. */
  lemma {:induction false} KeptAt<T>(s: seq<T>, gone: int -> bool, i: nat)
    requires i <= |s|
    ensures |Kept(s, gone)| == Rank(gone, |s|)
    ensures i < |s| && !gone(i) ==> Rank(gone, i) < |Kept(s, gone)| && Kept(s, gone)[Rank(gone, i)] == s[i]
  {
    if s != [] {
      var n := |s| - 1;
      KeptAt(s[..n], gone, if i <= n then i else n);
    }
  }

  lemma KeptNext<T>(s: seq<T>, gone: int -> bool, i: nat)
    requires i < |s|
    ensures Kept(s[..i + 1], gone) == Kept(s[..i], gone) + if gone(i) then [] else [s[i]]
  {
    assert s[..i + 1][..i] == s[..i];
  }

  lemma {:induction false} KeptAll<T>(s: seq<T>, gone: int -> bool)
    requires |Kept(s, gone)| == |s|
    ensures Kept(s, gone) == s
  {
    if s != [] {
      KeptAll(s[..|s| - 1], gone);
    }
  }

  /** The compacting loop has passed i elements and kept j of them. */
  ghost predicate Compacted<T>(v: seq<T>, s: seq<T>, gone: int -> bool, i: nat, j: nat) {
    && j <= i <= |s| == |v|
    && v[..j] == Kept(s[..i], gone)
    && v[i..] == s[i..]
  }

  lemma CompactStep<T>(v: seq<T>, s: seq<T>, gone: int -> bool, i: nat, j: nat)
    requires Compacted(v, s, gone, i, j) && i < |s|
    ensures v[i] == s[i]
    ensures if gone(i) then Compacted(v, s, gone, i + 1, j) else Compacted(v[j := v[i]], s, gone, i + 1, j + 1)
  {
    KeptNext(s, gone, i);
    assert v[i] == v[i..][0];
    if gone(i) {
      assert v[i + 1..] == v[i..][1..];
    } else {
      var v' := v[j := v[i]];
      assert v'[i + 1..] == v[i..][1..];
      assert v'[..j + 1] == v[..j] + [v[i]];
    }
  }

  /** Compaction does not look at the elements: two sequences stay aligned. */
  lemma {:induction false} KeptAligned<S, T>(s: seq<S>, t: seq<T>, gone: int -> bool)
    requires |s| == |t|
    ensures |Kept(s, gone)| == |Kept(t, gone)|
  {
    if s != [] {
      KeptAligned(s[..|s| - 1], t[..|t| - 1], gone);
    }
  }

  /** One move of the compacting loop: nothing to do while nothing was dropped. */
  method MoveDown(codes: seq<int>, codeSize: nat, j: nat, i: nat, ghost records: seq<seq<int>>) returns (r: seq<int>)
    requires Uniform(records, codeSize) && codes == Join(records) && j <= i < |records|
    ensures Uniform(records[j := records[i]], codeSize) && r == Join(records[j := records[i]])
  {
    r := codes;
    MoveRecord(records, codeSize, j, i);
    if i > j {
      r := MemMove(codes, codeSize * j, codeSize * i, codeSize);
    } else {
      assert records[j := records[i]] == records;
    }
  }

  /** After the last element the kept codes are the front of the vector. */
  lemma KeptPrefix(now: seq<seq<int>>, records: seq<seq<int>>, codeSize: nat, gone: int -> bool, j: nat)
    requires Uniform(now, codeSize) && Compacted(now, records, gone, |records|, j)
    ensures j == |Kept(records, gone)| && Uniform(Kept(records, gone), codeSize)
    ensures 0 <= j * codeSize <= |Join(now)| && Join(now)[..j * codeSize] == Join(Kept(records, gone))
    ensures j == |records| ==> now == Kept(records, gone)
  {
    assert records[..|records|] == records && now[..|now|] == now;
    PrefixOf(now, codeSize, j);
  }

  /** The compacting loop brings the kept codes to the front; the rest is cut off. */
  method Compact(codes0: seq<int>, codeSize: nat, n: nat, gone: int -> bool, ghost records: seq<seq<int>>)
    returns (codes: seq<int>, j: nat)
    requires n == |records| && Uniform(records, codeSize) && codes0 == Join(records)
    ensures j == |Kept(records, gone)| <= n && Uniform(Kept(records, gone), codeSize)
    ensures codes == Join(Kept(records, gone))
  {
    ghost var now;
    codes, j, now := MoveKept(codes0, codeSize, n, gone, records);
    KeptPrefix(now, records, codeSize, gone, j);
    if j < n {
      codes := codes[..j * codeSize];
    }
  }

  method MoveKept(codes0: seq<int>, codeSize: nat, n: nat, gone: int -> bool, ghost records: seq<seq<int>>)
    returns (codes: seq<int>, j: nat, ghost now: seq<seq<int>>)
    requires n == |records| && Uniform(records, codeSize) && codes0 == Join(records)
    ensures Uniform(now, codeSize) && codes == Join(now) && Compacted(now, records, gone, |records|, j)
  {
    now := records;
    codes, j := codes0, 0;
    for i := 0 to n
      invariant |now| == n && j <= i
      invariant Uniform(now, codeSize) && codes == Join(now)
      invariant Compacted(now, records, gone, i, j)
    {
      CompactStep(now, records, gone, i, j);
      if !gone(i) {
        codes := MoveDown(codes, codeSize, j, i, now);
        now := now[j := now[i]];
        j := j + 1;
      }
    }
  }

  /** Append record i of `codes` to another vector of records. */
  method CopyRecord(target: seq<int>, codes: seq<int>, codeSize: nat, i: nat,
                    ghost before: seq<seq<int>>, ghost records: seq<seq<int>>)
    returns (r: seq<int>)
    requires Uniform(records, codeSize) && codes == Join(records) && i < |records| && target == Join(before)
    ensures r == Join(before + [records[i]])
  {
    RecordAt(records, codeSize, i);
    JoinAppend(before, records[i]);
    r := target + codes[codeSize * i..codeSize * i + codeSize];
  }

  class IndexFlatCodes {
    const codeSize: nat
    var codes: seq<int>
    var ntotal: nat
    /** The stored codes, one by one. */
    ghost var records: seq<seq<int>>

    ghost predicate Valid()
      reads this
    {
      ntotal == |records| && Uniform(records, codeSize) && codes == Join(records)
    }

    constructor (codeSize: nat)
      ensures Valid() && records == [] && this.codeSize == codeSize
    {
      this.codeSize := codeSize;
      codes, ntotal, records := [], 0, [];
    }

    method AddSaCodes(n: nat, bytes: seq<int>, ghost more: seq<seq<int>>)
      requires Valid() && n == |more| && Uniform(more, codeSize) && bytes == Join(more)
      modifies this
      ensures Valid() && records == old(records) + more
    {
      JoinConcat(records, more);
      codes := codes + bytes;
      ntotal := ntotal + n;
      records := records + more;
    }

    method Reset()
      modifies this
      ensures Valid() && records == []
    {
      codes, ntotal, records := [], 0, [];
    }

    /** Removal by position compacts the bytes in place. */
    method RemoveIds(gone: int -> bool) returns (nremove: nat)
      requires Valid()
      modifies this
      ensures Valid() && records == Kept(old(records), gone)
      ensures nremove == |old(records)| - |records|
    {
      var j: nat;
      codes, j := Compact(codes, codeSize, ntotal, gone, records);
      records := Kept(records, gone);
      nremove := ntotal - j;
      if nremove > 0 {
        ntotal := j;
      }
    }

    /** Append the codes of another store and empty it; a store merged with itself ends empty. */
    method MergeFrom(other: IndexFlatCodes, addId: int) returns (thrown: bool)
      requires Valid() && other.Valid()
      modifies this, other
      ensures Valid() && other.Valid()
      ensures thrown <==> addId != 0 || other.codeSize != codeSize
      ensures thrown ==> records == old(records) && other.records == old(other.records)
      ensures !thrown ==> other.records == []
      ensures !thrown && other != this ==> records == old(records) + old(other.records)
    {
      if addId != 0 || other.codeSize != codeSize {
        return true;
      }
      JoinConcat(records, other.records);
      codes := codes + other.codes;
      ntotal := ntotal + other.ntotal;
      records := records + other.records;
      other.Reset();
      return false;
    }

    /** Reorder the codes. */
    method PermuteEntries(perm: seq<nat>)
      requires Valid() && |perm| == ntotal && forall i :: 0 <= i < |perm| ==> perm[i] < ntotal
      modifies this
      ensures Valid() && |records| == |old(records)|
      ensures forall i :: 0 <= i < |perm| ==> records[i] == old(records)[perm[i]]
    {
      var newCodes: seq<int> := [];
      ghost var after: seq<seq<int>> := [];
      for i := 0 to |perm|
        invariant Valid() && ntotal == |perm| && records == old(records)
        invariant |after| == i && newCodes == Join(after) && Uniform(after, codeSize)
        invariant forall q :: 0 <= q < i ==> after[q] == records[perm[q]]
      {
        newCodes := CopyRecord(newCodes, codes, codeSize, perm[i], after, records);
        after := after + [records[perm[i]]];
      }
      codes, records := newCodes, after;
    }

    /** The code at a position. */
    method Reconstruct(key: int) returns (thrown: bool, code: seq<int>)
      requires Valid()
      ensures thrown <==> !(0 <= key < |records|)
      ensures !thrown ==> code == records[key]
    {
      if !(0 <= key && key + 1 <= ntotal) {
        return true, [];
      }
      RecordAt(records, codeSize, key);
      return false, codes[codeSize * key..codeSize * key + codeSize];
    }
  }

  lemma PrefixOf(records: seq<seq<int>>, codeSize: nat, j: nat)
    requires Uniform(records, codeSize) && j <= |records|
    ensures 0 <= j * codeSize <= |Join(records)| && Join(records)[..j * codeSize] == Join(records[..j])
    ensures Uniform(records[..j], codeSize)
  {
    assert records == records[..j] + records[j..];
    JoinConcat(records[..j], records[j..]);
    JoinLength(records[..j], codeSize);
  }
}
