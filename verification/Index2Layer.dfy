/** The two-layer code: a list number in front of each second-level code.  The second-level
    codes are first written densely, then spread out in the same buffer, from the last to
    the first, so that every code is moved before its place is needed.  The width of the list
    number is stored at construction, while the list-number codec computes it on every call. */
module Index2Layer {
  import opened ListCodec
  import opened Vectors
  import opened Wrappers

  /** code_size_1, as the constructor finds it; with 1 to 2^48 lists it is also the width
      that the list-number codec uses. */
  ghost predicate StoredWidth(nlist: nat, w: nat) {
    IsCodeSize1(nlist, Some(w)) && 1 <= nlist <= Pow256(6)
  }

  lemma StoredIsUsed(nlist: nat, w: nat)
    requires StoredWidth(nlist, w)
    ensures w == ByteCount(Top(nlist))
  {
    WidthsAgree(nlist, Some(w));
  }

  // ---- positions ----

  /** Position of the i-th of the items of c bytes that start at base. */
  function At(base: nat, i: nat, c: nat): nat {
    if i == 0 then base else At(base, i - 1, c) + c
  }

  lemma {:induction false} AtIs(base: nat, i: nat, c: nat)
    ensures At(base, i, c) == base + i * c
  {
    if i > 0 {
      AtIs(base, i - 1, c);
      assert i * c == (i - 1) * c + c;
    }
  }

  lemma {:induction false} AtLater(base: nat, i: nat, j: nat, c: nat)
    requires i < j
    ensures At(base, i, c) + c <= At(base, j, c)
  {
    if i + 1 < j {
      AtLater(base, i, j - 1, c);
    }
  }

  lemma {:induction false} AtWider(base: nat, i: nat, c: nat, d: nat)
    requires c <= d
    ensures At(base, i, c) <= At(base, i, d)
  {
    if i > 0 {
      AtWider(base, i - 1, c, d);
    }
  }

  lemma {:induction false} AtFrom(i0: nat, i: nat, c: nat)
    ensures At(At(0, i0, c), i, c) == At(0, i0 + i, c)
  {
    if i > 0 {
      AtFrom(i0, i - 1, c);
    }
  }

  method Position(base: nat, i: nat, c: nat) returns (p: nat)
    ensures p == At(base, i, c)
  {
    AtIs(base, i, c);
    p := base + i * c;
  }

  // ---- records ----

  /** At position `at` stands the list number `no` in w bytes, followed by `code`. */
  ghost predicate IsRecord(buf: seq<Byte>, at: nat, w: nat, no: int, code: seq<Byte>) {
    && at + w + |code| <= |buf|
    && buf[at..at + w] == Bytes(no, w)
    && buf[at + w..at + w + |code|] == code
  }

  /** The two buffers differ at most between lo and hi. */
  ghost predicate SameOutside(a: seq<Byte>, b: seq<Byte>, lo: nat, hi: nat) {
    |a| == |b| && forall p :: 0 <= p < |a| && !(lo <= p < hi) ==> a[p] == b[p]
  }

  lemma SameSlice(a: seq<Byte>, b: seq<Byte>, lo: nat, hi: nat, from: nat, to: nat)
    requires SameOutside(a, b, lo, hi) && from <= to <= |a| && (to <= lo || hi <= from)
    ensures a[from..to] == b[from..to]
  {
  }

  lemma RecordFrame(buf: seq<Byte>, buf': seq<Byte>, lo: nat, hi: nat, at: nat, w: nat, no: int, code: seq<Byte>)
    requires IsRecord(buf, at, w, no, code) && SameOutside(buf, buf', lo, hi)
    requires at + w + |code| <= lo || hi <= at
    ensures IsRecord(buf', at, w, no, code)
  {
    SameSlice(buf, buf', lo, hi, at, at + w);
    SameSlice(buf, buf', lo, hi, at + w, at + w + |code|);
  }

  /** The i-th of the compact codes that start at base. */
  ghost predicate IsCompact(buf: seq<Byte>, base: nat, i: nat, size: nat, code: seq<Byte>) {
    At(base, i, size) + size <= |buf| && buf[At(base, i, size)..At(base, i, size) + size] == code
  }

  /** Codes i .. n-1 of the block are in their final records; everything in front
      of code i, and everything behind the block, is untouched. */
  ghost predicate Expanded(buf: seq<Byte>, orig: seq<Byte>, base: nat, i: nat, listNos: seq<int>,
                           codes: seq<seq<Byte>>, w: nat, size: nat)
    requires |listNos| == |codes|
  {
    && SameOutside(orig, buf, At(base, i, size), At(base, |codes|, w + size))
    && (forall j :: i <= j < |codes| ==> IsRecord(buf, At(base, j, w + size), w, listNos[j], codes[j]))
  }

  /** Expanding code i in place overwrites no code that is still to be expanded. */
  lemma ExpandedStep(buf: seq<Byte>, buf': seq<Byte>, orig: seq<Byte>, base: nat, i: nat, next: nat, listNos: seq<int>,
                     codes: seq<seq<Byte>>, w: nat, size: nat)
    requires |listNos| == |codes| && (forall j :: 0 <= j < |codes| ==> |codes[j]| == size)
    requires i < |codes| && next == i + 1 && Expanded(buf, orig, base, next, listNos, codes, w, size)
    requires IsRecord(buf', At(base, i, w + size), w, listNos[i], codes[i])
    requires SameOutside(buf, buf', At(base, i, w + size), At(base, i, w + size) + (w + size))
    ensures Expanded(buf', orig, base, i, listNos, codes, w, size)
  {
    var lo := At(base, i, w + size);
    var hi := lo + (w + size);
    AtWider(base, i, size, w + size);
    AtLater(base, i, |codes|, w + size);
    Nested(orig, buf, buf', At(base, i, size), At(base, next, size), At(base, |codes|, w + size), lo, hi);
    forall j | next <= j < |codes| ensures IsRecord(buf', At(base, j, w + size), w, listNos[j], codes[j]) {
      AtLater(base, i, j, w + size);
      RecordFrame(buf, buf', lo, hi, At(base, j, w + size), w, listNos[j], codes[j]);
    }
  }

  lemma Nested(a: seq<Byte>, b: seq<Byte>, c: seq<Byte>, start: nat, later: nat, end: nat, lo: nat, hi: nat)
    requires SameOutside(a, b, later, end) && SameOutside(b, c, lo, hi) && start <= lo && start <= later && hi <= end
    ensures SameOutside(a, c, start, end)
  {
  }

  // ---- encoding ----

  /** Copy as if through a temporary, overlapping or not. */
  method MoveBytes(bytes: array<Byte>, dst: nat, src: nat, len: nat)
    requires dst + len <= bytes.Length && src + len <= bytes.Length
    modifies bytes
    ensures bytes[..] == Overwrite(old(bytes[..]), dst, old(bytes[src..src + len]))
  {
    Write(bytes, dst, bytes[src..src + len]);
  }

  /** Turn the compact code at src into a record at `at`. */
  method ExpandOne(bytes: array<Byte>, at: nat, src: nat, no: int, nlist: nat, w: nat, size: nat)
    requires StoredWidth(nlist, w) && at + w + size <= bytes.Length && src + size <= bytes.Length
    modifies bytes
    ensures IsRecord(bytes[..], at, w, no, old(bytes[src..src + size]))
    ensures SameOutside(old(bytes[..]), bytes[..], at, at + (w + size))
  {
    ghost var v, code := bytes[..], bytes[src..src + size];
    StoredIsUsed(nlist, w);
    MoveBytes(bytes, at + w, src, size);
    EncodeListno(nlist, no, bytes, at);
    RecordWritten(v, at, w, no, code);
  }

  lemma RecordWritten(v: seq<Byte>, at: nat, w: nat, no: int, code: seq<Byte>)
    requires at + w + |code| <= |v|
    ensures var r := Overwrite(Overwrite(v, at + w, code), at, Bytes(no, w));
            IsRecord(r, at, w, no, code) && SameOutside(v, r, at, at + (w + |code|))
  {
    var moved := Overwrite(v, at + w, code);
    var r := Overwrite(moved, at, Bytes(no, w));
    assert r[at + w..at + w + |code|] == moved[at + w..at + w + |code|];
  }

  /** Spread out one block of codes, backwards and in place. */
  method ExpandBlock(bytes: array<Byte>, base: nat, listNos: seq<int>, ghost codes: seq<seq<Byte>>, nlist: nat, w: nat,
                     size: nat)
    requires StoredWidth(nlist, w) && |listNos| == |codes| && At(base, |codes|, w + size) <= bytes.Length
    requires forall i :: 0 <= i < |codes| ==> |codes[i]| == size && IsCompact(bytes[..], base, i, size, codes[i])
    modifies bytes
    ensures Expanded(bytes[..], old(bytes[..]), base, 0, listNos, codes, w, size)
  {
    ghost var orig := bytes[..];
    var i := |listNos|;
    while i > 0
      invariant 0 <= i <= |codes| && Expanded(bytes[..], orig, base, i, listNos, codes, w, size)
    {
      var k := i - 1;
      ExpandLast(bytes, base, i, k, listNos, codes, nlist, w, size, orig);
      i := k;
    }
  }

  /** The last of the first i codes. */
  method ExpandLast(bytes: array<Byte>, base: nat, ghost i: nat, k: nat, listNos: seq<int>, ghost codes: seq<seq<Byte>>,
                    nlist: nat, w: nat, size: nat, ghost orig: seq<Byte>)
    requires StoredWidth(nlist, w) && |listNos| == |codes| && i == k + 1 <= |codes|
    requires At(base, |codes|, w + size) <= bytes.Length && forall j :: 0 <= j < |codes| ==> |codes[j]| == size
    requires IsCompact(orig, base, k, size, codes[k]) && Expanded(bytes[..], orig, base, i, listNos, codes, w, size)
    modifies bytes
    ensures Expanded(bytes[..], orig, base, k, listNos, codes, w, size)
  {
    ghost var before := bytes[..];
    AtLater(base, k, |codes|, w + size);
    var at := Position(base, k, w + size);
    var src := Position(base, k, size);
    StillCompact(before, orig, base, i, k, size, codes[k], src, At(base, |codes|, w + size));
    assert bytes[src..src + size] == codes[k];
    ExpandOne(bytes, at, src, listNos[k], nlist, w, size);
    ExpandedStep(before, bytes[..], orig, base, k, i, listNos, codes, w, size);
  }

  /** A code in front of those already expanded is where it was. */
  lemma StillCompact(buf: seq<Byte>, orig: seq<Byte>, base: nat, i: nat, k: nat, size: nat, code: seq<Byte>, src: nat,
                     end: nat)
    requires i == k + 1 && src == At(base, k, size) && IsCompact(orig, base, k, size, code)
    requires SameOutside(orig, buf, At(base, i, size), end)
    ensures src + size <= |buf| && buf[src..src + size] == code
  {
    SameSlice(orig, buf, At(base, i, size), end, src, src + size);
  }

  /** Write the second-level codes compactly from base on. */
  method ComputeCodes(bytes: array<Byte>, base: nat, codes: seq<seq<Byte>>, size: nat)
    requires At(base, |codes|, size) <= bytes.Length && forall i :: 0 <= i < |codes| ==> |codes[i]| == size
    modifies bytes
    ensures Computed(bytes[..], old(bytes[..]), base, |codes|, codes, size)
  {
    ghost var v := bytes[..];
    for i := 0 to |codes|
      invariant Computed(bytes[..], v, base, i, codes, size)
    {
      ComputeOne(bytes, base, i, codes, size, v);
    }
  }

  /** The first i codes are written. */
  ghost predicate Computed(buf: seq<Byte>, orig: seq<Byte>, base: nat, i: nat, codes: seq<seq<Byte>>, size: nat) {
    && i <= |codes| && SameOutside(orig, buf, base, At(base, i, size))
    && (forall j :: 0 <= j < i ==> IsCompact(buf, base, j, size, codes[j]))
  }

  method ComputeOne(bytes: array<Byte>, base: nat, i: nat, codes: seq<seq<Byte>>, size: nat, ghost v: seq<Byte>)
    requires i < |codes| && |codes[i]| == size && At(base, |codes|, size) <= bytes.Length
    requires Computed(bytes[..], v, base, i, codes, size)
    modifies bytes
    ensures Computed(bytes[..], v, base, i + 1, codes, size)
  {
    ghost var before := bytes[..];
    AtLater(base, i, |codes|, size);
    var at := Position(base, i, size);
    Write(bytes, at, codes[i]);
    ComputedNext(before, bytes[..], v, base, i, i + 1, codes, size, at);
  }

  lemma ComputedNext(buf: seq<Byte>, buf': seq<Byte>, orig: seq<Byte>, base: nat, i: nat, next: nat,
                     codes: seq<seq<Byte>>, size: nat, at: nat)
    requires i < |codes| && |codes[i]| == size && next == i + 1 && Computed(buf, orig, base, i, codes, size)
    requires at == At(base, i, size) && at + size <= |buf| && buf' == Overwrite(buf, at, codes[i])
    ensures Computed(buf', orig, base, next, codes, size)
  {
    if i > 0 { AtLater(base, 0, i, size); }
    forall j | 0 <= j < i ensures IsCompact(buf', base, j, size, codes[j]) {
      AtLater(base, j, i, size);
      assert IsCompact(buf, base, j, size, codes[j]);
      SameSlice(buf, buf', at, at + size, At(base, j, size), At(base, j, size) + size);
    }
  }

  /** One block of at most the block size: compute the codes, then expand them. */
  method EncodeBlock(bytes: array<Byte>, base: nat, listNos: seq<int>, codes: seq<seq<Byte>>, nlist: nat, w: nat, size: nat)
    requires StoredWidth(nlist, w) && |listNos| == |codes| && At(base, |codes|, w + size) <= bytes.Length
    requires forall i :: 0 <= i < |codes| ==> |codes[i]| == size
    modifies bytes
    ensures forall i :: 0 <= i < |codes| ==> IsRecord(bytes[..], At(base, i, w + size), w, listNos[i], codes[i])
    ensures SameOutside(old(bytes[..]), bytes[..], base, At(base, |codes|, w + size))
  {
    ghost var v := bytes[..];
    AtWider(base, |codes|, size, w + size);
    ComputeCodes(bytes, base, codes, size);
    ghost var compact := bytes[..];
    ExpandBlock(bytes, base, listNos, codes, nlist, w, size);
    Nested(v, compact, bytes[..], base, base, At(base, |codes|, w + size), base, At(base, |codes|, w + size));
  }

  /** The first n vectors are encoded in the final layout. */
  ghost predicate Encoded(buf: seq<Byte>, n: nat, listNos: seq<int>, codes: seq<seq<Byte>>, w: nat, size: nat)
    requires n <= |listNos| && n <= |codes|
  {
    forall i :: 0 <= i < n ==> IsRecord(buf, At(0, i, w + size), w, listNos[i], codes[i])
  }

  /** The codec: blocks of bs vectors, each expanded in place. */
  method SaEncode(bytes: array<Byte>, listNos: seq<int>, codes: seq<seq<Byte>>, nlist: nat, w: nat, size: nat, bs: nat)
    requires StoredWidth(nlist, w) && bs > 0 && |listNos| == |codes| && bytes.Length == |codes| * (w + size)
    requires forall i :: 0 <= i < |codes| ==> |codes[i]| == size
    modifies bytes
    ensures Encoded(bytes[..], |codes|, listNos, codes, w, size)
  {
    var n, cs := |codes|, w + size;
    AtIs(0, n, cs);
    var i0 := 0;
    while i0 < n
      invariant 0 <= i0 <= n && Encoded(bytes[..], i0, listNos, codes, w, size)
    {
      var i1 := if i0 + bs < n then i0 + bs else n;
      EncodePart(bytes, i0, i1, listNos, codes, nlist, w, size, cs);
      i0 := i1;
    }
  }

  method EncodePart(bytes: array<Byte>, i0: nat, i1: nat, listNos: seq<int>, codes: seq<seq<Byte>>, nlist: nat, w: nat,
                    size: nat, cs: nat)
    requires StoredWidth(nlist, w) && i0 < i1 <= |codes| == |listNos| && cs == w + size
    requires At(0, |codes|, cs) <= bytes.Length && forall i :: 0 <= i < |codes| ==> |codes[i]| == size
    requires Encoded(bytes[..], i0, listNos, codes, w, size)
    modifies bytes
    ensures Encoded(bytes[..], i1, listNos, codes, w, size)
  {
    ghost var before := bytes[..];
    AtFrom(i0, i1 - i0, cs);
    if i1 < |codes| { AtLater(0, i1, |codes|, cs); }
    var start := Position(0, i0, cs);
    EncodeBlock(bytes, start, listNos[i0..i1], codes[i0..i1], nlist, w, size);
    EncodedMore(before, bytes[..], i0, i1, listNos, codes, w, size, At(0, i1, cs));
  }

  lemma EncodedMore(before: seq<Byte>, after: seq<Byte>, i0: nat, i1: nat, listNos: seq<int>, codes: seq<seq<Byte>>,
                    w: nat, size: nat, end: nat)
    requires i0 <= i1 <= |codes| == |listNos|
    requires forall i :: 0 <= i < |codes| ==> |codes[i]| == size
    requires Encoded(before, i0, listNos, codes, w, size)
    requires SameOutside(before, after, At(0, i0, w + size), end)
    requires forall i :: 0 <= i < i1 - i0 ==>
               IsRecord(after, At(At(0, i0, w + size), i, w + size), w, listNos[i0..i1][i], codes[i0..i1][i])
    ensures Encoded(after, i1, listNos, codes, w, size)
  {
    var cs := w + size;
    forall i | 0 <= i < i1 ensures IsRecord(after, At(0, i, cs), w, listNos[i], codes[i]) {
      if i < i0 {
        AtLater(0, i, i0, cs);
        RecordFrame(before, after, At(0, i0, cs), end, At(0, i, cs), w, listNos[i], codes[i]);
      } else {
        AtFrom(i0, i - i0, cs);
        assert listNos[i0..i1][i - i0] == listNos[i] && codes[i0..i1][i - i0] == codes[i];
      }
    }
  }

  // ---- decoding ----

  datatype Stored = Stored(id: nat, code: seq<Byte>)

  /** The vectors of one list, in input order. */
  function Members(listNos: seq<int>, codes: seq<seq<Byte>>, n: nat, l: nat): seq<Stored>
    requires n <= |listNos| && n <= |codes|
  {
    if n == 0 then []
    else Members(listNos, codes, n - 1, l) + if listNos[n - 1] == l then [Stored(n - 1, codes[n - 1])] else []
  }

  /** Vector i comes after the earlier vectors of its list, under its number; nothing else is there. */
  lemma {:induction false} MemberAt(listNos: seq<int>, codes: seq<seq<Byte>>, n: nat, l: nat, i: nat)
    requires i <= n <= |listNos| && n <= |codes|
    ensures |Members(listNos, codes, n, l)| == multiset(listNos[..n])[l]
    ensures i < n && listNos[i] == l ==>
              var at := multiset(listNos[..i])[l];
              at < |Members(listNos, codes, n, l)| && Members(listNos, codes, n, l)[at] == Stored(i, codes[i])
  {
    if n > 0 {
      MemberAt(listNos, codes, n - 1, l, if i < n then i else n - 1);
      assert listNos[..n] == listNos[..n - 1] + [listNos[n - 1]];
    }
  }

  /** What a record reads as: the list number in its first w bytes, then the code. */
  lemma RecordReads(buf: seq<Byte>, at: nat, nlist: nat, w: nat, no: int, code: seq<Byte>)
    requires StoredWidth(nlist, w) && IsRecord(buf, at, w, no, code) && 0 <= no < nlist
    ensures Value(buf[at..at + w]) == no && buf[at + w..at + w + |code|] == code
  {
    StoredIsUsed(nlist, w);
    ListnoRoundTrip(nlist, no);
  }

  lemma RecordSlices(buf: seq<Byte>, at: nat, w: nat, size: nat, end: nat, record: seq<Byte>)
    requires end == at + w + size <= |buf| && record == buf[at..end]
    ensures record[..w] == buf[at..at + w] && record[w..] == buf[at + w..at + w + size]
  {
  }

  /** The first n vectors are in their lists. */
  ghost predicate Distributed(lists: seq<seq<Stored>>, listNos: seq<int>, codes: seq<seq<Byte>>, n: nat)
    requires n <= |listNos| && n <= |codes|
  {
    forall l {:trigger lists[l]} :: 0 <= l < |lists| ==> lists[l] == Members(listNos, codes, n, l)
  }

  lemma MemberNext(lists: seq<seq<Stored>>, listNos: seq<int>, codes: seq<seq<Byte>>, i: nat, next: nat)
    requires i < |listNos| == |codes| && 0 <= listNos[i] < |lists| && next == i + 1
    requires Distributed(lists, listNos, codes, i)
    ensures Distributed(lists[listNos[i] := lists[listNos[i]] + [Stored(i, codes[i])]], listNos, codes, next)
  {
  }

  lemma AllMembers(lists: seq<seq<Stored>>, listNos: seq<int>, codes: seq<seq<Byte>>, n: nat)
    requires n == |listNos| == |codes| && Distributed(lists, listNos, codes, n)
    requires forall i :: 0 <= i < n ==> 0 <= listNos[i] < |lists|
    ensures forall l :: 0 <= l < |lists| ==> |lists[l]| == multiset(listNos)[l]
    ensures forall i :: 0 <= i < n ==>
              var at := multiset(listNos[..i])[listNos[i]];
              at < |lists[listNos[i]]| && lists[listNos[i]][at] == Stored(i, codes[i])
  {
    assert listNos[..n] == listNos;
    forall l | 0 <= l < |lists| ensures |lists[l]| == multiset(listNos)[l] {
      MemberAt(listNos, codes, n, l, n);
    }
    forall i | 0 <= i < n
      ensures var at := multiset(listNos[..i])[listNos[i]];
              at < |lists[listNos[i]]| && lists[listNos[i]][at] == Stored(i, codes[i])
    {
      MemberAt(listNos, codes, n, listNos[i], i);
    }
  }

  method ReadRecord(buf: seq<Byte>, at: nat, ghost nlist: nat, w: nat, size: nat, ghost no: nat, ghost code: seq<Byte>)
    returns (key: nat, read: seq<Byte>)
    requires StoredWidth(nlist, w) && IsRecord(buf, at, w, no, code) && |code| == size && no < nlist
    ensures key == no && read == code
  {
    RecordReads(buf, at, nlist, w, no, code);
    key, read := Value(buf[at..at + w]), buf[at + w..at + w + size];
  }

  /** Move the codes into inverted lists; refused when the target does not match. */
  method TransferToIVFPQ(buf: seq<Byte>, nlist: nat, w: nat, size: nat, otherNlist: nat, otherCodeSize: nat,
                         otherNtotal: nat, n: nat, ghost listNos: seq<int>, ghost codes: seq<seq<Byte>>)
    returns (lists: Option<seq<seq<Stored>>>)
    requires StoredWidth(nlist, w) && n == |listNos| == |codes|
    requires forall i :: 0 <= i < n ==> |codes[i]| == size && 0 <= listNos[i] < nlist
    requires Encoded(buf, n, listNos, codes, w, size)
    ensures lists.Some? <==> otherNlist == nlist && otherCodeSize == size && otherNtotal == 0
    ensures lists.Some? ==> |lists.value| == nlist
                            && forall l :: 0 <= l < nlist ==> lists.value[l] == Members(listNos, codes, n, l)
    ensures lists.Some? ==> forall l :: 0 <= l < nlist ==> |lists.value[l]| == multiset(listNos)[l]
    ensures lists.Some? ==> forall i :: 0 <= i < n ==>
              var at := multiset(listNos[..i])[listNos[i]];
              at < |lists.value[listNos[i]]| && lists.value[listNos[i]][at] == Stored(i, codes[i])
  {
    if !(otherNlist == nlist && otherCodeSize == size && otherNtotal == 0) {
      return None;
    }
    var result: seq<seq<Stored>> := seq(nlist, _ => []);
    var rp := 0;
    for i := 0 to n
      invariant rp == At(0, i, w + size) && |result| == nlist && Distributed(result, listNos, codes, i)
    {
      MemberNext(result, listNos, codes, i, i + 1);
      var key, code := ReadRecord(buf, rp, nlist, w, size, listNos[i], codes[i]);
      result := result[key := result[key] + [Stored(i, code)]];
      rp := rp + w + size;
    }
    AllMembers(result, listNos, codes, n);
    return Some(result);
  }

  type Vector = seq<real>

  function Plus(a: Vector, b: Vector): (r: Vector)
    requires |a| == |b|
    ensures |r| == |a| && forall j :: 0 <= j < |r| ==> r[j] == a[j] + b[j]
  {
    seq(|a|, j requires 0 <= j < |a| => a[j] + b[j])
  }

  /** Add the centroid to the decoded residual, in place in the code. */
  method AddCentroid(x: Vector, centroid: Vector) returns (xi: Vector)
    requires |x| == |centroid|
    ensures xi == Plus(x, centroid)
  {
    xi := x;
    for j := 0 to |x|
      invariant |xi| == |x|
      invariant forall t :: 0 <= t < |x| ==> xi[t] == if t < j then x[t] + centroid[t] else x[t]
    {
      xi := xi[j := xi[j] + centroid[j]];
    }
  }

  /** Decode every record: the vector of its second-level code, moved by the centroid of
      its list.  Decoding a second-level code and the centroids are given. */
  method SaDecode(buf: seq<Byte>, nlist: nat, w: nat, size: nat, n: nat, d: nat,
                  decode: seq<Byte> -> Vector, centroid: nat -> Vector,
                  ghost listNos: seq<int>, ghost codes: seq<seq<Byte>>)
    returns (out: seq<Vector>)
    requires StoredWidth(nlist, w) && n == |listNos| == |codes|
    requires forall i :: 0 <= i < n ==> |codes[i]| == size && 0 <= listNos[i] < nlist
    requires forall i :: 0 <= i < n ==> |decode(codes[i])| == |centroid(listNos[i])| == d
    requires Encoded(buf, n, listNos, codes, w, size)
    ensures |out| == n && forall i :: 0 <= i < n ==> out[i] == Plus(decode(codes[i]), centroid(listNos[i]))
  {
    var cs := w + size;
    out := [];
    for i := 0 to n
      invariant |out| == i && forall j :: 0 <= j < i ==> out[j] == Plus(decode(codes[j]), centroid(listNos[j]))
    {
      var at := Position(0, i, cs);
      var xi := DecodeOne(buf, at, nlist, w, size, decode, centroid, listNos[i], codes[i]);
      out := out + [xi];
    }
  }

  method DecodeOne(buf: seq<Byte>, at: nat, nlist: nat, w: nat, size: nat,
                   decode: seq<Byte> -> Vector, centroid: nat -> Vector, ghost no: nat, ghost code: seq<Byte>)
    returns (xi: Vector)
    requires StoredWidth(nlist, w) && IsRecord(buf, at, w, no, code) && |code| == size && no < nlist
    requires |decode(code)| == |centroid(no)|
    ensures xi == Plus(decode(code), centroid(no))
  {
    var end := at + w + size;
    var record := buf[at..end];
    RecordSlices(buf, at, w, size, end, record);
    StoredIsUsed(nlist, w);
    RecordReads(buf, at, nlist, w, no, code);
    var listNo := DecodeListno(nlist, record);
    xi := AddCentroid(decode(record[w..]), centroid(listNo.value));
  }
}
