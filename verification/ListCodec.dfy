/** List numbers as variable-width little-endian byte strings.

    The width is the number of bytes that the largest list number needs.  One class computes
    it on every call, by shifting in unsigned arithmetic; another searches it once, at
    construction, over at most six bytes. */
module ListCodec {
  import opened Vectors
  import opened Wrappers

  type Byte = x: int | 0 <= x < 256

  // ---- numbers and bytes ----

  function Pow256(n: nat): nat {
    if n == 0 then 1 else 256 * Pow256(n - 1)
  }

  /** Bytes needed for m; none for 0. */
  function ByteCount(m: nat): nat {
    if m == 0 then 0 else 1 + ByteCount(m / 256)
  }

  /** The low n bytes of l, least significant first; shifts round down, also below 0. */
  function Bytes(l: int, n: nat): (b: seq<Byte>)
    ensures |b| == n
    decreases n
  {
    if n == 0 then [] else [l % 256] + Bytes(l / 256, n - 1)
  }

  function Value(b: seq<Byte>): nat {
    if b == [] then 0 else b[0] + 256 * Value(b[1..])
  }

  lemma {:induction false} ByteCountLeast(m: nat)
    ensures m < Pow256(ByteCount(m))
    ensures m > 0 ==> Pow256(ByteCount(m) - 1) <= m
  {
    if m > 0 {
      ByteCountLeast(m / 256);
      if m / 256 == 0 {
        assert ByteCount(m) == 1 && Pow256(0) == 1;
      }
    }
  }

  lemma {:induction false} Pow256Monotone(a: nat, b: nat)
    requires a <= b
    ensures 0 < Pow256(a) <= Pow256(b)
  {
    if a < b {
      Pow256Monotone(a, b - 1);
    } else {
      Pow256Positive(a);
    }
  }

  lemma {:induction false} Pow256Positive(a: nat)
    ensures Pow256(a) > 0
  {
    if a > 0 { Pow256Positive(a - 1); }
  }

  /** n bytes recover a number up to multiples of 256^n. */
  lemma {:induction false} ValueOfBytes(l: int, n: nat)
    ensures Value(Bytes(l, n)) < Pow256(n)
    ensures exists k: int :: l == Value(Bytes(l, n)) + Pow256(n) * k
    decreases n
  {
    if n == 0 {
      assert l == Value(Bytes(l, 0)) + Pow256(0) * l;
    } else {
      ValueOfBytes(l / 256, n - 1);
      var k: int :| l / 256 == Value(Bytes(l / 256, n - 1)) + Pow256(n - 1) * k;
      assert Bytes(l, n)[1..] == Bytes(l / 256, n - 1);
      calc {
        l;
        l % 256 + 256 * (l / 256);
        l % 256 + 256 * Value(Bytes(l / 256, n - 1)) + 256 * (Pow256(n - 1) * k);
        Value(Bytes(l, n)) + Pow256(n) * k;
      }
    }
  }

  lemma BytesExact(l: int, n: nat)
    ensures Value(Bytes(l, n)) == l <==> 0 <= l < Pow256(n)
  {
    ValueOfBytes(l, n);
    var k: int :| l == Value(Bytes(l, n)) + Pow256(n) * k;
    if 0 <= l < Pow256(n) {
      NoMultiple(Value(Bytes(l, n)), Pow256(n), k);
    }
  }

  lemma NoMultiple(v: int, p: int, k: int)
    requires 0 <= v < p && 0 <= v + p * k < p
    ensures k == 0
  {
    assert k >= 1 ==> p * k >= p;
    assert k <= -1 ==> p * k <= -p;
  }

  // ---- the level-1 codec ----

  const WORD: nat := 0x1_0000_0000_0000_0000

  /** nlist - 1 in 64-bit unsigned arithmetic. */
  function Top(nlist: nat): nat {
    if nlist == 0 then WORD - 1 else nlist - 1
  }

  lemma EightBytes(m: nat)
    ensures m == WORD - 1 ==> ByteCount(m) == 8
  {
    if m == WORD - 1 {
      assert ByteCount(0xff) == 1;
      assert ByteCount(0xffff_ff) == 3;
      assert ByteCount(0xffff_ffff_ff) == 5;
      assert ByteCount(0xffff_ffff_ffff_ff) == 7;
    }
  }

  method CoarseCodeSize(nlist: nat) returns (nbyte: nat)
    ensures nbyte == ByteCount(Top(nlist))
    // the least width that holds every list number; eight bytes for no lists at all
    ensures nlist > 0 ==> nlist <= Pow256(nbyte) && (nbyte > 0 ==> Pow256(nbyte - 1) < nlist)
    ensures nlist == 0 ==> nbyte == 8
  {
    var nl := Top(nlist);
    ByteCountLeast(nl);
    EightBytes(nl);
    nbyte := 0;
    while nl > 0
      invariant nbyte + ByteCount(nl) == ByteCount(Top(nlist))
      decreases nl
    {
      nbyte := nbyte + 1;
      nl := nl / 256;
    }
  }

  /** Write the list number at `at`, in as many bytes as nlist - 1 needs. */
  method EncodeListno(nlist: nat, listNo: int, code: array<Byte>, at: nat)
    requires at + ByteCount(Top(nlist)) <= code.Length
    modifies code
    ensures code[..] == Overwrite(old(code[..]), at, Bytes(listNo, ByteCount(Top(nlist))))
  {
    var nl, no, pos := Top(nlist), listNo, at;
    ghost var v, b, k := code[..], Bytes(listNo, ByteCount(nl)), 0;
    assert v == Overwrite(v, at, b[..0]) && b == b[0..];
    while nl > 0
      invariant pos == at + k && Unwritten(no, nl, b, k)
      invariant code[..] == Overwrite(v, at, b[..k])
      decreases nl
    {
      FirstByte(no, nl, b, k, k + 1);
      OverwriteNext(v, at, b, k, k + 1);
      Put(code, pos, no % 256);
      pos, no, nl := pos + 1, no / 256, nl / 256;
      k := k + 1;
    }
    assert b[..k] == b;
  }

  /** The bytes from k on are those of what is left of the number. */
  ghost predicate Unwritten(no: int, nl: nat, b: seq<Byte>, k: nat) {
    k + ByteCount(nl) == |b| && Bytes(no, ByteCount(nl)) == b[k..]
  }

  lemma FirstByte(no: int, nl: nat, b: seq<Byte>, k: nat, next: nat)
    requires nl > 0 && Unwritten(no, nl, b, k) && next == k + 1
    ensures k < |b| && b[k] == no % 256 && Unwritten(no / 256, nl / 256, b, next)
  {
    assert b[k..][0] == b[k] && b[k..][1..] == b[next..];
  }

  /** Read a list number; refused when it is not below nlist. */
  method DecodeListno(nlist: nat, code: seq<Byte>) returns (listNo: Option<nat>)
    requires |code| >= ByteCount(Top(nlist))
    ensures var v := Value(code[..ByteCount(Top(nlist))]); listNo == if v < nlist then Some(v) else None
  {
    var nl, no, shift, pos := Top(nlist), 0, 1, 0;
    ghost var n := ByteCount(nl);
    assert code[0..n] == code[..n];
    while nl > 0
      invariant pos + ByteCount(nl) == n && 0 <= shift
      invariant no + shift * Value(code[pos..n]) == Value(code[..n])
      decreases nl
    {
      NextByte(code, pos, n, no, shift);
      no := no + shift * code[pos];
      shift := shift * 256;
      nl, pos := nl / 256, pos + 1;
    }
    assert code[n..n] == [];
    listNo := if no < nlist then Some(no) else None;
  }

  lemma ShiftIn(s: int, b: int, v: int)
    ensures s * (b + 256 * v) == s * b + (s * 256) * v
  {
  }

  /** Taking the next byte into the number keeps what the rest will add up to. */
  lemma NextByte(code: seq<Byte>, pos: nat, n: nat, no: int, shift: int)
    requires pos < n <= |code|
    ensures no + shift * Value(code[pos..n]) == no + shift * code[pos] + shift * 256 * Value(code[pos + 1..n])
  {
    assert code[pos..n][1..] == code[pos + 1..n];
    ShiftIn(shift, code[pos], Value(code[pos + 1..n]));
  }

  /** What a decoder makes of an encoded number: the number itself exactly when it
      is a list number. */
  lemma ListnoRoundTrip(nlist: nat, l: int)
    requires nlist > 0
    ensures var v := Value(Bytes(l, ByteCount(Top(nlist))));
            (v < nlist && v == l) <==> 0 <= l < nlist
  {
    ByteCountLeast(nlist - 1);
    BytesExact(l, ByteCount(nlist - 1));
  }

  // ---- the width that Index2Layer computes on its own ----

  /** The least of 0 .. 6 bytes that are enough for nlist; none when all are too few. */
  ghost predicate IsCodeSize1(nlist: nat, size: Option<nat>) {
    && (size.Some? ==> size.value < 7 && Pow256(size.value) >= nlist)
    && (forall i: nat :: i < (if size.Some? then size.value else 7) ==> Pow256(i) < nlist)
  }

  /** The constructor's search; the field is not set when all are too few. */
  method CodeSize1(nlist: nat) returns (size: Option<nat>)
    ensures IsCodeSize1(nlist, size)
  {
    for nbyte := 0 to 7
      invariant forall i: nat :: i < nbyte ==> Pow256(i) < nlist
    {
      if Pow256(nbyte) >= nlist {
        return Some(nbyte);
      }
    }
    return None;
  }

  /** Both computations of the width agree exactly for 1 to 2^48 lists. */
  lemma WidthsAgree(nlist: nat, size: Option<nat>)
    requires IsCodeSize1(nlist, size)
    ensures size == Some(ByteCount(Top(nlist))) <==> 1 <= nlist <= Pow256(6)
  {
    if nlist == 0 {
      assert Pow256(0) == 1;
      assert size == Some(0);
      assert ByteCount(WORD - 1) > 0;
    } else if nlist <= Pow256(6) {
      WidthIsLeast(nlist, size);
    } else if size.Some? {
      Pow256Monotone(size.value, 6);
    }
  }

  lemma WidthIsLeast(nlist: nat, size: Option<nat>)
    requires IsCodeSize1(nlist, size) && 1 <= nlist <= Pow256(6)
    ensures size == Some(ByteCount(nlist - 1))
  {
    var n := ByteCount(nlist - 1);
    ByteCountLeast(nlist - 1);
    assert size.Some?;
    assert Pow256(n) >= nlist;
    if size.value < n {
      Pow256Monotone(size.value, n - 1);
    }
  }
}
