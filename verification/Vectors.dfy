/** Vectors of elements: concatenation of parts, and moves within a vector.

    The library keeps codes, ids and results flat: many parts of equal or different
    length, one behind the other, in one vector.  The models state what such a vector
    holds by the sequence of its parts and read it as their concatenation; the lemmas
    here relate appending, dropping and splitting parts to the flat vector. */
module Vectors {

  function Join<T>(parts: seq<seq<T>>): seq<T> {
    if parts == [] then [] else Join(parts[..|parts| - 1]) + parts[|parts| - 1]
  }

  lemma JoinNext<T>(parts: seq<seq<T>>, i: nat)
    requires i < |parts|
    ensures Join(parts[..i + 1]) == Join(parts[..i]) + parts[i]
  {
    assert parts[..i + 1][..i] == parts[..i];
  }

  lemma {:induction false} JoinConcat<T>(a: seq<seq<T>>, b: seq<seq<T>>)
    ensures Join(a + b) == Join(a) + Join(b)
  {
    if b == [] {
      assert a + b == a;
    } else {
      var n := |b| - 1;
      JoinConcat(a, b[..n]);
      assert (a + b)[..|a + b| - 1] == a + b[..n];
      assert (a + b)[|a + b| - 1] == b[n];
    }
  }

  /** The last element of the second of two sequences, apart. */
  lemma LastApart<T>(s: seq<T>, t: seq<T>, front: seq<T>, e: T)
    requires t != [] && front == t[..|t| - 1] && e == t[|t| - 1]
    ensures t == front + [e] && s + t == (s + front) + [e]
  {
  }

  lemma JoinOne<T>(part: seq<T>)
    ensures Join([part]) == part
  {
    assert [part][..0] == [];
  }

  lemma JoinAppend<T>(parts: seq<seq<T>>, part: seq<T>)
    ensures Join(parts + [part]) == Join(parts) + part
  {
    assert (parts + [part])[..|parts|] == parts;
  }

  lemma JoinFirst<T>(parts: seq<seq<T>>)
    requires parts != []
    ensures Join(parts) == parts[0] + Join(parts[1..])
  {
    assert parts == [parts[0]] + parts[1..];
    JoinConcat([parts[0]], parts[1..]);
    JoinOne(parts[0]);
  }

  /** v with s written from position `at` on. */
  function Overwrite<T>(v: seq<T>, at: nat, s: seq<T>): (r: seq<T>)
    requires at + |s| <= |v|
    ensures |r| == |v| && r[at..at + |s|] == s
    ensures forall p :: 0 <= p < at || at + |s| <= p < |v| ==> r[p] == v[p]
  {
    v[..at] + s + v[at + |s|..]
  }

  lemma OverwriteNext<T>(v: seq<T>, at: nat, s: seq<T>, k: nat, next: nat)
    requires at + |s| <= |v| && k < |s| && next == k + 1
    ensures Overwrite(v, at, s[..k])[at + k := s[k]] == Overwrite(v, at, s[..next])
  {
  }

  /** Write s into an array, element by element. */
  method Write<T>(a: array<T>, at: nat, s: seq<T>)
    requires at + |s| <= a.Length
    modifies a
    ensures a[..] == Overwrite(old(a[..]), at, s)
  {
    ghost var v := a[..];
    assert v == Overwrite(v, at, s[..0]);
    for k := 0 to |s|
      invariant a[..] == Overwrite(v, at, s[..k])
    {
      OverwriteNext(v, at, s, k, k + 1);
      Put(a, at + k, s[k]);
    }
    assert s[..|s|] == s;
  }

  method Put<T>(a: array<T>, i: nat, x: T)
    requires i < a.Length
    modifies a
    ensures a[..] == old(a[..])[i := x]
  {
    a[i] := x;
  }

  /** Copy n elements from src to dst; the ranges may overlap. */
  function MemMove<T>(v: seq<T>, dst: nat, src: nat, n: nat): (r: seq<T>)
    requires dst + n <= |v| && src + n <= |v|
    ensures |r| == |v|
  {
    v[..dst] + v[src..src + n] + v[dst + n..]
  }
}
