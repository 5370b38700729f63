/** LZ77 semantics: what literals and matches append to the output, byte by byte. */
module Lz77 {
  import opened Bits

  const WSIZE: nat := 0x8000

  /** n bytes at distance dist, each copied after the previous one was appended. */
  function CopyBytes(out: seq<byte>, dist: nat, n: nat): (r: seq<byte>)
    requires 1 <= dist <= |out|
    ensures |r| == |out| + n
    decreases n
  {
    if n == 0 then out else CopyBytes(out + [out[|out| - dist]], dist, n - 1)
  }

  lemma {:induction false} CopyAdd(out: seq<byte>, dist: nat, m: nat, n: nat)
    requires 1 <= dist <= |out|
    ensures CopyBytes(CopyBytes(out, dist, m), dist, n) == CopyBytes(out, dist, m + n)
    decreases m
  {
    if m > 0 { CopyAdd(out + [out[|out| - dist]], dist, m - 1, n); }
  }

  /** Byte i of a copy is byte i - dist of the result. */
  lemma {:induction false} CopyIs(out: seq<byte>, dist: nat, n: nat, r: seq<byte>)
    requires 1 <= dist <= |out| && |r| == |out| + n && out <= r
    requires forall i :: |out| <= i < |r| ==> r[i] == r[i - dist]
    ensures CopyBytes(out, dist, n) == r
    decreases n
  {
    if n > 0 {
      assert r[|out|] == out[|out| - dist];
      CopyIs(out + [out[|out| - dist]], dist, n - 1, r);
    }
  }

  datatype Token = Literal(c: byte) | Match(len: nat, dist: nat)

  /** A match refers to bytes already produced. */
  predicate Applicable(t: Token, n: nat) {
    t.Literal? || 1 <= t.dist <= n
  }

  function Apply(out: seq<byte>, t: Token): seq<byte> {
    match t
    case Literal(c) => out + [c]
    case Match(len, dist) => if Applicable(t, |out|) then CopyBytes(out, dist, len) else out
  }
}
