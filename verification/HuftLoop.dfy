/** The parts of huft_build's main loop that compute: the reversed code, the entries, the table size. */
module HuftLoop {
  import opened Bits
  import opened PrefixCodes
  import opened HuftTables
  import opened HuftSteps

  ghost predicate ZeroFrom(pos: nat, n: nat) {
    forall i :: n <= i < M ==> !Pat(pos)[i]
  }

  // ---- Incrementing a code whose bits are reversed

  /** Clearing or setting bit t on the way up. */
  lemma FlipBit(s: seq<bool>, t: nat)
    requires |s| == M && t < M
    ensures s[t] ==> MsbVal(s) == MsbVal(s[t := !s[t]]) + Pow2(M - 1 - t)
    ensures !s[t] ==> MsbVal(s[t := !s[t]]) == MsbVal(s) + Pow2(M - 1 - t)
  {
    MsbSet(s, t);
    if s[t] {
      assert s[t := true] == s;
    } else {
      assert s[t := false] == s;
    }
  }

  lemma PatOf(s: seq<bool>, pos: nat)
    requires |s| == M && pos <= Pow2(M)
    requires MsbVal(s) == pos || (MsbVal(s) == 0 && pos == Pow2(M))
    ensures s == Pat(pos)
  {
    hide MsbVal, MsbBits, Pow2;
    MsbOfBits(pos, M);
    MsbBound(s);
    if pos < Pow2(M) {
      ModSmall(pos, Pow2(M));
    } else {
      ModSelf(pos);
    }
    MsbInjective(s, Pat(pos));
  }

  lemma ModSelf(a: nat)
    requires a > 0
    ensures a % a == 0
  {}

  /** i holds the code at pos with its first bit lowest; afterwards, the next code of length k. */
  method IncrementReversed(i0: nat, k: nat, ghost pos: nat) returns (i: nat)
    requires 1 <= k <= M && i0 == Val(Pat(pos)) && pos + Pow2(M - k) <= Pow2(M)
    ensures i == Val(Pat(pos + Pow2(M - k)))
  {
    hide *;
    i := i0;
    var j := Pow2(k - 1);
    ghost var t, s := k - 1, Pat(pos);
    ghost var next := pos + Pow2(M - k);
    CarryStart(i, k, pos);
    while And(i, j) != 0
      invariant Carry(s, t, i, j, next)
      decreases t + 1
    {
      CarryStep(s, t, i, j, next);
      i := Xor(i, j);
      j := j / 2;
      s := s[t := false];
      t := t - 1;
    }
    CarryEnd(s, t, i, j, next);
    i := Xor(i, j);
  }

  /** j points at bit t of i; adding 1 there is all that is left to do. */
  ghost predicate Carry(s: seq<bool>, t: int, i: nat, j: nat, next: nat) {
    -1 <= t < M && |s| == M && i == Val(s) && j == (if t >= 0 then Pow2(t) else 0)
    && MsbVal(s) + Pow2(M - 1 - t) == next
  }

  lemma CarryStart(i: nat, k: nat, pos: nat)
    requires 1 <= k <= M && i == Val(Pat(pos)) && pos + Pow2(M - k) <= Pow2(M)
    ensures Carry(Pat(pos), k - 1, i, Pow2(k - 1), pos + Pow2(M - k))
  {
    LowPatMsb(pos, k);
    hide Pow2, Val, MsbVal, Pat;
  }

  lemma CarryStep(s: seq<bool>, t: int, i: nat, j: nat, next: nat)
    requires Carry(s, t, i, j, next) && And(i, j) != 0
    ensures 0 <= t < |s| && Carry(s[t := false], t - 1, Xor(i, j), j / 2, next)
  {
    hide Pow2, Val, MsbVal, Pat, And, Xor;
    AndZero(i);
    Flip(s, t);
  }

  lemma CarryEnd(s: seq<bool>, t: int, i: nat, j: nat, next: nat)
    requires Carry(s, t, i, j, next) && And(i, j) == 0 && next <= Pow2(M)
    ensures Xor(i, j) == Val(Pat(next))
  {
    hide Pow2, Val, MsbVal, Pat, And, Xor;
    if t >= 0 {
      Flip(s, t);
      PatOf(s[t := true], next);
    } else {
      XorZeros(i);
      PatOf(s, next);
    }
  }

  lemma LowPatMsb(pos: nat, k: nat)
    requires 1 <= k <= M && pos + Pow2(M - k) <= Pow2(M)
    ensures MsbVal(Pat(pos)) == pos
  {
    MsbOfBits(pos, M);
    ModSmall(pos, Pow2(M));
  }

  lemma AndZero(i: nat)
    ensures And(i, 0) == 0
  {}

  lemma DoublePow(n: nat)
    ensures Pow2(n + 1) == Pow2(n) + Pow2(n)
  {}

  lemma Flip(s: seq<bool>, t: nat)
    requires |s| == M && t < M
    ensures And(Val(s), Pow2(t)) != 0 <==> s[t]
    ensures Xor(Val(s), Pow2(t)) == Val(s[t := !s[t]])
    ensures s[t] ==> MsbVal(s) + Pow2(M - 1 - t) == MsbVal(s[t := !s[t]]) + Pow2(M - t)
    ensures !s[t] ==> MsbVal(s) + Pow2(M - 1 - t) == MsbVal(s[t := !s[t]])
    ensures Pow2(t) / 2 == if t > 0 then Pow2(t - 1) else 0
  {
    AndBit(s, t);
    XorBit(s, t);
    FlipBit(s, t);
    PowHalf(t);
    DoublePow(M - 1 - t);
    hide *;
  }

  // ---- Storing an entry at every index that starts with the code

  lemma NextIndex(j: nat, n: nat, idx: nat)
    ensures LowBits(j + Pow2(n), n) == LowBits(j, n)
    ensures j < idx < j + Pow2(n) ==> LowBits(idx, n) != LowBits(j, n)
  {
    var m := Pow2(n);
    DivMod(j, m);
    DivUnique(j + m, m, j / m + 1, j % m);
    if j < idx < j + m && idx % m == j % m {
      DivMod(idx, m);
      SameResidue(idx / m, j / m, m);
    }
  }

  lemma SameResidue(a: int, b: int, m: nat)
    requires m > 0
    ensures !(0 < m * a - m * b < m)
  {
    if a > b {
      var d: nat := a - b - 1;
      assert m * (b + 1 + d) == m * b + m + m * d;
      assert m * d >= 0;
    } else {
      var d: nat := b - a;
      assert m * (a + d) == m * a + m * d;
      assert m * d >= 0;
    }
  }

  method FillEntries(q0: seq<Huft>, i: nat, n: nat, z: nat, r: Huft) returns (q: seq<Huft>)
    requires i < Pow2(n) && z == |q0|
    ensures Filling(q0, q, r, n, i)
  {
    q := q0;
    var j := i;
    ModSmall(i, Pow2(n));
    forall idx: nat | idx < i
      ensures LowBits(idx, n) != i
    {
      ModSmall(idx, Pow2(n));
    }
    hide LowBits;
    while j < z
      invariant |q| == |q0| && LowBits(j, n) == i && i <= j
      invariant forall idx :: 0 <= idx < |q| ==> q[idx] == if LowBits(idx, n) == i && idx < j then r else q0[idx]
      decreases z - j
    {
      forall idx: nat
        ensures j < idx < j + Pow2(n) ==> LowBits(idx, n) != i
      {
        NextIndex(j, n, idx);
      }
      NextIndex(j, n, j);
      q := q[j := r];
      j := j + Pow2(n);
    }
  }
}
