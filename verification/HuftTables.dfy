/** The multi-level lookup tables of huft_build: what is stored in them while they are being filled,
    and what walking them the way inflate_codes does then yields. */
module HuftTables {
  import opened Options
  import opened Bits
  import opened PrefixCodes

  /** struct huft: operation e, bits b, and v.n or v.t (an index into the list of tables). */
  datatype Huft = Huft(e: nat, b: nat, v: nat)

  /** e of an unused code, and of memory huft_build never wrote or filled from a slot of v[] it never wrote. */
  const INVALID: nat := 99
  const JUNK: nat := 255

  predicate Dead(r: Huft) { r.e == INVALID || r.e == JUNK }

  predicate IsLink(r: Huft) { r.e > 16 && !Dead(r) }

  /** The arguments of huft_build that say what an entry holds. */
  datatype Code = Code(lens: seq<nat>, s: nat, base: seq<nat>, extra: seq<nat>)

  ghost predicate CodeOk(C: Code) {
    LensOk(C.lens)
    && |C.lens| <= C.s + |C.base| && |C.base| == |C.extra|
    && forall i :: 0 <= i < |C.extra| ==> C.extra[i] <= 16 || C.extra[i] == INVALID
  }

  /** The entry of a symbol of which `bits` bits are left to read. */
  function SymbolEntry(C: Code, n: nat, bits: nat): Huft
    requires n < C.s + |C.base| && |C.base| == |C.extra|
  {
    if n < C.s then Huft(if n < 256 then 16 else 15, bits, n)
    else Huft(C.extra[n - C.s], bits, C.base[n - C.s])
  }

  /** Walking from table i, which is indexed by m bits, at position p: the entry reached that is not a
      link, and the position its own bits start at. None when the bits or the table run out. */
  ghost function Walk(t: seq<seq<Huft>>, i: nat, m: nat, S: seq<bool>, p: nat): Option<(Huft, nat)>
    decreases |t| - i
  {
    if i >= |t| || m > M || p + m > |S| || Val(S[p..p + m]) >= |t[i]| then None
    else
      var r := t[i][Val(S[p..p + m])];
      if Dead(r) then Some((r, p))
      else if !(1 <= r.b <= m) then None
      else if !IsLink(r) then Some((r, p))
      else if r.v <= i then None
      else Walk(t, r.v, r.e - 16, S, p + r.b)
  }

  // ---- Patterns of 16 bits

  function Pat(pos: nat): (s: seq<bool>)
    ensures |s| == M
  {
    MsbBits(pos, M)
  }

  lemma LowPat(pos: nat)
    requires pos < Pow2(M)
    ensures Low(Pat(pos)) == pos
  {
    MsbOfBits(pos, M);
    ModSmall(pos, Pow2(M));
  }

  /** pos lies in the stretch of s exactly when the pattern of pos starts with s. */
  lemma PatInside(s: seq<bool>, pos: nat)
    requires |s| <= M && pos < Pow2(M)
    ensures s <= Pat(pos) <==> Low(s) <= pos < Low(s) + Pow2(M - |s|)
  {
    LowPat(pos);
    PrefixIffInside(s, Pat(pos));
    hide *;
  }

  /** A pattern that continues with zeros after n bits is where those n bits begin. */
  lemma {:induction false} LowZeros(s: seq<bool>, n: nat)
    requires n <= |s| <= M && forall i :: n <= i < |s| ==> !s[i]
    ensures Low(s[..n]) == Low(s)
    decreases |s|
  {
    if n == |s| {
      assert s[..n] == s;
    } else {
      var u := s[..|s| - 1];
      LowZeros(u, n);
      assert u[..n] == s[..n];
      assert !s[|s| - 1];
      LowSnocZero(u, s);
    }
  }

  lemma LowSnocZero(u: seq<bool>, s: seq<bool>)
    requires 0 < |s| <= M && u == s[..|s| - 1] && !s[|s| - 1]
    ensures Low(u) == Low(s)
  {
    assert MsbVal(s) == 2 * MsbVal(u);
    DoubleMul(MsbVal(u), Pow2(M - |s|));
  }

  lemma DoubleMul(a: nat, p: nat)
    ensures a * (2 * p) == (2 * a) * p
  {}

  // ---- Tables under construction

  /** Effective index bits: links are only ever stored at indices of l bits. */
  function Eff(j: nat, l: nat): nat { if j < l then j else l }

  /** The tables, for each the prefix that leads to it and the log of its size, and the stack u[0..h]. */
  datatype Built = Built(t: seq<seq<Huft>>, pre: seq<seq<bool>>, log: seq<nat>, u: seq<nat>)

  /** The table on top of the stack. */
  ghost function Top(B: Built): nat
    requires |B.u| > 0
  {
    B.u[|B.u| - 1]
  }

  ghost predicate Shape(B: Built, l: nat) {
    1 <= l
    && |B.t| == |B.pre| == |B.log|
    && (forall i :: 0 <= i < |B.t| ==> |B.t[i]| == Pow2(B.log[i]))
    && (forall i :: 0 <= i < |B.t| ==> 1 <= B.log[i] && |B.pre[i]| + Eff(B.log[i], l) <= M)
  }

  /** The bits that lead to cell idx of table i. */
  ghost function Cell(B: Built, l: nat, i: nat, idx: nat): (s: seq<bool>)
    requires Shape(B, l) && i < |B.t|
    ensures |s| == |B.pre[i]| + Eff(B.log[i], l)
  {
    B.pre[i] + ToBits(idx, Eff(B.log[i], l))
  }

  ghost predicate Leaf(C: Code, r: Huft, w: nat, cell: seq<bool>, n: nat) {
    n < |C.lens| && n < C.s + |C.base| && |C.base| == |C.extra|
    && w < C.lens[n] <= |cell| && Codeword(C.lens, n) <= cell
    && r == SymbolEntry(C, n, C.lens[n] - w)
  }

  /** What the codes assigned so far demand of a cell. */
  ghost predicate GoodCell(C: Code, B: Built, l: nat, i: nat, idx: nat)
    requires Shape(B, l) && i < |B.t| && idx < Pow2(B.log[i])
  {
    var r, cell := B.t[i][idx], Cell(B, l, i, idx);
    (exists n: nat :: Leaf(C, r, |B.pre[i]|, cell, n))
    || (Dead(r) && Low(cell) >= Filled(C.lens, M))
    || LinkTo(B, l, r, i, cell)
  }

  ghost predicate LinkTo(B: Built, l: nat, r: Huft, i: nat, cell: seq<bool>)
    requires Shape(B, l)
  {
    i < r.v < |B.t| && r.b == l && r.e == 16 + B.log[r.v] && r.e < INVALID && B.pre[r.v] == cell
    && i < |B.t| && |cell| == |B.pre[i]| + l
  }

  /** Every cell whose bits begin below pos is right. */
  ghost predicate Cells(C: Code, B: Built, l: nat, pos: nat)
    requires Shape(B, l)
  {
    forall i: nat, idx: nat :: i < |B.t| && idx < Pow2(Eff(B.log[i], l)) && Low(Cell(B, l, i, idx)) < pos
                               ==> idx < Pow2(B.log[i]) && GoodCell(C, B, l, i, idx)
  }

  ghost function End(s: seq<bool>): nat
    requires |s| <= M
  {
    Low(s) + Pow2(M - |s|)
  }

  /** Codes of the lengths counted by c, laid out from 0. */
  function Laid(c: seq<nat>, k: nat): nat
    requires k < |c| && k <= M
  {
    if k == 0 then 0 else Laid(c, k - 1) + c[k] * Pow2(M - k)
  }

  /** A table narrower than l bits has room for every code of its prefix. */
  ghost predicate Roomy(B: Built, l: nat, c: seq<nat>)
    requires Shape(B, l) && |c| == M + 1
  {
    forall i :: 0 <= i < |B.t| && B.log[i] < l ==> End(B.pre[i]) <= Laid(c, |B.pre[i]| + B.log[i])
  }

  /** The stack holds a chain of linked tables; every other table is full. */
  ghost predicate Stack(B: Built, l: nat, pos: nat)
    requires Shape(B, l)
  {
    Chain(B, l) && Closed(B, l, pos)
  }

  ghost predicate Chain(B: Built, l: nat)
    requires Shape(B, l)
  {
    (forall h :: 0 <= h < |B.u| ==> B.u[h] < |B.t|)
    && (|B.u| > 0 ==> B.pre[B.u[0]] == [])
    && (forall h :: 0 <= h < |B.u| - 1 ==> StackLink(B, l, h))
  }

  ghost predicate Closed(B: Built, l: nat, pos: nat)
    requires Shape(B, l)
  {
    forall i :: 0 <= i < |B.t| && i !in B.u ==> End(B.pre[i]) <= pos
  }

  ghost predicate StackLink(B: Built, l: nat, h: nat)
    requires Shape(B, l) && h + 1 < |B.u|
  {
    B.u[h] < |B.t| && B.u[h + 1] < |B.t| && B.log[B.u[h]] >= l
    && |B.pre[B.u[h + 1]]| == |B.pre[B.u[h]]| + l && B.pre[B.u[h]] <= B.pre[B.u[h + 1]]
    && var idx := Val(B.pre[B.u[h + 1]][|B.pre[B.u[h]]|..]);
       idx < Pow2(l) && idx < Pow2(B.log[B.u[h]])
       && LinkTo(B, l, B.t[B.u[h]][idx], B.u[h], B.pre[B.u[h + 1]])
  }
}
