/** Walking finished tables is decoding one canonical codeword. */
module HuftWalk {
  import opened Options
  import opened Bits
  import opened PrefixCodes
  import opened HuftTables
  import opened HuftSteps

  /** A walk that agrees with the codeword at p: its symbol's entry, consuming exactly its bits;
      or a dead entry when no codeword is there. */
  ghost predicate Finds(C: Code, S: seq<bool>, p: nat, R: Option<(Huft, nat)>)
    requires CodeOk(C)
  {
    R.Some?
    && match Symbol(C.lens, S, p)
       case Some((n, q)) => R.value.0 == SymbolEntry(C, n, R.value.0.b) && R.value.1 + R.value.0.b == q
       case None => Dead(R.value.0)
  }

  /** Every table but the first is indexed by at most l bits. */
  ghost predicate Narrow(B: Built, l: nat) {
    forall i :: 1 <= i < |B.log| ==> B.log[i] <= l
  }

  lemma CodeFromPrefix(lens: seq<nat>, S: seq<bool>, p: nat, n: nat, cell: seq<bool>)
    requires n < |lens| && 0 < lens[n] <= |cell| <= M && p + M <= |S|
    requires Codeword(lens, n) <= cell && cell <= S[p..p + M]
    ensures CodeAt(lens, S, p, n)
  {
    var cw := Codeword(lens, n);
    PrefixTransitive(cw, cell, S[p..p + M]);
    assert S[p..p + M][..|cw|] == S[p..p + |cw|];
  }

  /** No codeword starts where the line is not covered. */
  lemma NoCode(lens: seq<nat>, S: seq<bool>, p: nat, cell: seq<bool>, n: nat)
    requires LensOk(lens) && !Oversubscribed(lens)
    requires |cell| <= M && p + M <= |S| && cell <= S[p..p + M]
    requires Low(cell) >= Filled(lens, M)
    ensures !CodeAt(lens, S, p, n)
  {
    if CodeAt(lens, S, p, n) {
      var cw := Codeword(lens, n);
      assert cw <= S[p..p + M] by {
        assert S[p..p + M][..lens[n]] == S[p..p + lens[n]];
      }
      CodeBelow(lens, n);
      hide Low, Filled;
      PrefixIffInside(cw, S[p..p + M]);
      StretchesNest(cell, S[p..p + M]);
    }
  }

  lemma CodeBelow(lens: seq<nat>, n: nat)
    requires n < |lens| && 1 <= lens[n] <= M && !Oversubscribed(lens)
    ensures Low(Codeword(lens, n)) + Pow2(M - lens[n]) <= Filled(lens, M)
  {
    LowOfCode(lens, n);
    StartIs(lens, n);
    FilledMonotone(lens, lens[n], M);
  }

  /** Reading m bits at the end of prefix pre selects the cell that the pattern at p leads to. */
  lemma CellRead(B: Built, l: nat, S: seq<bool>, p: nat, i: nat)
    requires Shape(B, l) && i < |B.t| && p + M <= |S| && B.pre[i] <= S[p..p + M]
    ensures var q, m := p + |B.pre[i]|, Eff(B.log[i], l);
            var idx := Val(S[q..q + m]);
            idx < Pow2(m) <= Pow2(B.log[i]) && Cell(B, l, i, idx) == S[p..q + m]
  {
    var q, m := p + |B.pre[i]|, Eff(B.log[i], l);
    ValBound(S[q..q + m]);
    ToBitsVal(S[q..q + m]);
    Pow2Monotone(m, B.log[i]);
    assert B.pre[i] == S[p..p + M][..|B.pre[i]|] == S[p..q];
    assert S[p..q] + S[q..q + m] == S[p..q + m];
  }

  lemma PatternBelow(s: seq<bool>)
    requires |s| <= M
    ensures Low(s) < Pow2(M)
  {
    MsbBound(s);
    Pow2Add(|s|, M - |s|);
    MulLt(MsbVal(s), Pow2(|s|), Pow2(M - |s|));
  }

  lemma CellReached(C: Code, B: Built, l: nat, i: nat, idx: nat)
    requires Shape(B, l) && Cells(C, B, l, Pow2(M)) && i < |B.t| && idx < Pow2(Eff(B.log[i], l))
    ensures idx < Pow2(B.log[i]) && GoodCell(C, B, l, i, idx)
  {
    hide Pow2, Low, GoodCell;
    PatternBelow(Cell(B, l, i, idx));
  }

  lemma Reached(C: Code, B: Built, l: nat, S: seq<bool>, p: nat, i: nat)
    requires Shape(B, l) && Cells(C, B, l, Pow2(M))
    requires i < |B.t| && p + M <= |S| && B.pre[i] <= S[p..p + M]
    ensures var q, m := p + |B.pre[i]|, Eff(B.log[i], l);
            var idx := Val(S[q..q + m]);
            m <= M && idx < Pow2(B.log[i]) && idx < |B.t[i]| && GoodCell(C, B, l, i, idx)
            && Cell(B, l, i, idx) <= S[p..p + M]
  {
    hide Low, Val, Pow2, Cells, GoodCell, Cell;
    var q, m := p + |B.pre[i]|, Eff(B.log[i], l);
    CellRead(B, l, S, p, i);
    CellReached(C, B, l, i, Val(S[q..q + m]));
    assert S[p..q + m] == S[p..p + M][..q + m - p];
  }

  lemma WalkStep(t: seq<seq<Huft>>, i: nat, m: nat, S: seq<bool>, p: nat)
    requires i < |t| && m <= M && p + m <= |S| && Val(S[p..p + m]) < |t[i]|
    ensures var r := t[i][Val(S[p..p + m])];
            (Dead(r) || (!IsLink(r) && 1 <= r.b <= m) ==> Walk(t, i, m, S, p) == Some((r, p)))
            && (IsLink(r) && 1 <= r.b <= m && r.v > i ==> Walk(t, i, m, S, p) == Walk(t, r.v, r.e - 16, S, p + r.b))
  {}

  lemma StopFinds(C: Code, B: Built, l: nat, S: seq<bool>, p: nat, i: nat, idx: nat)
    requires CodeOk(C) && !Oversubscribed(C.lens) && Shape(B, l) && i < |B.t| && idx < Pow2(B.log[i])
    requires GoodCell(C, B, l, i, idx) && !LinkTo(B, l, B.t[i][idx], i, Cell(B, l, i, idx))
    requires p + M <= |S| && Cell(B, l, i, idx) <= S[p..p + M]
    ensures var r := B.t[i][idx];
            (Dead(r) || (!IsLink(r) && 1 <= r.b <= Eff(B.log[i], l))) && Finds(C, S, p, Some((r, p + |B.pre[i]|)))
  {
    var r, cell := B.t[i][idx], Cell(B, l, i, idx);
    hide Low, Pow2, Filled, Finds, CodeOk, Oversubscribed, Shape, LinkTo;
    if n: nat :| Leaf(C, r, |B.pre[i]|, cell, n) {
      LeafFinds(C, r, S, p, |B.pre[i]|, cell, n);
    } else {
      DeadFinds(C, r, S, p, |B.pre[i]|, cell);
    }
  }

  lemma LeafFinds(C: Code, r: Huft, S: seq<bool>, p: nat, w: nat, cell: seq<bool>, n: nat)
    requires CodeOk(C) && !Oversubscribed(C.lens) && p + M <= |S|
    requires Leaf(C, r, w, cell, n) && |cell| <= M && cell <= S[p..p + M]
    ensures !IsLink(r) && 1 <= r.b <= |cell| - w && Finds(C, S, p, Some((r, p + w)))
  {
    CodeFromPrefix(C.lens, S, p, n, cell);
    SymbolIs(C.lens, S, p, n);
  }

  lemma DeadFinds(C: Code, r: Huft, S: seq<bool>, p: nat, w: nat, cell: seq<bool>)
    requires CodeOk(C) && !Oversubscribed(C.lens) && p + M <= |S|
    requires Dead(r) && |cell| <= M && cell <= S[p..p + M] && Low(cell) >= Filled(C.lens, M)
    ensures !IsLink(r) && Finds(C, S, p, Some((r, p + w)))
  {
    forall n: nat
      ensures !CodeAt(C.lens, S, p, n)
    {
      NoCode(C.lens, S, p, cell, n);
    }
  }
}
