/** The steps of huft_build's main loop keep the tables right. */
module HuftSteps {
  import opened Bits
  import opened PrefixCodes
  import opened HuftTables

  // ---- Cells and codewords

  /** cw continues prefix pi; cell idx lies under cw exactly when its low index bits are the rest of cw. */
  lemma CellMatch(pi: seq<bool>, idx: nat, m: nat, cw: seq<bool>)
    requires pi <= cw && |cw| <= |pi| + m
    ensures cw <= pi + ToBits(idx, m) <==> LowBits(idx, |cw| - |pi|) == Val(cw[|pi|..])
  {
    hide *;
    var n, rest := |cw| - |pi|, cw[|pi|..];
    LowIndexBits(idx, rest);
    ToBitsSplit(idx, n, m - n);
    assert cw == pi + rest;
    var t, u := ToBits(idx, n), ToBits(Shr(idx, n), m - n);
    assert ToBits(idx, m) == t + u;
    ExtendPrefix(pi, rest, t, u);
    SamePrefix(cw, pi + rest, pi + ToBits(idx, m), pi + (t + u));
  }

  lemma LowIndexBits(idx: nat, s: seq<bool>)
    ensures s == ToBits(idx, |s|) <==> LowBits(idx, |s|) == Val(s)
  {
    ValToBits(idx, |s|);
    hide ToBits, Val, Pow2;
    assert LowBits(idx, |s|) == Val(ToBits(idx, |s|));
    hide LowBits;
    if Val(s) == Val(ToBits(idx, |s|)) {
      ValInjective(s, ToBits(idx, |s|));
    }
  }

  lemma SamePrefix(a: seq<bool>, a': seq<bool>, b: seq<bool>, b': seq<bool>)
    requires a == a' && b == b'
    ensures a <= b <==> a' <= b'
  {}

  lemma ExtendPrefix(a: seq<bool>, s: seq<bool>, t: seq<bool>, u: seq<bool>)
    requires |s| == |t|
    ensures a + s <= a + (t + u) <==> s == t
  {
    if a + s <= a + (t + u) {
      assert a + s == (a + (t + u))[..|a + s|] == a + t;
      assert s == (a + s)[|a|..] && t == (a + t)[|a|..];
    }
  }

  lemma IndexOfCell(idx: nat, l: nat)
    requires idx < Pow2(l)
    ensures Val(ToBits(idx, l)) == idx
  {
    ValToBits(idx, l);
    ModSmall(idx, Pow2(l));
  }

  /** A cell that begins inside the stretch of cw, and is at least as long, continues cw. */
  lemma BeginsUnder(cw: seq<bool>, cell: seq<bool>)
    requires |cw| <= |cell| <= M
    requires Low(cw) <= Low(cell) < End(cw)
    ensures cw <= cell
  {
    PrefixIffInside(cw, cell);
    hide Low;
  }

  lemma StretchesNest(s: seq<bool>, t: seq<bool>)
    requires s <= t && |t| <= M
    ensures Low(s) <= Low(t) && End(t) <= End(s)
  {
    PrefixIffInside(s, t);
    hide Low;
  }

  lemma {:induction false} ChainPrefix(B: Built, l: nat, h: nat, top: nat)
    requires Shape(B, l) && h <= top < |B.u| && Chain(B, l)
    ensures B.pre[B.u[h]] <= B.pre[B.u[top]]
    decreases top - h
  {
    if h < top {
      assert StackLink(B, l, h);
      ChainPrefix(B, l, h + 1, top);
      PrefixTransitive(B.pre[B.u[h]], B.pre[B.u[h + 1]], B.pre[B.u[top]]);
    }
  }

  lemma PrefixTransitive(a: seq<bool>, b: seq<bool>, c: seq<bool>)
    requires a <= b && b <= c
    ensures a <= c
  {}

  lemma PrefixTake(a: seq<bool>, b: seq<bool>, c: seq<bool>, k: nat)
    requires a <= b && b <= c && |b| <= k <= |c|
    ensures a <= c[..k]
  {}

  // ---- Writing the entries of one code

  ghost predicate GoodEntry(C: Code, r: Huft, w: nat, cw: seq<bool>)
    requires |cw| <= M
  {
    (exists n: nat :: EntryFor(C, r, w, cw, n)) || (Dead(r) && Low(cw) >= Filled(C.lens, M))
  }

  ghost predicate EntryFor(C: Code, r: Huft, w: nat, cw: seq<bool>, n: nat) {
    n < |C.lens| && n < C.s + |C.base| && |C.base| == |C.extra|
    && C.lens[n] == |cw| > w && Codeword(C.lens, n) == cw && r == SymbolEntry(C, n, |cw| - w)
  }

  /** q with r stored at every index whose low bits are those of the code. */
  ghost predicate Filling(q: seq<Huft>, q': seq<Huft>, r: Huft, n: nat, j: nat) {
    |q'| == |q|
    && forall idx :: 0 <= idx < |q| ==> q'[idx] == if LowBits(idx, n) == j then r else q[idx]
  }

  /** What the main loop knows when it writes the entries of the k-bit code that begins at pos. */
  ghost predicate AtCode(C: Code, B: Built, l: nat, pos: nat, k: nat) {
    Shape(B, l) && Cells(C, B, l, pos) && Stack(B, l, pos) && |B.u| > 0
    && k <= M && pos + Pow2(M - k) <= Pow2(M)
    && var top := Top(B);
       |B.pre[top]| < k <= |B.pre[top]| + Eff(B.log[top], l)
       && B.pre[top] <= Pat(pos)
       && (forall i :: k <= i < M ==> !Pat(pos)[i])
  }

  lemma AtCodeFacts(C: Code, B: Built, l: nat, pos: nat, k: nat)
    requires AtCode(C, B, l, pos, k)
    ensures Shape(B, l) && |B.u| > 0 && Top(B) < |B.t| == |B.pre| == |B.log| && |B.pre[Top(B)]| < k <= M && l >= 1
    ensures B.pre[Top(B)] <= Pat(pos) && k <= |B.pre[Top(B)]| + Eff(B.log[Top(B)], l) && pos + Pow2(M - k) <= Pow2(M) && Pow2(M - k) > 0
    ensures forall i :: k <= i < M ==> !Pat(pos)[i]
  {
    hide Cells, Closed, StackLink, Pat, Low;
  }

  lemma CodeBegins(pos: nat, k: nat)
    requires k <= M && pos < Pow2(M)
    requires forall i :: k <= i < M ==> !Pat(pos)[i]
    ensures Low(Pat(pos)[..k]) == pos
  {
    LowZeros(Pat(pos), k);
    LowPat(pos);
  }

  lemma FillCell(C: Code, B: Built, l: nat, pos: nat, k: nat, r: Huft, q: seq<Huft>, idx: nat)
    requires AtCode(C, B, l, pos, k)
    requires var top := Top(B);
             var w := |B.pre[top]|;
             Filling(B.t[top], q, r, k - w, Val(Pat(pos)[w..k]))
             && GoodEntry(C, r, w, Pat(pos)[..k])
             && idx < Pow2(Eff(B.log[top], l)) && Low(Cell(B, l, top, idx)) < pos + Pow2(M - k)
    ensures var top := Top(B);
            var B' := B.(t := B.t[top := q]);
            Shape(B', l) && idx < Pow2(B.log[top]) && GoodCell(C, B', l, top, idx)
  {
    hide *;
    AtCodeFacts(C, B, l, pos, k);
    CodeParts(C, B, l, pos, k, idx);
    EffInside(B, l, Top(B), idx);
    var top := Top(B);
    var w := |B.pre[top]|;
    var B' := B.(t := B.t[top := q]);
    var cw, cell := Pat(pos)[..k], Cell(B, l, top, idx);
    FilledEntry(B.t[top], q, r, k - w, Val(Pat(pos)[w..k]), idx);
    SameCell(B, l, top, q, idx);
    if Low(cell) < pos {
      if cw <= cell { StretchesNest(cw, cell); }
      OldCell(C, B, l, top, q, idx, pos);
    } else {
      BeginsUnder(cw, cell);
      NewCell(C, B', l, top, idx, cw);
    }
  }

  lemma CodeParts(C: Code, B: Built, l: nat, pos: nat, k: nat, idx: nat)
    requires AtCode(C, B, l, pos, k)
    ensures var top := Top(B);
            var w, cw, cell := |B.pre[top]|, Pat(pos)[..k], Cell(B, l, top, idx);
            w < k <= |cell| <= M && Low(cw) == pos && Cells(C, B, l, pos)
            && End(cw) == pos + Pow2(M - k) && (cw <= cell <==> LowBits(idx, k - w) == Val(Pat(pos)[w..k]))
  {
    hide Val, ToBits, Pow2, Pat, LowBits, Low, Cells, Stack;
    AtCodeFacts(C, B, l, pos, k);
    CodeCell(B.pre[Top(B)], Eff(B.log[Top(B)], l), pos, k, idx);
    CodeBegins(pos, k);
  }

  lemma EffInside(B: Built, l: nat, i: nat, idx: nat)
    requires Shape(B, l) && i < |B.t| && idx < Pow2(Eff(B.log[i], l))
    ensures idx < Pow2(B.log[i]) == |B.t[i]|
  {
    hide Pow2;
    Pow2Monotone(Eff(B.log[i], l), B.log[i]);
  }

  lemma FilledEntry(q: seq<Huft>, q': seq<Huft>, r: Huft, n: nat, j: nat, idx: nat)
    requires Filling(q, q', r, n, j) && (idx < |q| || idx < |q'|)
    ensures idx < |q'| == |q| && q'[idx] == if LowBits(idx, n) == j then r else q[idx]
  {}

  lemma SameCell(B: Built, l: nat, i: nat, q: seq<Huft>, idx: nat)
    requires Shape(B, l) && i < |B.t| && |q| == |B.t[i]|
    ensures Shape(B.(t := B.t[i := q]), l) && Cell(B.(t := B.t[i := q]), l, i, idx) == Cell(B, l, i, idx)
  {
    hide Pow2, ToBits;
  }

  /** A cell that was right, and has the same entry. */
  lemma OldCell(C: Code, B: Built, l: nat, i: nat, q: seq<Huft>, idx: nat, pos: nat)
    requires Shape(B, l) && i < |B.t| && |q| == |B.t[i]| && Cells(C, B, l, pos) && Shape(B.(t := B.t[i := q]), l)
    requires idx < Pow2(Eff(B.log[i], l)) && Low(Cell(B, l, i, idx)) < pos && idx < |q| && q[idx] == B.t[i][idx]
    ensures idx < Pow2(B.log[i]) && GoodCell(C, B.(t := B.t[i := q]), l, i, idx)
  {
    hide Pow2, ToBits, Low, Leaf, Filled;
    assert GoodCell(C, B, l, i, idx);
    assert Cell(B.(t := B.t[i := q]), l, i, idx) == Cell(B, l, i, idx);
  }

  /** A cell under the code's stretch, once the entry is stored there. */
  lemma NewCell(C: Code, B: Built, l: nat, i: nat, idx: nat, cw: seq<bool>)
    requires Shape(B, l) && i < |B.t| && idx < Pow2(B.log[i]) && |cw| <= M && cw <= Cell(B, l, i, idx) && |B.pre[i]| <= |cw|
    requires GoodEntry(C, B.t[i][idx], |B.pre[i]|, cw) && Low(cw) <= Low(Cell(B, l, i, idx))
    ensures GoodCell(C, B, l, i, idx)
  {
    hide Pow2, Filled, Low, Cell, Codeword;
    var r, w := B.t[i][idx], |B.pre[i]|;
    if n: nat :| EntryFor(C, r, w, cw, n) {
      assert Leaf(C, r, w, Cell(B, l, i, idx), n);
    }
  }

  lemma CodeCell(pi: seq<bool>, m: nat, pos: nat, k: nat, idx: nat)
    requires pi <= Pat(pos) && |pi| < k <= |pi| + m && k <= M
    ensures Pat(pos)[..k] <= pi + ToBits(idx, m) <==> LowBits(idx, k - |pi|) == Val(Pat(pos)[|pi|..k])
  {
    hide *;
    var cw := Pat(pos)[..k];
    assert cw[|pi|..] == Pat(pos)[|pi|..k];
    PrefixTake(pi, pi, Pat(pos), k);
    CellMatch(pi, idx, m, cw);
  }

  lemma OtherCell(C: Code, B: Built, l: nat, pos: nat, k: nat, i: nat, idx: nat)
    requires AtCode(C, B, l, pos, k)
    requires i < |B.t| && i != Top(B) && idx < Pow2(Eff(B.log[i], l))
    requires Low(Cell(B, l, i, idx)) < pos + Pow2(M - k)
    ensures idx < Pow2(B.log[i]) && GoodCell(C, B, l, i, idx)
  {
    hide Pow2, ToBits, Val, Pat, Leaf, Filled, Low;
    var cell := Cell(B, l, i, idx);
    EffInside(B, l, i, idx);
    if Low(cell) >= pos {
      StretchesNest(B.pre[i], cell);
      Pow2Monotone(0, M - |cell|);
      assert End(B.pre[i]) > pos;
      var h :| 0 <= h < |B.u| && B.u[h] == i;
      assert StackLink(B, l, h);
      OnStack(B, l, pos, k, h, idx);
    }
  }

  /** Below the top of the stack, a cell that begins inside the current code is the link upwards. */
  lemma OnStack(B: Built, l: nat, pos: nat, k: nat, h: nat, idx: nat)
    requires Shape(B, l) && Stack(B, l, pos) && h + 1 < |B.u|
    requires k <= M && pos + Pow2(M - k) <= Pow2(M)
    requires |B.pre[Top(B)]| < k && B.pre[Top(B)] <= Pat(pos)
    requires forall i :: k <= i < M ==> !Pat(pos)[i]
    requires idx < Pow2(Eff(B.log[B.u[h]], l))
    requires pos <= Low(Cell(B, l, B.u[h], idx)) < pos + Pow2(M - k)
    ensures idx < Pow2(B.log[B.u[h]]) && LinkTo(B, l, B.t[B.u[h]][idx], B.u[h], Cell(B, l, B.u[h], idx))
  {
    hide Low, Pat, Pow2, Val, Closed, Chain, ToBits;
    LinkOf(B, l, h);
    ChainPrefix(B, l, h + 1, |B.u| - 1);
    PrefixTransitive(B.pre[B.u[h + 1]], B.pre[Top(B)], Pat(pos));
    ChainLength(B, l, h + 1, |B.u| - 1);
    UnderLink(B.pre[B.u[h]], B.pre[B.u[h + 1]], l, idx, pos, k);
  }

  lemma LinkOf(B: Built, l: nat, h: nat)
    requires Shape(B, l) && Chain(B, l) && h + 1 < |B.u|
    ensures StackLink(B, l, h) && forall e :: 0 <= e < |B.u| ==> B.u[e] < |B.t|
  {}

  lemma ChainLength(B: Built, l: nat, h: nat, top: nat)
    requires Shape(B, l) && h <= top < |B.u| && Chain(B, l)
    ensures |B.pre[B.u[h]]| <= |B.pre[B.u[top]]|
  {
    ChainPrefix(B, l, h, top);
  }

  lemma UnderLink(pi: seq<bool>, up: seq<bool>, l: nat, idx: nat, pos: nat, k: nat)
    requires pi <= up && |up| == |pi| + l && up <= Pat(pos) && |up| <= k <= M
    requires idx < Pow2(l) && pos + Pow2(M - k) <= Pow2(M)
    requires forall i :: k <= i < M ==> !Pat(pos)[i]
    requires pos <= Low(pi + ToBits(idx, l)) < pos + Pow2(M - k)
    ensures pi + ToBits(idx, l) == up && idx == Val(up[|pi|..])
  {
    var cell, cw := pi + ToBits(idx, l), Pat(pos)[..k];
    CodeBegins(pos, k);
    hide Low, Pat, Pow2, Val, ToBits;
    PrefixTake(up, up, Pat(pos), k);
    StretchesNest(up, cw);
    BeginsUnder(up, cell);
    assert up == cell;
    assert up[|pi|..] == ToBits(idx, l);
    IndexOfCell(idx, l);
  }

  lemma {:induction false} StackDistinct(B: Built, l: nat, pos: nat, g: nat, h: nat)
    requires Shape(B, l) && Stack(B, l, pos) && g < h < |B.u|
    ensures |B.pre[B.u[g]]| < |B.pre[B.u[h]]| && B.u[g] != B.u[h]
    decreases h
  {
    assert StackLink(B, l, h - 1);
    if g < h - 1 { StackDistinct(B, l, pos, g, h - 1); }
  }

  /** Writing the entries of the code at pos makes everything below the end of its stretch right. */
  lemma FillStep(C: Code, B: Built, l: nat, pos: nat, k: nat, r: Huft, q: seq<Huft>)
    requires AtCode(C, B, l, pos, k)
    requires var top := Top(B);
             var w := |B.pre[top]|;
             Filling(B.t[top], q, r, k - w, Val(Pat(pos)[w..k])) && GoodEntry(C, r, w, Pat(pos)[..k])
    ensures var B' := B.(t := B.t[Top(B) := q]);
            Shape(B', l) && Cells(C, B', l, pos + Pow2(M - k)) && Stack(B', l, pos + Pow2(M - k))
  {
    var top := Top(B);
    var B' := B.(t := B.t[top := q]);
    var pos' := pos + Pow2(M - k);
    Pow2Monotone(0, M - k);
    hide Val, Pat, Low, Pow2, LowBits, Filled, GoodCell, StackLink;
    forall i: nat, idx: nat | i < |B'.t| && idx < Pow2(Eff(B'.log[i], l)) && Low(Cell(B', l, i, idx)) < pos'
      ensures idx < Pow2(B'.log[i]) && GoodCell(C, B', l, i, idx)
    {
      assert Cell(B', l, i, idx) == Cell(B, l, i, idx);
      if i == top {
        FillCell(C, B, l, pos, k, r, q, idx);
      } else {
        OtherCell(C, B, l, pos, k, i, idx);
        KeepCell(C, B, B', l, i, idx);
      }
    }
    OldLinks(B, B', l, pos);
  }

  // ---- Opening and closing tables

  lemma FirstTable(C: Code, l: nat, q: seq<Huft>, j: nat)
    requires 1 <= l && 1 <= j && |q| == Pow2(j) && Eff(j, l) <= M
    ensures var B := Built([q], [[]], [j], [0]);
            Shape(B, l) && Cells(C, B, l, 0) && Stack(B, l, 0) && B.pre[0] <= Pat(0)
  {
    var B := Built([q], [[]], [j], [0]);
    assert Shape(B, l);
  }

  /** What the main loop knows when it opens a table for the prefix of pos that is l bits longer. */
  ghost predicate AtLink(C: Code, B: Built, l: nat, pos: nat) {
    Shape(B, l) && Cells(C, B, l, pos) && Stack(B, l, pos) && |B.u| > 0 && pos < Pow2(M)
    && var top := Top(B);
       B.log[top] >= l && B.pre[top] <= Pat(pos)
       && forall i :: |B.pre[top]| + l <= i < M ==> !Pat(pos)[i]
  }

  ghost function Linked(B: Built, l: nat, pos: nat, q: seq<Huft>, j: nat): Built
    requires Shape(B, l) && |B.u| > 0 && Top(B) < |B.t|
    requires |B.pre[Top(B)]| + l <= M
    requires Val(Pat(pos)[|B.pre[Top(B)]|..]) < |B.t[Top(B)]|
  {
    var top := Top(B);
    var w := |B.pre[top]|;
    Built(B.t[top := B.t[top][Val(Pat(pos)[w..]) := Huft(16 + j, l, |B.t|)]] + [q],
          B.pre + [Pat(pos)[..w + l]], B.log + [j], B.u + [|B.t|])
  }

  /** The link index: the bits of the code that the table is indexed by, for the later ones are zero. */
  lemma {:induction false} ValTail(s: seq<bool>, w: nat, n: nat)
    requires w + n <= |s| && forall i :: w + n <= i < |s| ==> !s[i]
    ensures Val(s[w..]) == Val(s[w..w + n]) < Pow2(n)
  {
    var a, b := s[w..w + n], s[w + n..];
    assert s[w..] == a + b;
    assert b == Zeros(|b|);
    ValZeros(|b|);
    ValConcat(a, b);
    ValBound(a);
    hide Val, Pow2;
  }

  lemma AtLinkFacts(C: Code, B: Built, l: nat, pos: nat)
    requires AtLink(C, B, l, pos)
    ensures Shape(B, l) && |B.u| > 0 && Top(B) < |B.t| == |B.pre| == |B.log| && |B.pre[Top(B)]| + l <= M && B.log[Top(B)] >= l >= 1
    ensures B.pre[Top(B)] <= Pat(pos) && pos < Pow2(M) && forall i :: |B.pre[Top(B)]| + l <= i < M ==> !Pat(pos)[i]
  {
    hide Cells, Closed, StackLink, Pat, Pow2;
  }

  lemma LinkIndex(C: Code, B: Built, l: nat, pos: nat)
    requires AtLink(C, B, l, pos)
    ensures var top := Top(B);
            var w := |B.pre[top]|;
            var idx := Val(Pat(pos)[w..]);
            idx == Val(Pat(pos)[w..w + l]) < Pow2(l) && idx < Pow2(B.log[top]) && Pow2(l) <= Pow2(B.log[top])
            && Cell(B, l, top, idx) == Pat(pos)[..w + l] && Low(Pat(pos)[..w + l]) == pos
  {
    hide *;
    AtLinkFacts(C, B, l, pos);
    var top := Top(B);
    var w := |B.pre[top]|;
    ValTail(Pat(pos), w, l);
    Pow2Monotone(l, B.log[top]);
    PrefixParts(B.pre[top], Pat(pos), w, l);
    CellOf(B, l, top, Pat(pos)[w..w + l]);
    CodeBegins(pos, w + l);
  }

  lemma PrefixParts(s: seq<bool>, t: seq<bool>, w: nat, l: nat)
    requires s <= t && |s| == w && w + l <= |t|
    ensures s + t[w..w + l] == t[..w + l]
  {}

  /** The cell that l bits lead to, in a table of that many or more. */
  lemma CellOf(B: Built, l: nat, i: nat, s: seq<bool>)
    requires Shape(B, l) && i < |B.t| && B.log[i] >= l == |s|
    ensures Cell(B, l, i, Val(s)) == B.pre[i] + s
  {
    ToBitsVal(s);
    hide ToBits, Val, Pow2;
  }

  lemma LinkStep(C: Code, B: Built, l: nat, pos: nat, q: seq<Huft>, j: nat)
    requires AtLink(C, B, l, pos)
    requires 1 <= j <= 32 && |q| == Pow2(j) && |B.pre[Top(B)]| + l + Eff(j, l) <= M
    ensures Val(Pat(pos)[|B.pre[Top(B)]|..]) < |B.t[Top(B)]|
    ensures var B' := Linked(B, l, pos, q, j);
            Shape(B', l) && Cells(C, B', l, pos) && Stack(B', l, pos) && B'.pre[|B.t|] <= Pat(pos)
  {
    var top, new_ := Top(B), |B.t|;
    var w := |B.pre[top]|;
    LinkIndex(C, B, l, pos);
    var at := Val(Pat(pos)[w..]);
    var B' := Linked(B, l, pos, q, j);
    assert Pat(pos)[..w + l][w..] == Pat(pos)[w..w + l];
    hide Val, Pat, Low, Pow2;
    assert Shape(B', l);
    LinkCells(C, B, B', l, pos, at);
    LinkStack(B, B', l, pos, at, Pat(pos)[..w + l]);
  }

  lemma LinkCells(C: Code, B: Built, B': Built, l: nat, pos: nat, at: nat)
    requires Shape(B, l) && Cells(C, B, l, pos) && Shape(B', l) && |B.u| > 0 && Top(B) < |B.t|
    requires |B'.t| == |B.t| + 1 && B.pre <= B'.pre && B.log <= B'.log && Low(B'.pre[|B.t|]) == pos
    requires at < |B.t[Top(B)]| && Low(Cell(B, l, Top(B), at)) == pos
    requires |B'.t[Top(B)]| == |B.t[Top(B)]|
    requires forall idx :: 0 <= idx < |B.t[Top(B)]| && idx != at
                           ==> B'.t[Top(B)][idx] == B.t[Top(B)][idx]
    requires forall i :: 0 <= i < |B.t| && i != Top(B) ==> B'.t[i] == B.t[i]
    ensures Cells(C, B', l, pos)
  {
    hide Val, Low, Pow2, GoodCell;
    forall i: nat, idx: nat | i < |B'.t| && idx < Pow2(Eff(B'.log[i], l)) && Low(Cell(B', l, i, idx)) < pos
      ensures idx < Pow2(B'.log[i]) && GoodCell(C, B', l, i, idx)
    {
      if i == |B.t| {
        StretchesNest(B'.pre[i], Cell(B', l, i, idx));
      } else {
        assert Cell(B', l, i, idx) == Cell(B, l, i, idx);
        assert GoodCell(C, B, l, i, idx);
        KeepCell(C, B, B', l, i, idx);
      }
    }
  }

  lemma KeepCell(C: Code, B: Built, B': Built, l: nat, i: nat, idx: nat)
    requires Shape(B, l) && Shape(B', l) && B.pre <= B'.pre && B.log <= B'.log
    requires i < |B.t| && idx < Pow2(B.log[i]) && GoodCell(C, B, l, i, idx)
    requires B'.t[i][idx] == B.t[i][idx]
    ensures GoodCell(C, B', l, i, idx)
  {
    var r, cell := B.t[i][idx], Cell(B, l, i, idx);
    assert Cell(B', l, i, idx) == cell;
    hide Cell, Low, Filled;
    if n: nat :| Leaf(C, r, |B.pre[i]|, cell, n) {
      assert Leaf(C, r, |B'.pre[i]|, cell, n);
    } else if LinkTo(B, l, r, i, cell) {
      assert LinkTo(B', l, r, i, cell);
    }
  }

  lemma LinkStack(B: Built, B': Built, l: nat, pos: nat, at: nat, up: seq<bool>)
    requires Shape(B, l) && Stack(B, l, pos) && |B.u| > 0 && B.log[Top(B)] >= l && Shape(B', l)
    requires var pi := B.pre[Top(B)];
             pi <= up && |up| == |pi| + l && at == Val(up[|pi|..])
    requires at < |B.t[Top(B)]| && at < Pow2(l)
    requires |B'.t| == |B.t| + 1 && B'.pre == B.pre + [up]
    requires B.log <= B'.log && B'.log[|B.t|] <= 32 && B'.u == B.u + [|B.t|]
    requires B'.t[Top(B)] == B.t[Top(B)][at := Huft(16 + B'.log[|B.t|], l, |B.t|)]
    requires forall i :: 0 <= i < |B.t| && i != Top(B) ==> B'.t[i] == B.t[i]
    ensures Stack(B', l, pos)
  {
    OldLinks(B, B', l, pos);
    NewLink(B, B', l, at, up);
    ClosedTables(B, B', l, pos);
    ChainExtend(B, B', l);
    hide Chain, Closed, StackLink, Shape;
  }

  lemma ChainExtend(B: Built, B': Built, l: nat)
    requires Shape(B, l) && Shape(B', l) && Chain(B, l) && |B.u| > 0
    requires |B'.t| == |B.t| + 1 && B.pre <= B'.pre && B'.u == B.u + [|B.t|]
    requires forall h :: 0 <= h < |B.u| - 1 ==> StackLink(B', l, h)
    requires StackLink(B', l, |B.u| - 1)
    ensures Chain(B', l)
  {
    hide StackLink, Pow2;
  }

  lemma OldLinks(B: Built, B': Built, l: nat, pos: nat)
    requires Shape(B, l) && Stack(B, l, pos) && Shape(B', l) && |B.u| > 0
    requires B.pre <= B'.pre && B.log <= B'.log && B.u <= B'.u
    requires forall i :: 0 <= i < |B.t| && i != Top(B) ==> B'.t[i] == B.t[i]
    ensures forall h :: 0 <= h < |B.u| - 1 ==> StackLink(B', l, h)
  {
    forall h | 0 <= h < |B.u| - 1
      ensures StackLink(B', l, h)
    {
      StackDistinct(B, l, pos, h, |B.u| - 1);
      assert StackLink(B, l, h);
      hide StackLink;
      KeepLink(B, B', l, h);
    }
  }

  lemma NewLink(B: Built, B': Built, l: nat, at: nat, up: seq<bool>)
    requires Shape(B, l) && Shape(B', l) && |B.u| > 0 && Top(B) < |B.t|
    requires var pi := B.pre[Top(B)];
             pi <= up && |up| == |pi| + l && at == Val(up[|pi|..])
    requires B.log[Top(B)] >= l && at < |B.t[Top(B)]| && at < Pow2(l)
    requires |B'.t| == |B.t| + 1 && B'.pre == B.pre + [up]
    requires B.log <= B'.log && B'.log[|B.t|] <= 32 && B'.u == B.u + [|B.t|]
    requires B'.t[Top(B)] == B.t[Top(B)][at := Huft(16 + B'.log[|B.t|], l, |B.t|)]
    ensures StackLink(B', l, |B.u| - 1)
  {
    hide Val, Pow2;
  }

  lemma ClosedTables(B: Built, B': Built, l: nat, pos: nat)
    requires Shape(B, l) && Shape(B', l) && Stack(B, l, pos)
    requires |B'.t| == |B.t| + 1 && B.pre <= B'.pre && B'.u == B.u + [|B.t|]
    ensures Closed(B', l, pos)
  {
    hide StackLink, End;
    InAppend(B.u, |B.t|);
  }

  lemma KeepLink(B: Built, B': Built, l: nat, h: nat)
    requires Shape(B, l) && Shape(B', l) && B.pre <= B'.pre && B.log <= B'.log && B.u <= B'.u
    requires h + 1 < |B.u| && StackLink(B, l, h) && B'.t[B.u[h]] == B.t[B.u[h]]
    ensures StackLink(B', l, h)
  {
    hide Val, Pow2;
  }

  lemma InAppend<T>(s: seq<T>, x: T)
    ensures forall y :: y in s + [x] <==> y in s || y == x
  {}

  /** Leaving a table whose prefix ends at pos. */
  lemma PopStep(C: Code, B: Built, l: nat, pos: nat)
    requires Shape(B, l) && Cells(C, B, l, pos) && Stack(B, l, pos) && |B.u| > 1
    requires End(B.pre[Top(B)]) <= pos
    ensures var B' := B.(u := B.u[..|B.u| - 1]);
            Shape(B', l) && Cells(C, B', l, pos) && Stack(B', l, pos)
  {
    var last := |B.u| - 1;
    var B' := B.(u := B.u[..last]);
    hide Low, End;
    forall i: nat, idx: nat | i < |B'.t| && idx < Pow2(Eff(B'.log[i], l)) && Low(Cell(B', l, i, idx)) < pos
      ensures idx < Pow2(B'.log[i]) && GoodCell(C, B', l, i, idx)
    {
      assert Cell(B', l, i, idx) == Cell(B, l, i, idx);
      KeepCell(C, B, B', l, i, idx);
    }
    forall h | 0 <= h < |B'.u| - 1
      ensures StackLink(B', l, h)
    {
      assert StackLink(B, l, h);
    }
    forall i | 0 <= i < |B'.t| && End(B'.pre[i]) > pos
      ensures i in B'.u
    {
      var h :| 0 <= h < |B.u| && B.u[h] == i;
      assert B'.u[h] == i;
    }
  }
}
