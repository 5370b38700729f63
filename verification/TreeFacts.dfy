/** What the trees of a block are good for, once build_tree has made them. */
module TreeFacts {
  import opened Bits
  import opened PrefixCodes
  import opened Lz77
  import opened Rfc1951
  import opened Sums
  import opened Huffman
  import opened Tokens
  import opened Trees
  import opened CodeLengths
  import opened FirstPass
  import opened SecondPass
  import opened Forcing
  import opened Blocks
  import opened TokenCounts

  ghost predicate TokensOk(toks: seq<Token>) { forall i :: 0 <= i < |toks| ==> TokenOk(toks[i]) }

  lemma {:induction false} FreqTotals(toks: seq<Token>, n: nat)
    requires n <= |toks|
    ensures Total(Used(LitFreqs(toks, n)), LitFreqs(toks, n)) == n + 1
    ensures Total(Used(DistFreqs(toks, n)), DistFreqs(toks, n)) <= n
  {
    hide Used, Cost, Total, Raised;
    if n == 0 {
      var Z, Y := Repeat(0, L_CODES), Repeat(0, D_CODES);
      NoCost(Z, Z);
      CostRaised(Z, END_OF_BLOCK, Z);
      NoCost(Y, Y);
    } else {
      FreqTotals(toks, n - 1);
      CostRaised(LitFreqs(toks, n - 1), LitSymbol(toks[n - 1]), LitFreqs(toks, n - 1));
      if toks[n - 1].Match? {
        CostRaised(DistFreqs(toks, n - 1), DistBand(toks[n - 1].dist), DistFreqs(toks, n - 1));
      }
    }
  }

  /** F keeps the frequencies of F0. */
  ghost predicate Keeps(F: seq<nat>, F0: seq<nat>) {
    |F| == |F0| && forall i :: 0 <= i < |F| && F0[i] != 0 ==> F[i] == F0[i]
  }

  lemma GoodFacts(F: seq<nat>, lens: seq<nat>, maxCode: nat, maxLen: nat, depths: seq<nat>, F0: seq<nat>)
    requires GoodLengths(F, lens, maxCode, maxLen, depths) && Keeps(F, F0)
    ensures |F0| == |lens| && maxCode < |lens| && Complete(lens[..maxCode + 1])
    ensures forall i :: 0 <= i < |lens| && F0[i] != 0 ==> i <= maxCode && lens[i] >= 1
    ensures forall i :: 0 <= i < |lens| ==> lens[i] <= maxLen
    ensures forall i :: maxCode < i < |lens| ==> lens[i] == 0
  {
    hide Complete, Best;
  }

  /** Every token of the block can be coded. */
  lemma BlockEncodable(toks: seq<Token>, ll: seq<nat>, dl: seq<nat>)
    requires TokensOk(toks) && |ll| <= L_CODES && |dl| <= D_CODES
    requires forall i :: 0 <= i < L_CODES && LitFreqs(toks, |toks|)[i] != 0 ==> i < |ll| && ll[i] >= 1
    requires forall i :: 0 <= i < D_CODES && DistFreqs(toks, |toks|)[i] != 0 ==> i < |dl| && dl[i] >= 1
    ensures AllEncodable(ll, dl, toks) && END_OF_BLOCK < |ll| && ll[END_OF_BLOCK] > 0
  {
    hide LitFreqs, DistFreqs, BandOf;
    EndCounted(toks, |toks|);
    forall i | 0 <= i < |toks|
      ensures Encodable(ll, dl, toks[i])
    {
      UsedCounted(toks, |toks|, i);
      TokenBands(toks[i]);
    }
  }

  lemma TokenBands(t: Token)
    requires TokenOk(t)
    ensures LitSymbol(t) < L_CODES && (t.Match? ==> DistBand(t.dist) < D_CODES)
  {}

  lemma FixedEncodable(toks: seq<Token>)
    requires TokensOk(toks)
    ensures AllEncodable(FixedLit(), FixedDist(), toks) && END_OF_BLOCK < |FixedLit()| && FixedLit()[END_OF_BLOCK] == 7
  {
    hide BandOf;
    forall i | 0 <= i < |toks|
      ensures Encodable(FixedLit(), FixedDist(), toks[i])
    {
      TokenBands(toks[i]);
    }
  }

  /** No token takes more than 31 bits with the fixed codes. */
  lemma FixedTokenSize(t: Token)
    requires Encodable(FixedLit(), FixedDist(), t)
    ensures |TokenBits(FixedLit(), FixedDist(), t)| <= 31
  {
    hide BandOf, Codeword;
    BandsOk();
    LitLength(LitSymbol(t));
    hide Pow2, FixedLit;
  }

  lemma LitLength(s: nat)
    requires s < L_CODES
    ensures FixedLit()[s] <= 9 && (s > 256 ==> FixedLit()[s] <= 8)
  {}

  lemma {:induction false} FixedSize(toks: seq<Token>, n: nat)
    requires n <= |toks| && AllEncodable(FixedLit(), FixedDist(), toks)
    ensures |TokensBits(FixedLit(), FixedDist(), toks, n)| <= 31 * n
  {
    hide Encodable, TokenBits, FixedLit, FixedDist;
    if n > 0 {
      FixedSize(toks, n - 1);
      FixedTokenSize(toks[n - 1]);
    }
  }

  /** A block the stored form of which is shorter fits its 16-bit length field. */
  lemma StoredFits(toks: seq<Token>, storedLen: nat, optLenb: nat, staticLen: nat)
    requires AllEncodable(FixedLit(), FixedDist(), toks) && |toks| < 8192 && END_OF_BLOCK < |FixedLit()|
    requires staticLen == |BlockBits(FixedLit(), FixedDist(), toks)| && optLenb <= (staticLen + 3 + 7) / 8
    requires storedLen + 4 <= optLenb
    ensures storedLen < 65536
  {
    hide Encodable, TokensBits, FixedDist, AllEncodable;
    FixedSize(toks, |toks|);
    assert FixedLit()[END_OF_BLOCK] == 7;
    hide FixedLit;
  }

  // ---- The code length code

  lemma ZeroTail(lens: seq<nat>, n: nat)
    requires n <= |lens| && forall i :: n <= i < |lens| ==> lens[i] == 0
    ensures lens == lens[..n] + Repeat(0, |lens| - n)
  {}

  /** The 19 lengths of the code length code, whatever the last symbol in use. */
  lemma WholeCode(tree: seq<CtData>, cl: seq<nat>, n: nat)
    requires |cl| == BL_CODES <= |tree| && n <= BL_CODES && cl == Lens(tree, BL_CODES) && Lens(tree, n) == cl[..n]
    requires (forall i :: n <= i < BL_CODES ==> cl[i] == 0) && Complete(cl[..n]) && Coded(tree, cl[..n])
    ensures Complete(cl) && Coded(tree, cl)
  {
    hide Complete, Codeword, ToBits, Pow2;
    ZeroTail(cl, n);
    PaddedCode(cl[..n], BL_CODES - n);
    forall i | 0 <= i < BL_CODES
      ensures tree[i].dl == cl[i] <= MAX_BITS
              && (cl[i] > 0 ==> tree[i].fc < Pow2(cl[i]) && ToBits(tree[i].fc, cl[i]) == Codeword(cl, i))
    {
      if i < n {
        assert cl[..n][i] == cl[i];
      }
    }
  }

  /** The symbols sent for the code lengths all have a code. */
  lemma SymsSendable(cl: seq<nat>, a: seq<Sym>, b: seq<Sym>, F: seq<nat>)
    requires |cl| == BL_CODES == |F| && (forall i :: 0 <= i < |a| ==> SymOk(a[i])) && forall i :: 0 <= i < |b| ==> SymOk(b[i])
    requires F == Tallied(Tallied(Repeat(0, BL_CODES), a, |a|), b, |b|)
    requires forall i :: 0 <= i < BL_CODES && F[i] != 0 ==> cl[i] >= 1
    ensures AllSendable(cl, a) && AllSendable(cl, b)
  {
    hide Tallied, SymOk;
    var G := Tallied(Repeat(0, BL_CODES), a, |a|);
    SymsTotal(a, |a|, Repeat(0, BL_CODES));
    SymsTotal(b, |b|, G);
    forall i | 0 <= i < |a| ensures Sendable(cl, a[i]) { SymIn(a[i]); }
    forall i | 0 <= i < |b| ensures Sendable(cl, b[i]) { SymIn(b[i]); }
  }

  lemma SymIn(s: Sym)
    requires SymOk(s)
    ensures s.code < BL_CODES
  {}

  lemma SymsCost(cl: seq<nat>, cb: seq<nat>, a: seq<Sym>, b: seq<Sym>, F: seq<nat>)
    requires |cl| == BL_CODES == |F| == |cb| && AllSendable(cl, a) && AllSendable(cl, b)
    requires F == Tallied(Tallied(Repeat(0, BL_CODES), a, |a|), b, |b|)
    requires forall s :: 0 <= s < BL_CODES ==> cb[s] == cl[s] + Width(s)
    ensures Cost(Used(F), F, cb) == |SymsBits(cl, a, |a|)| + |SymsBits(cl, b, |b|)|
  {
    hide Tallied, Sendable, Used, Cost, SymsBits, AllSendable;
    var Z := Repeat(0, BL_CODES);
    NoCost(Z, cb);
    SymsSize(cl, cb, a, |a|, Z);
    SymsSize(cl, cb, b, |b|, Tallied(Z, a, |a|));
  }

  lemma RunsOk(lens: seq<nat>)
    requires forall i :: 0 <= i < |lens| ==> lens[i] <= MAX_BITS
    ensures |Runs(lens)| <= |lens| && forall i :: 0 <= i < |Runs(lens)| ==> SymOk(Runs(lens)[i])
  {
    hide RunsFrom, SymOk;
    StartOfRuns(lens, []);
    RunsShort(lens, 0, 0, -1);
  }

  lemma SymTotals(a: seq<Sym>, b: seq<Sym>)
    requires (forall i :: 0 <= i < |a| ==> SymOk(a[i])) && forall i :: 0 <= i < |b| ==> SymOk(b[i])
    ensures var F := Tallied(Tallied(Repeat(0, BL_CODES), a, |a|), b, |b|);
            Total(Used(F), F) == |a| + |b|
  {
    hide Tallied, SymOk, Used, Total;
    var Z := Repeat(0, BL_CODES);
    NoCost(Z, Z);
    SymsTotal(a, |a|, Z);
    SymsTotal(b, |b|, Tallied(Z, a, |a|));
  }

  /** Only the guard was set. */
  lemma CodedKept(tree: seq<CtData>, tree': seq<CtData>, lens: seq<nat>)
    requires Coded(tree, lens) && |tree'| == |tree| && |lens| < |tree|
    requires forall i :: 0 <= i < |tree| && i != |lens| ==> tree'[i] == tree[i]
    ensures Coded(tree', lens)
  {
    hide Codeword, ToBits, Pow2;
  }

  /** What build_tree leaves for one alphabet: the lengths that will be sent. */
  lemma TreeLens(t: seq<CtData>, F: seq<nat>, maxCode: nat, maxLen: nat, depths: seq<nat>, F0: seq<nat>, elems: nat)
    requires elems <= |t| && |F| == elems && maxLen <= MAX_BITS
    requires GoodLengths(F, Dls(t)[..elems], maxCode, maxLen, depths) && Keeps(F, F0)
    ensures |F0| == elems && maxCode < elems
    ensures var lens := Lens(t, maxCode + 1);
            Complete(lens) && (forall i :: 0 <= i < |lens| ==> lens[i] == t[i].dl <= maxLen)
            && forall i :: 0 <= i < elems && F0[i] != 0 ==> i < |lens| && lens[i] >= 1
    ensures forall i :: maxCode < i < elems ==> t[i].dl == 0
  {
    hide Complete, GoodLengths;
    GoodFacts(F, Dls(t)[..elems], maxCode, maxLen, depths, F0);
    DlsOf(t, maxCode + 1, elems);
  }

  /** The bits counted for each symbol are its length and extra bits. */
  lemma PricedLens(t: seq<CtData>, lens: seq<nat>, X: seq<nat>, lit: bool)
    requires |lens| <= |t| && |X| <= |t| && (forall i :: 0 <= i < |lens| ==> t[i].dl == lens[i])
    requires forall s :: 0 <= s < |X| ==> X[s] == if lit then LitExtra(s) else DistExtra(s)
    ensures Priced(lens, BitsOf(Dls(t), X), lit)
  {
    hide LitExtra, DistExtra;
  }

  lemma CodedLens(t: seq<CtData>, lens: seq<nat>)
    requires Coded(t, lens)
    ensures |lens| <= |t| && forall i :: 0 <= i < |lens| ==> t[i].dl == lens[i] <= MAX_BITS
  {
    hide Codeword, ToBits, Pow2;
  }

  lemma DynamicMade(ll: seq<nat>, dl: seq<nat>, cl: seq<nat>, nb: nat)
    requires 257 <= |ll| <= 286 && 1 <= |dl| <= 30 && |cl| == BL_CODES && 4 <= nb <= BL_CODES
    requires (forall i :: 0 <= i < |ll| ==> ll[i] <= MAX_BITS) && (forall i :: 0 <= i < |dl| ==> dl[i] <= MAX_BITS)
    requires (forall i :: 0 <= i < BL_CODES ==> cl[i] <= 7) && (forall i :: nb <= i < BL_CODES ==> cl[Ordered(i)] == 0)
    requires Complete(ll) && Complete(dl) && Complete(cl) && ll[END_OF_BLOCK] > 0
    requires AllSendable(cl, Runs(ll)) && AllSendable(cl, Runs(dl))
    ensures DynamicOk(ll, dl, cl, nb)
  {
    hide Complete, AllSendable, Runs;
  }

  lemma TreesSize(ll: seq<nat>, dl: seq<nat>, cl: seq<nat>, nb: nat)
    requires |cl| == BL_CODES && nb <= BL_CODES && AllSendable(cl, Runs(ll)) && AllSendable(cl, Runs(dl))
    ensures |TreesBits(ll, dl, cl, nb)|
            == 14 + 3 * nb + |SymsBits(cl, Runs(ll), |Runs(ll)|)| + |SymsBits(cl, Runs(dl), |Runs(dl)|)|
  {
    hide AllSendable, Runs, SymsBits;
  }

  lemma BlockSize(ll: seq<nat>, dl: seq<nat>, lb: seq<nat>, db: seq<nat>, toks: seq<Token>)
    requires AllEncodable(ll, dl, toks) && END_OF_BLOCK < |ll|
    requires |lb| == L_CODES && |db| == D_CODES && Priced(ll, lb, true) && Priced(dl, db, false)
    ensures |BlockBits(ll, dl, toks)| == Cost(Used(LitFreqs(toks, |toks|)), LitFreqs(toks, |toks|), lb)
                                         + Cost(Used(DistFreqs(toks, |toks|)), DistFreqs(toks, |toks|), db)
  {
    hide Encodable, TokensBits, Cost, Used, LitFreqs, DistFreqs, Priced;
    TokensSize(ll, dl, lb, db, toks, |toks|);
  }

  lemma LateRank(c: nat)
    requires 1 <= c <= MAX_BITS
    ensures 3 <= Field(c) < BL_CODES && Ordered(Field(c)) == c
  {
    OrderedField(c);
  }

  /** At least four lengths of the code length code have to be sent. */
  lemma SomeLate(cl: seq<nat>, ll: seq<nat>, dl: seq<nat>, F: seq<nat>, i: nat)
    requires |cl| == BL_CODES == |F| && i < |ll| && ll[i] != 0 && (forall j :: 0 <= j < |ll| ==> ll[j] <= MAX_BITS)
    requires (forall j :: 0 <= j < |Runs(ll)| ==> SymOk(Runs(ll)[j])) && forall j :: 0 <= j < |Runs(dl)| ==> SymOk(Runs(dl)[j])
    requires F == Tallied(Tallied(Repeat(0, BL_CODES), Runs(ll), |Runs(ll)|), Runs(dl), |Runs(dl)|)
    requires forall j :: 0 <= j < BL_CODES && F[j] != 0 ==> cl[j] >= 1
    ensures exists r :: 3 <= r < BL_CODES && cl[Ordered(r)] != 0
  {
    hide Tallied, SymOk, RunsFrom, Field, Ordered;
    var k := SomePlain(ll, 0, 0, -1, i);
    SymsTotal(Runs(ll), |Runs(ll)|, Repeat(0, BL_CODES));
    SymsTotal(Runs(dl), |Runs(dl)|, Tallied(Repeat(0, BL_CODES), Runs(ll), |Runs(ll)|));
    LateRank(Runs(ll)[k].code);
  }
}
