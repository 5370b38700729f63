/** How good the codes of a block are: which of all prefix codes would make it shorter. */
module BlockCodes {
  import opened Bits
  import opened PrefixCodes
  import opened Lz77
  import opened Rfc1951
  import opened Sums
  import opened Huffman
  import opened Tokens
  import opened Trees
  import opened CodeLengths
  import opened FirstPass
  import opened SecondPass
  import opened Forcing
  import opened TokenCounts
  import opened TreeFacts

  // ---- Kraft's inequality for a set of symbols

  /** How much of the line the codes of length 1 .. k among the first n symbols cover. */
  function FilledTo(lens: seq<nat>, n: nat, k: nat): nat
    requires n <= |lens| && k <= M
  {
    if k == 0 then 0 else FilledTo(lens, n, k - 1) + CountTo(lens, n, k) * Pow2(M - k)
  }

  lemma {:induction false} FilledAll(lens: seq<nat>, k: nat)
    requires k <= M
    ensures FilledTo(lens, |lens|, k) == Filled(lens, k) && FilledTo(lens, 0, k) == 0
  {
    if k > 0 { FilledAll(lens, k - 1); }
  }

  lemma {:induction false} FilledOne(lens: seq<nat>, n: nat, k: nat)
    requires n < |lens| && k <= M
    ensures FilledTo(lens, n + 1, k) == FilledTo(lens, n, k) + if 1 <= lens[n] <= k then Pow2(M - lens[n]) else 0
  {
    if k > 0 {
      FilledOne(lens, n, k - 1);
      Distribute(CountTo(lens, n, k), 1, Pow2(M - k));
    }
  }

  /** The lengths of n symbols; those beyond the end have none. */
  function Fitted(lens: seq<nat>, n: nat): (s: seq<nat>)
    ensures |s| == n && forall i :: 0 <= i < n ==> s[i] == if i < |lens| then lens[i] else 0
  {
    seq(n, i requires 0 <= i < n => if i < |lens| then lens[i] else 0)
  }

  lemma {:induction false} KraftUpTo(L: set<nat>, lens: seq<nat>, size: nat, n: nat)
    requires n <= size && forall i :: i in L ==> i < |lens| && 1 <= lens[i] <= M
    ensures SumIn(L, Shares(Fitted(lens, size), M), n) <= FilledTo(lens, if n <= |lens| then n else |lens|, M)
  {
    if n == 0 {
      FilledAll(lens, M);
    } else {
      KraftUpTo(L, lens, size, n - 1);
      if n <= |lens| { FilledOne(lens, n - 1, M); }
    }
    hide FilledTo, Pow2;
  }

  /** Lengths that give every symbol in use a codeword, and no more codewords than there is room for. */
  ghost predicate CodeFor(F: seq<nat>, lens: seq<nat>) {
    LensOk(lens) && !Oversubscribed(lens) && forall i :: 0 <= i < |F| && F[i] != 0 ==> i < |lens| && lens[i] > 0
  }

  lemma CodeFeasible(F: seq<nat>, lens: seq<nat>)
    requires CodeFor(F, lens)
    ensures Feasible(Used(F), Fitted(lens, |F|), M)
  {
    KraftUpTo(Used(F), lens, |F|, |F|);
    FilledAll(lens, M);
    FilledGrows(lens, if |F| <= |lens| then |F| else |lens|, M);
    hide FilledTo, Filled, Pow2;
  }

  lemma {:induction false} FilledGrows(lens: seq<nat>, n: nat, k: nat)
    requires n <= |lens| && k <= M
    ensures FilledTo(lens, n, k) <= FilledTo(lens, |lens|, k)
  {
    if k > 0 {
      FilledGrows(lens, n, k - 1);
      CountMonotone(lens, n, |lens|, k);
      MulLe(CountTo(lens, n, k), CountTo(lens, |lens|, k), Pow2(M - k));
    }
  }

  // ---- One alphabet

  /** No prefix code for these frequencies costs less. */
  ghost predicate Cheapest(F: seq<nat>, lens: seq<nat>) {
    |lens| == |F| && forall other: seq<nat> :: CodeFor(F, other) ==> Cost(Used(F), F, lens) <= Cost(Used(F), F, Fitted(other, |F|))
  }

  /** Some code that costs least has codewords of more than max bits. */
  ghost predicate NeedsMore(F: seq<nat>, max: nat) {
    exists depths: seq<nat> :: Best(Used(F), F, depths) && exists i :: 0 <= i < |F| && F[i] != 0 && depths[i] > max
  }

  lemma {:induction false} SumLe(L: set<nat>, g: seq<int>, h: seq<int>, n: nat)
    requires n <= |g| && n <= |h| && forall i :: 0 <= i < n && i in L ==> g[i] <= h[i]
    ensures SumIn(L, g, n) <= SumIn(L, h, n)
  {
    if n > 0 { SumLe(L, g, h, n - 1); }
  }

  lemma CostLe(F: seq<nat>, a: seq<nat>, b: seq<nat>)
    requires |a| == |b| == |F| && forall i :: 0 <= i < |F| && F[i] != 0 ==> a[i] <= b[i]
    ensures Cost(Used(F), F, a) <= Cost(Used(F), F, b)
  {
    forall i | 0 <= i < |F| && F[i] != 0
      ensures Product(F[i], a[i]) <= Product(F[i], b[i])
    {
      MulLe(a[i], b[i], F[i]);
    }
    SumLe(Used(F), Costs(F, a), Costs(F, b), |F|);
    hide Product;
  }

  /** The lengths of build_tree cost least, unless they were limited. */
  lemma GoodCheapest(F0: seq<nat>, F: seq<nat>, lens: seq<nat>, maxCode: nat, maxLen: nat, depths: seq<nat>)
    requires GoodLengths(F, lens, maxCode, maxLen, depths) && Keeps(F, F0)
    requires F != F0 ==> forall i :: 0 <= i < |F| && F[i] > 0 ==> lens[i] == 1
    ensures Cheapest(F0, lens) || NeedsMore(F0, maxLen)
  {
    hide Cost, Oversubscribed, Complete, Feasible;
    if F != F0 {
      forall other: seq<nat> | CodeFor(F0, other)
        ensures Cost(Used(F0), F0, lens) <= Cost(Used(F0), F0, Fitted(other, |F0|))
      {
        CostLe(F0, lens, Fitted(other, |F0|));
      }
    } else if forall i :: 0 <= i < |F| && F[i] > 0 ==> depths[i] <= maxLen {
      CostLe(F0, lens, depths);
      forall other: seq<nat> | CodeFor(F0, other)
        ensures Cost(Used(F0), F0, lens) <= Cost(Used(F0), F0, Fitted(other, |F0|))
      {
        CodeFeasible(F0, other);
      }
    }
  }

  /** The lengths that will be sent, up to the last code in use. */
  lemma TreeCheapest(t: seq<CtData>, F: seq<nat>, maxCode: int, maxLen: nat, depths: seq<nat>, F0: seq<nat>, elems: nat)
    requires 0 <= maxCode < elems <= |t| && |F| == elems && Keeps(F, F0)
    requires GoodLengths(F, Dls(t)[..elems], maxCode, maxLen, depths)
    requires F != F0 ==> forall i :: 0 <= i < |F| ==> F[i] > 0 ==> t[i].dl == 1
    ensures Cheapest(F0, Fitted(Lens(t, maxCode + 1), elems)) || NeedsMore(F0, maxLen)
  {
    hide GoodLengths, Cheapest, NeedsMore;
    GoodFacts(F, Dls(t)[..elems], maxCode, maxLen, depths, F0);
    DlsOf(t, maxCode + 1, elems);
    GoodCheapest(F0, F, Dls(t)[..elems], maxCode, maxLen, depths);
    assert Fitted(Lens(t, maxCode + 1), elems) == Dls(t)[..elems];
  }

  // ---- The tokens of a block

  /** Codes that say every token and the end of the block. */
  ghost predicate CodesBlock(toks: seq<Token>, ll: seq<nat>, dl: seq<nat>) {
    Tokens.Code(ll) && Tokens.Code(dl) && AllEncodable(ll, dl, toks) && END_OF_BLOCK < |ll| && ll[END_OF_BLOCK] > 0
  }

  /** No other codes make the block shorter. */
  ghost predicate Shortest(toks: seq<Token>, ll: seq<nat>, dl: seq<nat>)
    requires AllEncodable(ll, dl, toks) && END_OF_BLOCK < |ll|
  {
    forall kl: seq<nat>, kd: seq<nat> :: CodesBlock(toks, kl, kd) ==> |BlockBits(ll, dl, toks)| <= |BlockBits(kl, kd, toks)|
  }

  /** The same, unless a code that costs least has codewords of more than 15 bits. */
  ghost predicate BestCodes(toks: seq<Token>, ll: seq<nat>, dl: seq<nat>) {
    CodesBlock(toks, ll, dl)
    && (Shortest(toks, ll, dl) || NeedsMore(LitFreqs(toks, |toks|), 15) || NeedsMore(DistFreqs(toks, |toks|), 15))
  }

  /** What is counted has a codeword. */
  lemma {:induction false} CountedCoded(toks: seq<Token>, n: nat, ll: seq<nat>, dl: seq<nat>)
    requires n <= |toks| && AllEncodable(ll, dl, toks) && END_OF_BLOCK < |ll| && ll[END_OF_BLOCK] > 0
    ensures forall s :: 0 <= s < L_CODES && LitFreqs(toks, n)[s] != 0 ==> s < |ll| && ll[s] > 0
    ensures forall s :: 0 <= s < D_CODES && DistFreqs(toks, n)[s] != 0 ==> s < |dl| && dl[s] > 0
  {
    hide BandOf, LengthBand, DistBand;
    if n > 0 {
      CountedCoded(toks, n - 1, ll, dl);
      assert Encodable(ll, dl, toks[n - 1]);
    }
  }

  lemma CostSum(F: seq<nat>, lens: seq<nat>, X: seq<nat>)
    requires |F| == |lens| == |X|
    ensures Cost(Used(F), F, BitsOf(lens, X)) == Cost(Used(F), F, lens) + Cost(Used(F), F, X)
  {
    CostSumTo(F, lens, X, |F|);
  }

  lemma {:induction false} CostSumTo(F: seq<nat>, lens: seq<nat>, X: seq<nat>, n: nat)
    requires n <= |F| == |lens| == |X|
    ensures SumIn(Used(F), Costs(F, BitsOf(lens, X)), n) == SumIn(Used(F), Costs(F, lens), n) + SumIn(Used(F), Costs(F, X), n)
  {
    if n > 0 {
      CostSumTo(F, lens, X, n - 1);
      ProductSum(F[n - 1], lens[n - 1], X[n - 1]);
    }
    hide Product;
  }

  lemma ProductSum(a: nat, b: nat, c: nat)
    ensures Product(a, b + c) == Product(a, b) + Product(a, c)
  {}

  function LitExtras(): (X: seq<nat>)
    ensures |X| == L_CODES && forall s :: 0 <= s < L_CODES ==> X[s] == LitExtra(s)
  {
    seq(L_CODES, s requires 0 <= s < L_CODES => LitExtra(s))
  }

  function DistExtras(): (X: seq<nat>)
    ensures |X| == D_CODES && forall s :: 0 <= s < D_CODES ==> X[s] == DistExtra(s)
  {
    seq(D_CODES, s requires 0 <= s < D_CODES => DistExtra(s))
  }

  /** The size of a block is the cost of both codes and that of the extra bits, which is the same for all codes. */
  lemma SizeByCosts(toks: seq<Token>, ll: seq<nat>, dl: seq<nat>)
    requires AllEncodable(ll, dl, toks) && END_OF_BLOCK < |ll|
    ensures var F, G := LitFreqs(toks, |toks|), DistFreqs(toks, |toks|);
            |BlockBits(ll, dl, toks)| == Cost(Used(F), F, Fitted(ll, L_CODES)) + Cost(Used(F), F, LitExtras())
                                         + Cost(Used(G), G, Fitted(dl, D_CODES)) + Cost(Used(G), G, DistExtras())
  {
    hide BlockBits, AllEncodable, Cost, Used, LitFreqs, DistFreqs, LitExtra, DistExtra;
    var F, G := LitFreqs(toks, |toks|), DistFreqs(toks, |toks|);
    var a, b := Fitted(ll, L_CODES), Fitted(dl, D_CODES);
    BlockSize(ll, dl, BitsOf(a, LitExtras()), BitsOf(b, DistExtras()), toks);
    CostSum(F, a, LitExtras());
    CostSum(G, b, DistExtras());
  }

  /** Codes that cost least for both alphabets make the shortest block. */
  lemma CheapestShortest(toks: seq<Token>, ll: seq<nat>, dl: seq<nat>)
    requires AllEncodable(ll, dl, toks) && END_OF_BLOCK < |ll|
    requires Cheapest(LitFreqs(toks, |toks|), Fitted(ll, L_CODES)) && Cheapest(DistFreqs(toks, |toks|), Fitted(dl, D_CODES))
    ensures Shortest(toks, ll, dl)
  {
    hide BlockBits, AllEncodable, Cost, Used, LitFreqs, DistFreqs, LensOk, Oversubscribed, Fitted;
    SizeByCosts(toks, ll, dl);
    forall kl: seq<nat>, kd: seq<nat> | CodesBlock(toks, kl, kd)
      ensures |BlockBits(ll, dl, toks)| <= |BlockBits(kl, kd, toks)|
    {
      SizeByCosts(toks, kl, kd);
      CountedCoded(toks, |toks|, kl, kd);
      assert CodeFor(LitFreqs(toks, |toks|), kl) && CodeFor(DistFreqs(toks, |toks|), kd);
    }
  }

  lemma CheapestBest(toks: seq<Token>, ll: seq<nat>, dl: seq<nat>)
    requires CodesBlock(toks, ll, dl)
    requires Cheapest(LitFreqs(toks, |toks|), Fitted(ll, L_CODES)) || NeedsMore(LitFreqs(toks, |toks|), MAX_BITS)
    requires Cheapest(DistFreqs(toks, |toks|), Fitted(dl, D_CODES)) || NeedsMore(DistFreqs(toks, |toks|), MAX_BITS)
    ensures BestCodes(toks, ll, dl)
  {
    hide Cheapest, NeedsMore, Shortest, AllEncodable, LitFreqs, DistFreqs, Fitted, Tokens.Code;
    if Cheapest(LitFreqs(toks, |toks|), Fitted(ll, L_CODES)) && Cheapest(DistFreqs(toks, |toks|), Fitted(dl, D_CODES)) {
      CheapestShortest(toks, ll, dl);
    }
  }

  // ---- The symbols for the code lengths

  /** No other code makes the run symbols a and b shorter. */
  ghost predicate ShortestRuns(a: seq<Sym>, b: seq<Sym>, cl: seq<nat>)
    requires AllSendable(cl, a) && AllSendable(cl, b)
  {
    forall kl: seq<nat> :: |kl| == BL_CODES && Tokens.Code(kl) && AllSendable(kl, a) && AllSendable(kl, b) ==>
                             |SymsBits(cl, a, |a|)| + |SymsBits(cl, b, |b|)| <= |SymsBits(kl, a, |a|)| + |SymsBits(kl, b, |b|)|
  }

  /** The same, unless a code that costs least has codewords of more than 7 bits. */
  ghost predicate BestRuns(a: seq<Sym>, b: seq<Sym>, cl: seq<nat>) {
    AllSendable(cl, a) && AllSendable(cl, b) && (ShortestRuns(a, b, cl) || NeedsMore(RunFreqs(a, b), 7))
  }

  function RunFreqs(a: seq<Sym>, b: seq<Sym>): (F: seq<nat>)
    ensures |F| == BL_CODES
  {
    Tallied(Tallied(Repeat(0, BL_CODES), a, |a|), b, |b|)
  }

  lemma {:induction false} TalliedCoded(F: seq<nat>, syms: seq<Sym>, n: nat, kl: seq<nat>)
    requires n <= |syms| && |F| == BL_CODES == |kl| && AllSendable(kl, syms)
    requires forall s :: 0 <= s < BL_CODES && F[s] != 0 ==> kl[s] > 0
    ensures forall s :: 0 <= s < BL_CODES && Tallied(F, syms, n)[s] != 0 ==> kl[s] > 0
  {
    if n > 0 { TalliedCoded(F, syms, n - 1, kl); }
  }

  function Widths(): (X: seq<nat>)
    ensures |X| == BL_CODES && forall s :: 0 <= s < BL_CODES ==> X[s] == Width(s)
  {
    seq(BL_CODES, s requires 0 <= s < BL_CODES => Width(s))
  }

  lemma RunsByCosts(cl: seq<nat>, a: seq<Sym>, b: seq<Sym>)
    requires |cl| == BL_CODES && AllSendable(cl, a) && AllSendable(cl, b)
    ensures var F := RunFreqs(a, b);
            |SymsBits(cl, a, |a|)| + |SymsBits(cl, b, |b|)| == Cost(Used(F), F, cl) + Cost(Used(F), F, Widths())
  {
    hide SymsBits, AllSendable, Cost, Used, Tallied, Width;
    SymsCost(cl, BitsOf(cl, Widths()), a, b, RunFreqs(a, b));
    CostSum(RunFreqs(a, b), cl, Widths());
  }

  lemma CheapestRuns(a: seq<Sym>, b: seq<Sym>, cl: seq<nat>)
    requires AllSendable(cl, a) && AllSendable(cl, b) && Cheapest(RunFreqs(a, b), cl)
    ensures ShortestRuns(a, b, cl)
  {
    hide SymsBits, AllSendable, Cost, Used, RunFreqs, LensOk, Oversubscribed;
    RunsByCosts(cl, a, b);
    forall kl: seq<nat> | |kl| == BL_CODES && Tokens.Code(kl) && AllSendable(kl, a) && AllSendable(kl, b)
      ensures |SymsBits(cl, a, |a|)| + |SymsBits(cl, b, |b|)| <= |SymsBits(kl, a, |a|)| + |SymsBits(kl, b, |b|)|
    {
      RunsByCosts(kl, a, b);
      RunsCoded(a, b, kl);
      assert Fitted(kl, BL_CODES) == kl;
    }
  }

  lemma RunsCoded(a: seq<Sym>, b: seq<Sym>, kl: seq<nat>)
    requires |kl| == BL_CODES && Tokens.Code(kl) && AllSendable(kl, a) && AllSendable(kl, b)
    ensures CodeFor(RunFreqs(a, b), kl)
  {
    hide Tallied, AllSendable;
    TalliedCoded(Repeat(0, BL_CODES), a, |a|, kl);
    TalliedCoded(Tallied(Repeat(0, BL_CODES), a, |a|), b, |b|, kl);
  }
}
