/** Counting a block's symbols, and what their codes take: the frequencies of ct_tally and the lengths they give. */
module TokenCounts {
  import opened Bits
  import opened PrefixCodes
  import opened Lz77
  import opened Rfc1951
  import opened Sums
  import opened Huffman
  import opened Tokens
  import opened CodeLengths
  import opened Forcing

  // ---- Frequencies

  /** How often the first n tokens use each literal/length code; the end of the block counts once. */
  function LitFreqs(toks: seq<Token>, n: nat): (F: seq<nat>)
    requires n <= |toks|
    ensures |F| == L_CODES
  {
    if n == 0 then Raised(Repeat(0, L_CODES), END_OF_BLOCK, 1)
    else Raised(LitFreqs(toks, n - 1), LitSymbol(toks[n - 1]), 1)
  }

  function DistFreqs(toks: seq<Token>, n: nat): (F: seq<nat>)
    requires n <= |toks|
    ensures |F| == D_CODES
  {
    if n == 0 then Repeat(0, D_CODES)
    else if toks[n - 1].Literal? then DistFreqs(toks, n - 1)
    else Raised(DistFreqs(toks, n - 1), DistBand(toks[n - 1].dist), 1)
  }

  lemma {:induction false} FreqsPrefix(a: seq<Token>, t: Token, n: nat)
    requires n <= |a|
    ensures LitFreqs(a + [t], n) == LitFreqs(a, n) && DistFreqs(a + [t], n) == DistFreqs(a, n)
  {
    hide Raised;
    if n > 0 {
      FreqsPrefix(a, t, n - 1);
      assert (a + [t])[n - 1] == a[n - 1];
    }
  }

  lemma FreqsNext(a: seq<Token>, t: Token)
    ensures LitFreqs(a + [t], |a| + 1) == Raised(LitFreqs(a, |a|), LitSymbol(t), 1)
    ensures DistFreqs(a + [t], |a| + 1)
            == if t.Literal? then DistFreqs(a, |a|) else Raised(DistFreqs(a, |a|), DistBand(t.dist), 1)
  {
    hide Raised;
    FreqsPrefix(a, t, |a|);
    assert (a + [t])[|a|] == t;
  }

  /** Every symbol the tokens use has been counted. */
  lemma {:induction false} UsedCounted(toks: seq<Token>, n: nat, i: nat)
    requires i < n <= |toks|
    ensures LitFreqs(toks, n)[LitSymbol(toks[i])] > 0
    ensures toks[i].Match? ==> DistFreqs(toks, n)[DistBand(toks[i].dist)] > 0
  {
    if i < n - 1 { UsedCounted(toks, n - 1, i); }
  }

  lemma {:induction false} EndCounted(toks: seq<Token>, n: nat)
    requires n <= |toks|
    ensures LitFreqs(toks, n)[END_OF_BLOCK] == 1
  {
    if n > 0 { EndCounted(toks, n - 1); }
  }

  // ---- Sums over frequencies

  lemma RaisedUsed(F: seq<nat>, s: nat)
    requires s < |F|
    ensures Used(Raised(F, s, 1)) == Used(F) + {s}
  {}

  lemma CostRaised(F: seq<nat>, s: nat, bits: seq<nat>)
    requires s < |F| == |bits|
    ensures Cost(Used(Raised(F, s, 1)), Raised(F, s, 1), bits) == Cost(Used(F), F, bits) + bits[s]
    ensures Total(Used(Raised(F, s, 1)), Raised(F, s, 1)) == Total(Used(F), F) + 1
  {
    var F', L := Raised(F, s, 1), Used(F);
    RaisedUsed(F, s);
    RaisedProduct(F[s], bits[s]);
    var g, g' := Costs(F, bits), Costs(F', bits);
    assert g' == g[s := Product(F[s] + 1, bits[s])];
    assert F' == F[s := F[s] + 1];
    SumUpdate(L, g, s, Product(F[s] + 1, bits[s]), |F|);
    SumUpdate(L, F, s, F[s] + 1, |F|);
    if s !in L {
      AddMember(L, s, g');
      AddMember(L, s, F');
    } else {
      assert L + {s} == L;
    }
  }

  lemma RaisedProduct(a: nat, b: nat)
    ensures Product(a + 1, b) == Product(a, b) + b && Product(0, b) == 0
  {}

  lemma NoCost(F: seq<nat>, bits: seq<nat>)
    requires |F| == |bits| && forall i :: 0 <= i < |F| ==> F[i] == 0
    ensures Cost(Used(F), F, bits) == 0 && Total(Used(F), F) == 0
  {
    SumZero(Used(F), Costs(F, bits), |F|);
    SumZero(Used(F), F, |F|);
  }

  // ---- What the codes take

  function LitExtra(s: nat): nat { if s >= 257 && s - 257 < |LENGTH_EXTRA| then LENGTH_EXTRA[s - 257] else 0 }

  function DistExtra(s: nat): nat { if s < |DIST_EXTRA| then DIST_EXTRA[s] else 0 }

  /** Bits for each symbol with its extra bits. */
  ghost predicate Priced(lens: seq<nat>, bits: seq<nat>, lit: bool) {
    forall s :: 0 <= s < |lens| && s < |bits| ==> bits[s] == lens[s] + if lit then LitExtra(s) else DistExtra(s)
  }

  lemma TokenSize(ll: seq<nat>, dl: seq<nat>, lb: seq<nat>, db: seq<nat>, t: Token)
    requires Encodable(ll, dl, t) && |lb| == L_CODES && |db| == D_CODES && Priced(ll, lb, true) && Priced(dl, db, false)
    ensures |TokenBits(ll, dl, t)| == lb[LitSymbol(t)] + if t.Match? then db[DistBand(t.dist)] else 0
  {
    hide Codeword, BandOf, Pow2, ToBits, LengthBand, DistBand;
    if t.Match? {
      LengthBandOk(t.len);
      DistBandOk(t.dist);
    }
  }

  /** The bits of a block are the sums that opt_len and static_len keep. */
  lemma {:induction false} TokensSize(ll: seq<nat>, dl: seq<nat>, lb: seq<nat>, db: seq<nat>, toks: seq<Token>, n: nat)
    requires n <= |toks| && AllEncodable(ll, dl, toks) && END_OF_BLOCK < |ll|
    requires |lb| == L_CODES && |db| == D_CODES && Priced(ll, lb, true) && Priced(dl, db, false)
    ensures |TokensBits(ll, dl, toks, n)| + ll[END_OF_BLOCK]
            == Cost(Used(LitFreqs(toks, n)), LitFreqs(toks, n), lb) + Cost(Used(DistFreqs(toks, n)), DistFreqs(toks, n), db)
    ensures Total(Used(LitFreqs(toks, n)), LitFreqs(toks, n)) == n + 1
    ensures Total(Used(DistFreqs(toks, n)), DistFreqs(toks, n)) <= n
  {
    hide Encodable, TokenBits, Used, Cost, Total, Raised;
    if n == 0 {
      var Z := Repeat(0, L_CODES);
      NoCost(Z, lb);
      CostRaised(Z, END_OF_BLOCK, lb);
      NoCost(Repeat(0, D_CODES), db);
      assert lb[END_OF_BLOCK] == ll[END_OF_BLOCK];
    } else {
      TokensSize(ll, dl, lb, db, toks, n - 1);
      TokenSize(ll, dl, lb, db, toks[n - 1]);
      CostRaised(LitFreqs(toks, n - 1), LitSymbol(toks[n - 1]), lb);
      if toks[n - 1].Match? {
        CostRaised(DistFreqs(toks, n - 1), DistBand(toks[n - 1].dist), db);
      }
    }
  }

  // ---- The code length code

  /** What the symbols for code lengths take. */
  lemma {:induction false} SymsSize(cl: seq<nat>, cb: seq<nat>, syms: seq<Sym>, n: nat, F: seq<nat>)
    requires n <= |syms| && AllSendable(cl, syms) && |cb| == BL_CODES == |F|
    requires forall s :: 0 <= s < BL_CODES && s < |cl| ==> cb[s] == cl[s] + Width(s)
    ensures Cost(Used(Tallied(F, syms, n)), Tallied(F, syms, n), cb) == Cost(Used(F), F, cb) + |SymsBits(cl, syms, n)|
  {
    hide Used, Cost, Total, Raised, Codeword, Pow2;
    if n > 0 {
      SymsSize(cl, cb, syms, n - 1, F);
      CostRaised(Tallied(F, syms, n - 1), syms[n - 1].code, cb);
    }
  }

  lemma {:induction false} SymsTotal(syms: seq<Sym>, n: nat, F: seq<nat>)
    requires n <= |syms| && |F| == BL_CODES && forall i :: 0 <= i < |syms| ==> SymOk(syms[i])
    ensures Total(Used(Tallied(F, syms, n)), Tallied(F, syms, n)) == Total(Used(F), F) + n
    ensures forall i :: 0 <= i < BL_CODES ==> F[i] <= Tallied(F, syms, n)[i]
    ensures forall i :: 0 <= i < n ==> syms[i].code < BL_CODES && Tallied(F, syms, n)[syms[i].code] > 0
  {
    hide Used, Total, Pow2;
    if n > 0 {
      SymsTotal(syms, n - 1, F);
      CostRaised(Tallied(F, syms, n - 1), syms[n - 1].code, F);
    }
  }

  /** There are no more symbols than lengths. */
  lemma {:induction false} RunsShort(lens: seq<nat>, n: nat, count: nat, prev: int)
    requires n <= |lens|
    ensures |RunsFrom(lens, n, count, prev)| <= |lens| - n + (if n < |lens| then count else 0)
    decreases |lens| - n
  {
    if n < |lens| {
      if GoesOn(lens, n, count, prev) {
        RunsShort(lens, n + 1, count + 1, prev);
      } else {
        RunsShort(lens, n + 1, 0, lens[n]);
        RunShort(lens[n], count + 1, prev);
      }
    }
  }

  lemma RunShort(cur: nat, count: nat, prev: int)
    requires count >= 1
    ensures |Run(cur, count, prev)| <= count
  {}

  // ---- The guess of ct_tally

  /** How many of the first n tokens are matches. */
  function MatchCount(toks: seq<Token>, n: nat): nat
    requires n <= |toks|
  {
    if n == 0 then 0 else MatchCount(toks, n - 1) + if toks[n - 1].Match? then 1 else 0
  }

  /** An upper bound for the bits of the first n tokens: 8 for each, and 5 with the extra bits for each distance. */
  function Guess(toks: seq<Token>, n: nat): nat
    requires n <= |toks|
  {
    if n == 0 then 0 else Guess(toks, n - 1) + 8 + if toks[n - 1].Match? then 5 + DistExtra(DistBand(toks[n - 1].dist)) else 0
  }

  /** After every 4096th token: fewer than half are matches, and the guess is that they take less than half of their input. */
  predicate Profits(toks: seq<Token>, inLength: int) {
    |toks| % 4096 == 0 && MatchCount(toks, |toks|) < |toks| / 2 && Guess(toks, |toks|) / 8 < inLength / 2
  }

  /** The sum that ct_tally takes over the distance codes. */
  function CodeSum(F: seq<nat>, n: nat): nat
    requires n <= |F|
  {
    if n == 0 then 0 else CodeSum(F, n - 1) + Product(F[n - 1], 5 + DistExtra(n - 1))
  }

  lemma {:induction false} CodeSumRaised(F: seq<nat>, s: nat, n: nat)
    requires s < |F| && n <= |F|
    ensures CodeSum(Raised(F, s, 1), n) == CodeSum(F, n) + if s < n then 5 + DistExtra(s) else 0
  {
    hide Product, DistExtra;
    if n > 0 {
      CodeSumRaised(F, s, n - 1);
      RaisedProduct(F[n - 1], 5 + DistExtra(n - 1));
    }
  }

  lemma {:induction false} NoCodeSum(n: nat)
    requires n <= D_CODES
    ensures CodeSum(Repeat(0, D_CODES), n) == 0
  {
    if n > 0 {
      NoCodeSum(n - 1);
      RaisedProduct(0, 5 + DistExtra(n - 1));
    }
    hide Product;
  }

  lemma {:induction false} GuessIs(toks: seq<Token>, n: nat)
    requires n <= |toks| && forall i :: 0 <= i < n ==> TokenOk(toks[i])
    ensures 8 * n + CodeSum(DistFreqs(toks, n), D_CODES) == Guess(toks, n)
  {
    hide Product, DistExtra, Raised, CodeSum, DistBand;
    if n == 0 {
      NoCodeSum(D_CODES);
    } else {
      GuessIs(toks, n - 1);
      if toks[n - 1].Match? {
        DistBandOk(toks[n - 1].dist);
        CodeSumRaised(DistFreqs(toks, n - 1), DistBand(toks[n - 1].dist), D_CODES);
      }
    }
  }

  lemma {:induction false} MatchCountLe(toks: seq<Token>, n: nat)
    requires n <= |toks|
    ensures MatchCount(toks, n) <= n
  {
    if n > 0 { MatchCountLe(toks, n - 1); }
  }
}
