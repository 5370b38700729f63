/** How literals and matches are written, and that the format reads them back: sections 3.2.3 and 3.2.5 of RFC 1951. */
module Tokens {
  import opened Options
  import opened Bits
  import opened PrefixCodes
  import opened Lz77
  import opened Rfc1951

  const MIN_MATCH: nat := 3
  const MAX_MATCH: nat := 258
  const LITERALS: nat := 256
  const L_CODES: nat := 286
  const D_CODES: nat := 30

  // ---- Bits at a place in a stream

  ghost predicate At(S: seq<bool>, p: nat, bits: seq<bool>) {
    p + |bits| <= |S| && S[p..p + |bits|] == bits
  }

  lemma AtConcat(S: seq<bool>, p: nat, a: seq<bool>, b: seq<bool>)
    requires At(S, p, a + b)
    ensures At(S, p, a) && At(S, p + |a|, b)
  {
    var t := S[p..p + |a + b|];
    assert t[..|a|] == a && t[|a|..] == b;
  }

  lemma AtEnd(S: seq<bool>, bits: seq<bool>, T: seq<bool>)
    requires S + bits <= T
    ensures At(T, |S|, bits)
  {
    assert T[..|S + bits|] == S + bits;
    assert T[|S|..|S| + |bits|] == T[..|S + bits|][|S|..];
  }

  lemma ReadBitsAt(S: seq<bool>, p: nat, v: nat, n: nat)
    requires At(S, p, ToBits(v, n)) && v < Pow2(n)
    ensures ReadBits(S, p, n) == Some((v, p + n))
  {
    ValToBits(v, n);
    ModSmall(v, Pow2(n));
  }

  lemma SymbolAt(lens: seq<nat>, S: seq<bool>, p: nat, n: nat)
    requires LensOk(lens) && !Oversubscribed(lens) && n < |lens| && lens[n] > 0 && At(S, p, Codeword(lens, n))
    ensures Symbol(lens, S, p) == Some((n, p + lens[n]))
  {
    assert CodeAt(lens, S, p, n);
    SymbolIs(lens, S, p, n);
  }

  // ---- Length and distance codes

  /** The last code whose base does not exceed v. */
  function BandOf(base: seq<nat>, v: nat, n: nat): (c: nat)
    requires 0 < n <= |base|
    ensures c < n && (c == 0 || base[c] <= v) && forall k :: c < k < n ==> v < base[k]
  {
    if n == 1 || base[n - 1] <= v then n - 1 else BandOf(base, v, n - 1)
  }

  function LengthBand(len: nat): nat { BandOf(LENGTH_BASE, len, 29) }

  function DistBand(dist: nat): nat { BandOf(DIST_BASE, dist, 30) }

  predicate TokenOk(t: Token) {
    t.Match? ==> MIN_MATCH <= t.len <= MAX_MATCH && 1 <= t.dist <= WSIZE
  }

  /** The bands are as wide as their extra bits say. */
  lemma BandsOk()
    ensures |LENGTH_BASE| == |LENGTH_EXTRA| == 29 && |DIST_BASE| == |DIST_EXTRA| == 30
    ensures forall k :: 0 <= k < 28 ==> LENGTH_BASE[k + 1] <= LENGTH_BASE[k] + Pow2(LENGTH_EXTRA[k])
    ensures forall k :: 0 <= k < 29 ==> DIST_BASE[k + 1] == DIST_BASE[k] + Pow2(DIST_EXTRA[k])
    ensures DIST_BASE[29] + Pow2(DIST_EXTRA[29]) == WSIZE + 1 && DIST_BASE[0] == 1 && LENGTH_BASE[0] == MIN_MATCH
    ensures LENGTH_BASE[28] + Pow2(LENGTH_EXTRA[28]) == MAX_MATCH + 1
    ensures forall k :: 0 <= k < 29 ==> LENGTH_EXTRA[k] <= 5
    ensures forall k :: 0 <= k < 30 ==> DIST_EXTRA[k] <= 13
  {
    Pow2Values();
    Pow2Tens();
    hide Pow2;
  }

  lemma Pow2Tens()
    ensures Pow2(0) == 1 && Pow2(10) == 1024 && Pow2(11) == 2048 && Pow2(12) == 4096
  {}

  lemma LengthBandOk(len: nat)
    requires MIN_MATCH <= len <= MAX_MATCH
    ensures var c := LengthBand(len);
            c < 29 && LENGTH_BASE[c] <= len < LENGTH_BASE[c] + Pow2(LENGTH_EXTRA[c])
  {
    BandsOk();
    hide Pow2;
    var c := LengthBand(len);
    if c < 28 { assert len < LENGTH_BASE[c + 1]; }
  }

  lemma DistBandOk(dist: nat)
    requires 1 <= dist <= WSIZE
    ensures var c := DistBand(dist);
            c < 30 && DIST_BASE[c] <= dist < DIST_BASE[c] + Pow2(DIST_EXTRA[c])
  {
    BandsOk();
    hide Pow2;
    var c := DistBand(dist);
    if c < 29 { assert dist < DIST_BASE[c + 1]; }
  }

  // ---- Bits of a token

  /** The symbol of a token in the literal/length alphabet. */
  function LitSymbol(t: Token): (s: nat)
    ensures s < L_CODES && s != END_OF_BLOCK
  {
    match t
    case Literal(c) => c
    case Match(len, _) => LITERALS + 1 + LengthBand(len)
  }

  /** Both codes have a codeword for what the token needs. */
  ghost predicate Encodable(ll: seq<nat>, dl: seq<nat>, t: Token) {
    TokenOk(t) && LitSymbol(t) < |ll| && ll[LitSymbol(t)] > 0
    && (t.Match? ==> DistBand(t.dist) < |dl| && dl[DistBand(t.dist)] > 0)
  }

  function LengthBits(len: nat): (s: seq<bool>) {
    ToBits(Less(len, LENGTH_BASE[LengthBand(len)]), LENGTH_EXTRA[LengthBand(len)])
  }

  function DistBits(dist: nat): (s: seq<bool>) {
    ToBits(Less(dist, DIST_BASE[DistBand(dist)]), DIST_EXTRA[DistBand(dist)])
  }

  function Less(a: nat, b: nat): nat { if a < b then 0 else a - b }

  ghost function TokenBits(ll: seq<nat>, dl: seq<nat>, t: Token): (s: seq<bool>)
    requires Encodable(ll, dl, t)
  {
    match t
    case Literal(c) => Codeword(ll, c)
    case Match(len, dist) =>
      Codeword(ll, LitSymbol(t)) + LengthBits(len) + Codeword(dl, DistBand(dist)) + DistBits(dist)
  }

  ghost predicate Code(lens: seq<nat>) { LensOk(lens) && !Oversubscribed(lens) }

  lemma DistanceRead(dl: seq<nat>, S: seq<bool>, p: nat, len: nat, dist: nat)
    requires Code(dl) && 1 <= dist <= WSIZE && DistBand(dist) < |dl| && dl[DistBand(dist)] > 0
    requires At(S, p, Codeword(dl, DistBand(dist)) + DistBits(dist))
    ensures ReadDistance(dl, S, p, len)
            == Some((Copy(len, dist), p + |Codeword(dl, DistBand(dist))| + |DistBits(dist)|))
  {
    hide *;
    var c := DistBand(dist);
    AtConcat(S, p, Codeword(dl, c), DistBits(dist));
    CodeIs(dl);
    SymbolAt(dl, S, p, c);
    DistRead(S, p + dl[c], dist);
    DistanceItem(dl, S, p, c, p + dl[c], len, dist);
  }

  lemma DistRead(S: seq<bool>, p: nat, dist: nat)
    requires 1 <= dist <= WSIZE && At(S, p, DistBits(dist))
    ensures DistBand(dist) < 30 && DIST_BASE[DistBand(dist)] <= dist
    ensures ReadBits(S, p, DIST_EXTRA[DistBand(dist)])
            == Some((dist - DIST_BASE[DistBand(dist)], p + |DistBits(dist)|))
  {
    hide At, ToBits, ReadBits, Pow2;
    DistBandOk(dist);
    var c := DistBand(dist);
    ReadBitsAt(S, p, Less(dist, DIST_BASE[c]), DIST_EXTRA[c]);
  }

  lemma DistanceItem(dl: seq<nat>, S: seq<bool>, p: nat, c: nat, q: nat, len: nat, dist: nat)
    requires c < 30 && Symbol(dl, S, p) == Some((c, q)) && DIST_BASE[c] <= dist
    requires ReadBits(S, q, DIST_EXTRA[c]).Some? && ReadBits(S, q, DIST_EXTRA[c]).value.0 == dist - DIST_BASE[c]
    ensures ReadDistance(dl, S, p, len) == Some((Copy(len, dist), ReadBits(S, q, DIST_EXTRA[c]).value.1))
  {
    hide Symbol, ReadBits;
  }

  lemma CodeIs(lens: seq<nat>)
    ensures Code(lens) <==> LensOk(lens) && !Oversubscribed(lens)
  {}

  /** What a token stands for. */
  function ItemOf(t: Token): Item {
    match t
    case Literal(c) => Byte(c)
    case Match(len, dist) => Copy(len, dist)
  }

  lemma TokenRead(ll: seq<nat>, dl: seq<nat>, S: seq<bool>, p: nat, t: Token)
    requires Code(ll) && Code(dl) && Encodable(ll, dl, t) && At(S, p, TokenBits(ll, dl, t))
    ensures ReadItem(ll, dl, S, p) == Some((ItemOf(t), p + |TokenBits(ll, dl, t)|))
  {
    hide *;
    if t.Match? {
      MatchRead(ll, dl, S, p, t.len, t.dist);
      assert t == Match(t.len, t.dist);
      ItemIs(t);
    } else {
      LiteralIs(ll, dl, t);
      CodeIs(ll);
      SymbolAt(ll, S, p, t.c);
      LiteralItem(ll, dl, S, p, t.c);
    }
  }

  lemma ItemIs(t: Token)
    requires t.Match?
    ensures ItemOf(t) == Copy(t.len, t.dist)
  {}

  lemma LiteralIs(ll: seq<nat>, dl: seq<nat>, t: Token)
    requires t.Literal? && Encodable(ll, dl, t)
    ensures t.c < |ll| && ll[t.c] > 0 && TokenBits(ll, dl, t) == Codeword(ll, t.c) && |Codeword(ll, t.c)| == ll[t.c]
    ensures ItemOf(t) == Byte(t.c)
  {}

  lemma LiteralItem(ll: seq<nat>, dl: seq<nat>, S: seq<bool>, p: nat, c: byte)
    requires Symbol(ll, S, p).Some? && Symbol(ll, S, p).value.0 == c
    ensures ReadItem(ll, dl, S, p) == Some((Byte(c), Symbol(ll, S, p).value.1))
  {
    hide Symbol;
  }

  lemma MatchRead(ll: seq<nat>, dl: seq<nat>, S: seq<bool>, p: nat, len: nat, dist: nat)
    requires Code(ll) && Code(dl) && Encodable(ll, dl, Match(len, dist)) && At(S, p, TokenBits(ll, dl, Match(len, dist)))
    ensures ReadItem(ll, dl, S, p) == Some((Copy(len, dist), p + |TokenBits(ll, dl, Match(len, dist))|))
  {
    hide *;
    MatchParts(ll, dl, len, dist);
    LengthBandOk(len);
    var c := LengthBand(len);
    var a, b, d, e := Codeword(ll, LITERALS + 1 + c), LengthBits(len), Codeword(dl, DistBand(dist)), DistBits(dist);
    AtConcat(S, p, a, b + (d + e));
    AtConcat(S, p + |a|, b, d + e);
    CodeIs(ll);
    SymbolAt(ll, S, p, LITERALS + 1 + c);
    LengthRead(S, p + |a|, len);
    LengthItem(ll, dl, S, p, c, p + |a|, len);
    DistanceRead(dl, S, p + |a| + |b|, len, dist);
  }

  lemma MatchParts(ll: seq<nat>, dl: seq<nat>, len: nat, dist: nat)
    requires Encodable(ll, dl, Match(len, dist))
    ensures var c, k := LengthBand(len), DistBand(dist);
            MIN_MATCH <= len <= MAX_MATCH && 1 <= dist <= WSIZE
            && LITERALS + 1 + c < |ll| && ll[LITERALS + 1 + c] > 0 && k < |dl| && dl[k] > 0
            && TokenBits(ll, dl, Match(len, dist))
               == Codeword(ll, LITERALS + 1 + c) + (LengthBits(len) + (Codeword(dl, k) + DistBits(dist)))
  {
    hide Codeword, LengthBits, DistBits, BandOf;
    Regroup(Codeword(ll, LitSymbol(Match(len, dist))), LengthBits(len), Codeword(dl, DistBand(dist)), DistBits(dist));
  }

  lemma LengthRead(S: seq<bool>, p: nat, len: nat)
    requires MIN_MATCH <= len <= MAX_MATCH && At(S, p, LengthBits(len))
    ensures LengthBand(len) < 29 && LENGTH_BASE[LengthBand(len)] <= len
    ensures ReadBits(S, p, LENGTH_EXTRA[LengthBand(len)])
            == Some((len - LENGTH_BASE[LengthBand(len)], p + |LengthBits(len)|))
  {
    hide At, ToBits, ReadBits, Pow2;
    LengthBandOk(len);
    var c := LengthBand(len);
    ReadBitsAt(S, p, Less(len, LENGTH_BASE[c]), LENGTH_EXTRA[c]);
  }

  /** How a length code and its extra bits lead on to the distance. */
  lemma LengthItem(ll: seq<nat>, dl: seq<nat>, S: seq<bool>, p: nat, c: nat, q: nat, len: nat)
    requires c < 29 && Symbol(ll, S, p) == Some((LITERALS + 1 + c, q)) && LENGTH_BASE[c] <= len
    requires ReadBits(S, q, LENGTH_EXTRA[c]).Some? && ReadBits(S, q, LENGTH_EXTRA[c]).value.0 == len - LENGTH_BASE[c]
    ensures ReadItem(ll, dl, S, p) == ReadDistance(dl, S, ReadBits(S, q, LENGTH_EXTRA[c]).value.1, len)
  {
    hide Symbol, ReadBits, ReadDistance;
  }

  lemma Regroup<T>(a: seq<T>, b: seq<T>, c: seq<T>, d: seq<T>)
    ensures a + b + c + d == a + (b + (c + d))
  {}

  // ---- Blocks of tokens

  ghost predicate AllEncodable(ll: seq<nat>, dl: seq<nat>, toks: seq<Token>) {
    forall i :: 0 <= i < |toks| ==> Encodable(ll, dl, toks[i])
  }

  /** The bits of the first n tokens. */
  ghost function TokensBits(ll: seq<nat>, dl: seq<nat>, toks: seq<Token>, n: nat): (s: seq<bool>)
    requires n <= |toks| && AllEncodable(ll, dl, toks)
  {
    if n == 0 then [] else TokensBits(ll, dl, toks, n - 1) + TokenBits(ll, dl, toks[n - 1])
  }

  /** The bits of the tokens and of the end-of-block code. */
  ghost function BlockBits(ll: seq<nat>, dl: seq<nat>, toks: seq<Token>): (s: seq<bool>)
    requires AllEncodable(ll, dl, toks) && END_OF_BLOCK < |ll|
  {
    TokensBits(ll, dl, toks, |toks|) + Codeword(ll, END_OF_BLOCK)
  }

  /** What the first n tokens append to out. */
  function Expand(out: seq<byte>, toks: seq<Token>, n: nat): (r: seq<byte>)
    requires n <= |toks|
  {
    if n == 0 then out else Apply(Expand(out, toks, n - 1), toks[n - 1])
  }

  /** Each match is one the format can express and refers to bytes there are. */
  predicate Expands(out: seq<byte>, toks: seq<Token>, n: nat)
    requires n <= |toks|
  {
    n == 0 || (Expands(out, toks, n - 1) && TokenOk(toks[n - 1])
               && Applicable(toks[n - 1], |Expand(out, toks, n - 1)|))
  }

  lemma {:induction false} TokensRead(ll: seq<nat>, dl: seq<nat>, S: seq<bool>, p: nat, toks: seq<Token>, n: nat,
                                      out: seq<byte>)
    requires Code(ll) && Code(dl) && AllEncodable(ll, dl, toks) && n <= |toks|
    requires Expands(out, toks, n) && At(S, p, TokensBits(ll, dl, toks, n))
    ensures ReadItems(ll, dl, S, p, out)
            == ReadItems(ll, dl, S, p + |TokensBits(ll, dl, toks, n)|, Expand(out, toks, n))
  {
    hide Code, At, Encodable, TokenBits, ReadItem;
    if n > 0 {
      var a, b, t := TokensBits(ll, dl, toks, n - 1), TokenBits(ll, dl, toks[n - 1]), toks[n - 1];
      AtConcat(S, p, a, b);
      TokensRead(ll, dl, S, p, toks, n - 1, out);
      TokenRead(ll, dl, S, p + |a|, t);
    }
  }

  /** A block's elements decode to what its tokens stand for. */
  lemma BlockRead(ll: seq<nat>, dl: seq<nat>, S: seq<bool>, p: nat, toks: seq<Token>, out: seq<byte>)
    requires Code(ll) && Code(dl) && AllEncodable(ll, dl, toks) && END_OF_BLOCK < |ll| && ll[END_OF_BLOCK] > 0
    requires Expands(out, toks, |toks|) && At(S, p, BlockBits(ll, dl, toks))
    ensures ReadItems(ll, dl, S, p, out) == Some((Expand(out, toks, |toks|), p + |BlockBits(ll, dl, toks)|))
  {
    hide *;
    var a, b := TokensBits(ll, dl, toks, |toks|), Codeword(ll, END_OF_BLOCK);
    BlockBitsAre(ll, dl, toks);
    AtConcat(S, p, a, b);
    TokensRead(ll, dl, S, p, toks, |toks|, out);
    EndRead(ll, dl, S, p + |a|, Expand(out, toks, |toks|));
  }

  lemma BlockBitsAre(ll: seq<nat>, dl: seq<nat>, toks: seq<Token>)
    requires AllEncodable(ll, dl, toks) && END_OF_BLOCK < |ll|
    ensures BlockBits(ll, dl, toks) == TokensBits(ll, dl, toks, |toks|) + Codeword(ll, END_OF_BLOCK)
    ensures |Codeword(ll, END_OF_BLOCK)| == ll[END_OF_BLOCK]
  {}

  lemma EndRead(ll: seq<nat>, dl: seq<nat>, S: seq<bool>, p: nat, out: seq<byte>)
    requires Code(ll) && END_OF_BLOCK < |ll| && ll[END_OF_BLOCK] > 0 && At(S, p, Codeword(ll, END_OF_BLOCK))
    ensures ReadItems(ll, dl, S, p, out) == Some((out, p + ll[END_OF_BLOCK]))
  {
    SymbolAt(ll, S, p, END_OF_BLOCK);
    hide At, Symbol, LensOk, Oversubscribed, Codeword;
  }
}
