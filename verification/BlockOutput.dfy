/** The block level of the compressor: ct_init, init_block, ct_tally, flush_block and what they call. */
module BlockOutput {
  import opened Options
  import opened Bits
  import opened BitWriting
  import opened PrefixCodes
  import opened Lz77
  import opened Rfc1951
  import opened Sums
  import opened Huffman
  import opened Tokens
  import opened Trees
  import opened CodeLengths
  import opened FirstPass
  import opened SecondPass
  import opened Forcing
  import opened TreeBuilding
  import opened Blocks
  import opened TokenCounts
  import opened CodeTables
  import opened TallyBuffers
  import opened TreeFacts
  import opened BlockCodes
  import opened FixedCodes

  const HEAP_SIZE: nat := 2 * L_CODES + 1
  const EXTRA_BLBITS: seq<nat> := [0, 0, 0, 0, 0, 0, 0, 0, 0, 0, 0, 0, 0, 0, 0, 0, 2, 3, 7]
  const MAX_BL_BITS: nat := 7

  /** The tables of ct_init. */
  ghost predicate TablesOk(lengthCode: seq<nat>, baseLength: seq<nat>, distCode: seq<nat>, baseDist: seq<nat>) {
    |lengthCode| == 256 && (forall i :: 0 <= i < 256 ==> lengthCode[i] == LengthBand(i + MIN_MATCH))
    && |baseLength| == LENGTH_CODES && (forall c :: 0 <= c < 28 ==> baseLength[c] == LENGTH_BASE[c] - MIN_MATCH)
    && |distCode| == 512 && (forall d :: 0 <= d < 32768 ==> DCode(distCode, d) == DistBand(d + 1))
    && |baseDist| == D_CODES && forall c :: 0 <= c < D_CODES ==> baseDist[c] == DIST_BASE[c] - 1
  }

  lemma TablesMade(lengthCode: seq<nat>, baseLength: seq<nat>, distCode: seq<nat>, baseDist: seq<nat>)
    requires |lengthCode| == 256 && (forall i :: 0 <= i < 256 ==> lengthCode[i] == LengthBand(i + MIN_MATCH))
    requires |baseLength| == LENGTH_CODES && (forall c :: 0 <= c < 28 ==> baseLength[c] == LENGTH_BASE[c] - MIN_MATCH)
    requires |distCode| == 512 && (forall d :: 0 <= d < 32768 ==> DCode(distCode, d) == DistBand(d + 1))
    requires |baseDist| == D_CODES && forall c :: 0 <= c < D_CODES ==> baseDist[c] == DIST_BASE[c] - 1
    ensures TablesOk(lengthCode, baseLength, distCode, baseDist)
  {}

  lemma LengthLookup(lengthCode: seq<nat>, baseLength: seq<nat>, distCode: seq<nat>, baseDist: seq<nat>, len: nat)
    requires TablesOk(lengthCode, baseLength, distCode, baseDist) && MIN_MATCH <= len <= MAX_MATCH
    ensures |lengthCode| == 256 && |baseLength| == LENGTH_CODES == |LENGTH_EXTRA|
    ensures var c := lengthCode[len - MIN_MATCH];
            c == LengthBand(len) < 29 && LENGTH_EXTRA[c] <= 5
            && (LENGTH_EXTRA[c] == 0 ==> LengthBits(len) == [])
            && (LENGTH_EXTRA[c] != 0
                ==> baseLength[c] <= len - MIN_MATCH && len - MIN_MATCH - baseLength[c] < Pow2(LENGTH_EXTRA[c])
                    && LengthBits(len) == ToBits(len - MIN_MATCH - baseLength[c], LENGTH_EXTRA[c]))
  {
    hide BandOf, Pow2;
    BandsOk();
    LengthBandOk(len);
    assert lengthCode[len - MIN_MATCH] == LengthBand(len - MIN_MATCH + MIN_MATCH);
  }

  lemma DistLookup(lengthCode: seq<nat>, baseLength: seq<nat>, distCode: seq<nat>, baseDist: seq<nat>, dist: nat)
    requires TablesOk(lengthCode, baseLength, distCode, baseDist) && 1 <= dist <= WSIZE
    ensures |distCode| == 512 && |baseDist| == D_CODES == |DIST_EXTRA| && dist - 1 < 32768
    ensures var c := DCode(distCode, dist - 1);
            c == DistBand(dist) < 30 && DIST_EXTRA[c] <= 13
            && (DIST_EXTRA[c] == 0 ==> DistBits(dist) == [])
            && (DIST_EXTRA[c] != 0
                ==> baseDist[c] <= dist - 1 && dist - 1 - baseDist[c] < Pow2(DIST_EXTRA[c])
                    && DistBits(dist) == ToBits(dist - 1 - baseDist[c], DIST_EXTRA[c]))
  {
    hide BandOf, Pow2, DCode;
    BandsOk();
    DistBandOk(dist);
    assert DCode(distCode, dist - 1) == DistBand(dist - 1 + 1);
  }

  lemma MatchBits(ll: seq<nat>, dl: seq<nat>, t: Token)
    requires Encodable(ll, dl, t) && t.Match?
    ensures MIN_MATCH <= t.len <= MAX_MATCH && 1 <= t.dist <= WSIZE
    ensures LITERALS + 1 + LengthBand(t.len) < |ll| && ll[LITERALS + 1 + LengthBand(t.len)] > 0
    ensures DistBand(t.dist) < |dl| && dl[DistBand(t.dist)] > 0
    ensures TokenBits(ll, dl, t)
            == Codeword(ll, LITERALS + 1 + LengthBand(t.len)) + LengthBits(t.len) + Codeword(dl, DistBand(t.dist)) + DistBits(t.dist)
  {
    hide BandOf, Codeword, LengthBits, DistBits;
  }

  lemma TokensBitsNext(ll: seq<nat>, dl: seq<nat>, toks: seq<Token>, n: nat, start: seq<bool>)
    requires n < |toks| && AllEncodable(ll, dl, toks)
    ensures Encodable(ll, dl, toks[n])
    ensures start + TokensBits(ll, dl, toks, n + 1) == start + TokensBits(ll, dl, toks, n) + TokenBits(ll, dl, toks[n])
  {
    hide Encodable, TokenBits;
    Assoc(start, TokensBits(ll, dl, toks, n), TokenBits(ll, dl, toks[n]));
  }

  lemma NoTokenBits(ll: seq<nat>, dl: seq<nat>, toks: seq<Token>, start: seq<bool>)
    requires AllEncodable(ll, dl, toks)
    ensures start + TokensBits(ll, dl, toks, 0) == start
  {
    hide Encodable;
  }

  lemma BlockBitsIs(ll: seq<nat>, dl: seq<nat>, toks: seq<Token>, start: seq<bool>)
    requires AllEncodable(ll, dl, toks) && END_OF_BLOCK < |ll|
    ensures start + BlockBits(ll, dl, toks) == start + TokensBits(ll, dl, toks, |toks|) + Codeword(ll, END_OF_BLOCK)
  {
    hide Encodable, TokensBits, Codeword;
    Assoc(start, TokensBits(ll, dl, toks, |toks|), Codeword(ll, END_OF_BLOCK));
  }

  lemma FourParts(s: seq<bool>, a: seq<bool>, b: seq<bool>, c: seq<bool>, d: seq<bool>)
    ensures s + (a + b + c + d) == s + a + b + c + d
  {}

  lemma AddNothing(s: seq<bool>)
    ensures s + [] == s
  {}

  lemma Limits()
    ensures MIN_MATCH == 3 && MAX_MATCH == 258 && LENGTH_CODES == 29 && D_CODES == 30
  {}

  lemma LitByteIs(t: Token)
    requires TokenOk(t)
    ensures t.Match? ==> LitByte(t) == t.len - MIN_MATCH
    ensures t.Literal? ==> LitByte(t) == t.c
  {}

  ghost predicate Distinct(dl: array<CtData>, dd: array<CtData>, bl: array<CtData>, stl: array<CtData>, std: array<CtData>) {
    dl != dd && dl != bl && dl != stl && dl != std && dd != bl && dd != stl && dd != std && bl != stl && bl != std && stl != std
  }

  class BlockWriter {
    const w: BitWriter
    const builder: TreeBuilder
    const dynLtree: array<CtData>
    const dynDtree: array<CtData>
    const blTree: array<CtData>
    const staticLtree: array<CtData>
    const staticDtree: array<CtData>
    const lDesc: TreeDesc
    const dDesc: TreeDesc
    const blDesc: TreeDesc
    var lengthCode: seq<nat>
    var baseLength: seq<nat>
    var distCode: seq<nat>
    var baseDist: seq<nat>
    var lBuf: seq<byte>
    var dBuf: seq<nat>
    var flagBuf: seq<nat>
    var flags: nat
    var flagBit: nat
    var compressedLen: nat
    /** The tokens of the block so far, and all that were ever tallied. */
    ghost var toks: seq<Token>
    ghost var tallied: seq<Token>

    ghost function Repr(): set<object> {
      {this, w, builder, builder.heap, builder.depth, dynLtree, dynDtree, blTree, staticLtree, staticDtree, lDesc, dDesc, blDesc}
    }

    /** How the parts belong together; all of it is set once. */
    ghost predicate Shape() {
      ShapeOf(lDesc, dynLtree, staticLtree, LENGTH_EXTRA, 257, L_CODES, MAX_BITS) && dynLtree.Length == HEAP_SIZE
      && ShapeOf(dDesc, dynDtree, staticDtree, DIST_EXTRA, 0, D_CODES, MAX_BITS) && dynDtree.Length == 2 * D_CODES + 1
      && ShapeOf(blDesc, blTree, null, EXTRA_BLBITS, 0, BL_CODES, MAX_BL_BITS) && blTree.Length == 2 * BL_CODES + 1
      && staticLtree.Length == 288 && staticDtree.Length == D_CODES
      && builder.heap != builder.depth && builder.heap.Length == builder.depth.Length == HEAP_SIZE
      && Distinct(dynLtree, dynDtree, blTree, staticLtree, staticDtree)
      && lDesc != dDesc && lDesc != blDesc && dDesc != blDesc
    }

    ghost predicate ShapeOf(d: TreeDesc, dyn: array<CtData>, stat: array?<CtData>, extra: seq<nat>, base: nat, elems: nat, maxLen: nat) {
      d.dynTree == dyn && d.staticTree == stat && d.extraBits == extra && d.extraBase == base && d.elems == elems
      && d.maxLength == maxLen
    }

    /** What ct_init set up is still there. */
    ghost predicate Ready()
      reads this, staticLtree, staticDtree
    {
      Shape() && TablesOk(lengthCode, baseLength, distCode, baseDist)
      && Coded(staticLtree[..], FixedLit()) && Coded(staticDtree[..], FixedDist())
    }

    /** A block is open: its tokens are in the buffers and their symbols are counted. */
    ghost predicate Open()
      reads this, builder, dynLtree, dynDtree, blTree
    {
      Buffered(toks, lBuf, dBuf, flagBuf, flags, flagBit) && SymbolsCounted()
    }

    ghost predicate SymbolsCounted()
      reads this, builder, dynLtree, dynDtree, blTree
    {
      Shape() && TokensOk(toks) && |toks| < LIT_BUFSIZE
      && Freqs(dynLtree[..], L_CODES) == LitFreqs(toks, |toks|) && Freqs(dynDtree[..], D_CODES) == DistFreqs(toks, |toks|)
      && Freqs(blTree[..], BL_CODES) == Repeat(0, BL_CODES) && builder.optLen == 0 && builder.staticLen == 0
    }

    /** compressed_len counts the bits sent. */
    ghost predicate Valid()
      reads Repr()
    {
      Ready() && Open() && w.Valid() && compressedLen == |w.Sent()|
    }

    /** The tables; the trees are given. */
    constructor (dl: array<CtData>, dd: array<CtData>, bl: array<CtData>, stl: array<CtData>, std: array<CtData>)
      requires dl.Length == HEAP_SIZE && dd.Length == 2 * D_CODES + 1 && bl.Length == 2 * BL_CODES + 1
      requires stl.Length == 288 && std.Length == D_CODES && Coded(stl[..], FixedLit()) && Coded(std[..], FixedDist())
      requires Distinct(dl, dd, bl, stl, std)
      ensures Ready() && w.Valid() && w.Sent() == [] && compressedLen == 0 && tallied == []
      ensures fresh(Repr() - {dl, dd, bl, stl, std})
    {
      hide Coded, TablesOk, FixedLit, FixedDist, BytesToBits, ToBits, LENGTH_EXTRA, DIST_EXTRA, EXTRA_BLBITS, DIST_BASE, LENGTH_BASE,
           DistBand, LengthBand, DCode, Pow2;
      var lc, bln := LengthTables();
      var dc, bdn := DistTables();
      TablesMade(lc, bln, dc, bdn);
      lengthCode, baseLength, distCode, baseDist := lc, bln, dc, bdn;
      w := new BitWriter();
      builder := new TreeBuilder(HEAP_SIZE);
      dynLtree, dynDtree, blTree, staticLtree, staticDtree := dl, dd, bl, stl, std;
      lDesc := new TreeDesc(dl, stl, LENGTH_EXTRA, LITERALS + 1, L_CODES, MAX_BITS);
      dDesc := new TreeDesc(dd, std, DIST_EXTRA, 0, D_CODES, MAX_BITS);
      blDesc := new TreeDesc(bl, null, EXTRA_BLBITS, 0, BL_CODES, MAX_BL_BITS);
      compressedLen := 0;
      toks, tallied := [], [];
      lBuf, dBuf, flagBuf, flags, flagBit := [], [], [], 0, 1;
    }

    /** Initialize a new block. */
    method InitBlock()
      requires Ready()
      modifies this`lBuf, this`dBuf, this`flagBuf, this`flags, this`flagBit, this`toks, builder`optLen, builder`staticLen,
               dynLtree, dynDtree, blTree
      ensures Ready() && Open() && toks == []
    {
      hide Coded, TablesOk, Buffered, FixedLit, FixedDist;
      ClearFreqs(dynLtree, L_CODES);
      ClearFreqs(dynDtree, D_CODES);
      ClearFreqs(blTree, BL_CODES);
      dynLtree[END_OF_BLOCK] := dynLtree[END_OF_BLOCK].(fc := 1);
      builder.optLen, builder.staticLen := 0, 0;
      lBuf, dBuf, flagBuf := [], [], [];
      flags, flagBit := 0, 1;
      toks := [];
      NoneBuffered();
      assert Freqs(dynLtree[..], L_CODES) == LitFreqs([], 0);
      assert Freqs(dynDtree[..], D_CODES) == DistFreqs([], 0);
      assert Freqs(blTree[..], BL_CODES) == Repeat(0, BL_CODES);
    }

    // ---- compress_block

    /** The buffers are complete: compress_block can read the tokens back. */
    ghost predicate Saved()
      reads this
    {
      Reading(toks, flagBuf, 0, 0, 0, 0) && lBuf == LitBuf(toks, |toks|) && dBuf == DistBuf(toks, |toks|)
      && TokensOk(toks) && TablesOk(lengthCode, baseLength, distCode, baseDist)
    }

    /** The length and distance of a match, with their extra bits. lc is the length - MIN_MATCH. */
    method SendMatch(lc0: nat, dist0: nat, ltree: array<CtData>, dtree: array<CtData>, ghost ll: seq<nat>, ghost dl: seq<nat>,
                     ghost t: Token)
      requires TablesOk(lengthCode, baseLength, distCode, baseDist) && w.Valid() && Coded(ltree[..], ll) && Coded(dtree[..], dl)
      requires Encodable(ll, dl, t) && t.Match? && MIN_MATCH <= t.len && lc0 == t.len - MIN_MATCH && dist0 == t.dist - 1
      modifies w
      ensures w.Valid() && w.Sent() == old(w.Sent()) + TokenBits(ll, dl, t) && old(w.out) <= w.out
    {
      hide *;
      Limits();
      ghost var start := w.Sent();
      MatchBits(ll, dl, t);
      LengthLookup(lengthCode, baseLength, distCode, baseDist, t.len);
      DistLookup(lengthCode, baseLength, distCode, baseDist, t.dist);
      FourParts(start, Codeword(ll, LITERALS + 1 + LengthBand(t.len)), LengthBits(t.len),
                Codeword(dl, DistBand(t.dist)), DistBits(t.dist));
      var lc, dist := lc0, dist0;
      var code := lengthCode[lc];
      SendCode(w, ltree, code + LITERALS + 1, ll);
      AddNothing(w.Sent());
      var extra := LENGTH_EXTRA[code];
      if extra != 0 {
        lc := lc - baseLength[code];
        w.SendBits(lc, extra);
      }
      code := DCode(distCode, dist);
      SendCode(w, dtree, code, dl);
      AddNothing(w.Sent());
      extra := DIST_EXTRA[code];
      if extra != 0 {
        dist := dist - baseDist[code];
        w.SendBits(dist, extra);
      }
    }

    /** Send the block data compressed using the given trees. */
    method CompressBlock(ltree: array<CtData>, dtree: array<CtData>, ghost ll: seq<nat>, ghost dl: seq<nat>)
      requires Saved() && w.Valid() && Coded(ltree[..], ll) && Coded(dtree[..], dl)
      requires AllEncodable(ll, dl, toks) && END_OF_BLOCK < |ll| && ll[END_OF_BLOCK] > 0
      modifies w
      ensures w.Valid() && w.Sent() == old(w.Sent()) + BlockBits(ll, dl, toks) && old(w.out) <= w.out
    {
      hide Reading, TablesOk, Coded, Encodable, TokenBits, TokensBits, BlockBits, Codeword, LitByte, And;
      var lx: nat, dx: nat, fx: nat, flag: nat := 0, 0, 0, 0;
      ghost var start := w.Sent();
      NoTokenBits(ll, dl, toks, start);
      while lx < |lBuf|
        invariant 0 <= lx <= |toks| && Saved() && w.Valid() && old(w.out) <= w.out
        invariant Reading(toks, flagBuf, lx, dx, fx, flag)
        invariant w.Sent() == start + TokensBits(ll, dl, toks, lx)
      {
        NextReading(toks, flagBuf, lx, dx, fx, flag);
        TokensBitsNext(ll, dl, toks, lx, start);
        LitByteIs(toks[lx]);
        if lx % 8 == 0 {
          flag := flagBuf[fx];
          fx := fx + 1;
        }
        var lc := lBuf[lx];
        ghost var t := toks[lx];
        lx := lx + 1;
        if And(flag, 1) == 0 {
          LiteralBits(ll, dl, t);
          SendCode(w, ltree, lc, ll);
        } else {
          var dist := dBuf[dx];
          dx := dx + 1;
          MatchRange(t);
          SendMatch(lc, dist, ltree, dtree, ll, dl, t);
        }
        flag := flag / 2;
      }
      BlockBitsIs(ll, dl, toks, start);
      SendCode(w, ltree, END_OF_BLOCK, ll);
    }

    // ---- ct_tally

    /** Save the match info and tally the frequency counts; true if the current block must be flushed. */
    method Tally(dist0: nat, lc: byte, strstart: int, blockStart: int) returns (flush: bool)
      requires Valid() && |toks| < LIT_BUFSIZE - 1 && dist0 <= WSIZE
      modifies this`lBuf, this`dBuf, this`flagBuf, this`flags, this`flagBit, this`toks, this`tallied, dynLtree,
               dynDtree
      ensures Valid() && w.Sent() == old(w.Sent())
      ensures var t := if dist0 == 0 then Literal(lc) else Match(lc + MIN_MATCH, dist0);
              toks == old(toks) + [t] && tallied == old(tallied) + [t]
      ensures flush <==> Profits(toks, strstart - blockStart) || |toks| == LIT_BUFSIZE - 1
    {
      hide *;
      ghost var t := if dist0 == 0 then Literal(lc) else Match(lc + MIN_MATCH, dist0);
      TalliedByte(lc, dist0);
      TallyFacts(t);
      CountToken(dist0, lc, t);
      Record(dist0, lc, t);
      TalliedValid();
      TalliedSizes();
      ProfitsIs(toks, strstart - blockStart);
      BufferRoom(toks);
      flush := false;
      if |lBuf| % 0x1000 == 0 {
        flush := Profitable(strstart, blockStart);
      }
      flush := flush || |lBuf| == LIT_BUFSIZE - 1 || |dBuf| == LIT_BUFSIZE;
    }

    /** Everything but the counts of the symbols, which stand for the tokens `counted`. */
    ghost predicate Counting(counted: seq<Token>)
      reads this`lengthCode, this`baseLength, this`distCode, this`baseDist, this`compressedLen, w, builder, blTree,
            staticLtree, staticDtree
    {
      Shape() && TablesOk(lengthCode, baseLength, distCode, baseDist)
      && Coded(staticLtree[..], FixedLit()) && Coded(staticDtree[..], FixedDist())
      && TokensOk(counted) && |counted| < LIT_BUFSIZE
      && Freqs(blTree[..], BL_CODES) == Repeat(0, BL_CODES) && builder.optLen == 0 && builder.staticLen == 0
      && w.Valid() && compressedLen == |w.Sent()|
    }

    lemma TallyFacts(t: Token)
      requires Valid() && |toks| < LIT_BUFSIZE - 1 && TokenOk(t)
      ensures Counting(toks + [t]) && Buffered(toks, lBuf, dBuf, flagBuf, flags, flagBit)
      ensures dynLtree != blTree && dynLtree != staticLtree && dynLtree != staticDtree
      ensures dynDtree != blTree && dynDtree != staticLtree && dynDtree != staticDtree && dynLtree != dynDtree
      ensures Shape() && TablesOk(lengthCode, baseLength, distCode, baseDist)
      ensures Freqs(dynLtree[..], L_CODES) == LitFreqs(toks, |toks|) && Freqs(dynDtree[..], D_CODES) == DistFreqs(toks, |toks|)
    {
      hide Coded, FixedLit, FixedDist, Buffered, LitFreqs, DistFreqs, TablesOk, BytesToBits, ToBits, TokenOk;
    }

    lemma TalliedValid()
      requires Counting(toks) && Buffered(toks, lBuf, dBuf, flagBuf, flags, flagBit)
      requires Freqs(dynLtree[..], L_CODES) == LitFreqs(toks, |toks|) && Freqs(dynDtree[..], D_CODES) == DistFreqs(toks, |toks|)
      ensures Valid()
    {
      hide Coded, FixedLit, FixedDist, Buffered, LitFreqs, DistFreqs, TablesOk, BytesToBits, ToBits, TokenOk;
    }

    /** Append to l_buf, d_buf and flag_buf. */
    method Record(dist0: nat, lc: byte, ghost t: Token)
      requires Buffered(toks, lBuf, dBuf, flagBuf, flags, flagBit)
      requires t == if dist0 == 0 then Literal(lc) else Match(lc + MIN_MATCH, dist0)
      modifies this`lBuf, this`dBuf, this`flagBuf, this`flags, this`flagBit, this`toks, this`tallied
      ensures Buffered(toks, lBuf, dBuf, flagBuf, flags, flagBit)
      ensures toks == old(toks) + [t] && tallied == old(tallied) + [t]
    {
      hide *;
      TokenBuffered(toks, lBuf, dBuf, flagBuf, flags, flagBit, t);
      BufferSizes(toks, lBuf, dBuf, flagBuf, flags, flagBit);
      TalliedByte(lc, dist0);
      lBuf := lBuf + [lc];
      if dist0 != 0 {
        dBuf := dBuf + [dist0 - 1];
        flags := Or(flags, flagBit);
      }
      flagBit := flagBit * 2 % 256;
      if |lBuf| % 8 == 0 {
        flagBuf := flagBuf + [flags];
        flags, flagBit := 0, 1;
      }
      toks, tallied := toks + [t], tallied + [t];
    }

    /** Tally the frequency counts. */
    method CountToken(dist0: nat, lc: byte, ghost t: Token)
      requires Shape() && TablesOk(lengthCode, baseLength, distCode, baseDist) && dist0 <= WSIZE
      requires t == if dist0 == 0 then Literal(lc) else Match(lc + MIN_MATCH, dist0)
      requires Freqs(dynLtree[..], L_CODES) == LitFreqs(toks, |toks|) && Freqs(dynDtree[..], D_CODES) == DistFreqs(toks, |toks|)
      modifies dynLtree, dynDtree
      ensures Freqs(dynLtree[..], L_CODES) == LitFreqs(toks + [t], |toks| + 1)
      ensures Freqs(dynDtree[..], D_CODES) == DistFreqs(toks + [t], |toks| + 1)
    {
      hide LitFreqs, DistFreqs, Raised, TablesOk, BandOf;
      FreqsNext(toks, t);
      if dist0 == 0 {
        IncFreq(dynLtree, lc, L_CODES);
      } else {
        var dist := dist0 - 1;
        TallyCodes(lengthCode, baseLength, distCode, baseDist, lc, dist0);
        IncFreq(dynLtree, lengthCode[lc] + LITERALS + 1, L_CODES);
        IncFreq(dynDtree, DCode(distCode, dist), D_CODES);
      }
    }

    /** Whether it seems profitable to stop the current block here. */
    method Profitable(strstart: int, blockStart: int) returns (r: bool)
      requires Valid() && |lBuf| % 4096 == 0
      ensures r == Profits(toks, strstart - blockStart) && Valid() && w.Sent() == old(w.Sent())
    {
      hide *;
      TalliedSizes();
      var outLength: nat := |lBuf| * 8;
      var inLength := strstart - blockStart;
      var dcode := 0;
      SumStarts(dynDtree[..]);
      while dcode < D_CODES
        invariant 0 <= dcode <= D_CODES && outLength == |lBuf| * 8 + CodeSum(Freqs(dynDtree[..], D_CODES), dcode)
        invariant Valid() && w.Valid() && w.Sent() == old(w.Sent())
      {
        SumGoesOn(dynDtree[..], dcode);
        outLength := outLength + dynDtree[dcode].fc * (5 + DIST_EXTRA[dcode]);
        dcode := dcode + 1;
      }
      GuessIs(toks, |toks|);
      outLength := outLength / 8;
      r := |dBuf| < |lBuf| / 2 && outLength < inLength / 2;
      ProfitsIs(toks, inLength);
    }

    lemma TalliedSizes()
      requires Valid()
      ensures w.Valid() && |lBuf| == |toks| && |dBuf| == MatchCount(toks, |toks|) && D_CODES == |DIST_EXTRA| <= dynDtree.Length
      ensures Freqs(dynDtree[..], D_CODES) == DistFreqs(toks, |toks|) && forall i :: 0 <= i < |toks| ==> TokenOk(toks[i])
    {
      hide Coded, FixedLit, FixedDist, LitFreqs, DistFreqs, TablesOk, BytesToBits, ToBits, TokenOk, Marks, Val;
      BufferSizes(toks, lBuf, dBuf, flagBuf, flags, flagBit);
      DistBufSize(toks, |toks|);
    }

    // ---- build_bl_tree

    /** The trees hold the codes ll and dl, guards set. */
    ghost predicate Trees(ll: seq<nat>, dl: seq<nat>)
      reads dynLtree, dynDtree, lDesc, dDesc
    {
      Coded(dynLtree[..], ll) && Coded(dynDtree[..], dl) && |ll| == lDesc.maxCode + 1 && |dl| == dDesc.maxCode + 1
    }

    /** Determine the bit length frequencies, build the bit length tree, and count the bits of all of it. */
    method BuildBlTree(ghost ll: seq<nat>, ghost dl: seq<nat>) returns (maxBlindex: nat, ghost cl: seq<nat>)
      requires Shape() && Trees(ll, dl) && Freqs(blTree[..], BL_CODES) == Repeat(0, BL_CODES)
      requires 257 <= |ll| <= L_CODES && 1 <= |dl| <= D_CODES && Complete(ll) && Complete(dl) && ll[END_OF_BLOCK] > 0
      modifies builder, builder.heap, builder.depth, blDesc, dynLtree, dynDtree, blTree
      ensures DynamicOk(ll, dl, cl, maxBlindex + 1) && Trees(ll, dl) && Coded(blTree[..], cl)
      ensures Guarded(dynLtree[..], ll) && Guarded(dynDtree[..], dl)
      ensures |cl| == BL_CODES && maxBlindex < BL_CODES && AllSendable(cl, Runs(ll)) && AllSendable(cl, Runs(dl))
      ensures builder.optLen == old(builder.optLen) + |TreesBits(ll, dl, cl, maxBlindex + 1)|
      ensures builder.staticLen == old(builder.staticLen)
      ensures BestRuns(Runs(ll), Runs(dl), cl)
    {
      hide Coded, Guarded, Complete, Codeword, Pow2, Runs, RunsFrom, Tallied, AllSendable, DynamicOk, TreesBits, GoodLengths,
           Used, Cost, Total, Dls, BitsOf, Lens, SymsBits, Ordered, BestRuns, Freqs;
      CodedLens(dynLtree[..], ll);
      CodedLens(dynDtree[..], dl);
      RunsOk(ll);
      RunsOk(dl);
      ghost var lt: seq<CtData>, dt: seq<CtData> := dynLtree[..], dynDtree[..];
      ScanTree(dynLtree, lDesc.maxCode, blTree, ll);
      ScanTree(dynDtree, dDesc.maxCode, blTree, dl);
      CodedKept(lt, dynLtree[..], ll);
      CodedKept(dt, dynDtree[..], dl);
      ghost var F0 := Freqs(blTree[..], BL_CODES);
      SymTotals(Runs(ll), Runs(dl));
      DescsValid();
      ghost var F, depths := builder.BuildTree(blDesc);
      cl := Lens(blTree[..], BL_CODES);
      BlLens(blTree[..], F, blDesc.maxCode, depths, F0, cl);
      BlCheapest(blTree[..], F, blDesc.maxCode, depths, Runs(ll), Runs(dl), cl);
      SymsSendable(cl, Runs(ll), Runs(dl), F0);
      BlBits(blTree[..], cl, blDesc.Extras());
      SymsCost(cl, BitsOf(Dls(blTree[..]), blDesc.Extras()), Runs(ll), Runs(dl), F0);
      SomeLate(cl, ll, dl, F0, END_OF_BLOCK);
      maxBlindex := LastSent(cl);
      builder.optLen := builder.optLen + 3 * (maxBlindex + 1) + 5 + 5 + 4;
      DynamicMade(ll, dl, cl, maxBlindex + 1);
      TreesSize(ll, dl, cl, maxBlindex + 1);
    }

    /** The index in bl_order of the last bit length code to send. */
    method LastSent(ghost cl: seq<nat>) returns (maxBlindex: nat)
      requires BL_CODES <= blTree.Length && cl == Lens(blTree[..], BL_CODES)
      requires exists r :: 3 <= r < BL_CODES && cl[Ordered(r)] != 0
      ensures 3 <= maxBlindex < BL_CODES && forall i :: maxBlindex < i < BL_CODES ==> cl[Ordered(i)] == 0
    {
      hide *;
      ClIs(blTree[..], cl);
      OrderedIs();
      maxBlindex := BL_CODES - 1;
      while maxBlindex >= 3
        invariant 2 <= maxBlindex < BL_CODES && exists r :: 3 <= r <= maxBlindex && cl[Ordered(r)] != 0
        invariant forall i :: maxBlindex < i < BL_CODES ==> cl[Ordered(i)] == 0
        decreases maxBlindex
      {
        if blTree[BL_ORDER[maxBlindex]].dl != 0 {
          break;
        }
        maxBlindex := maxBlindex - 1;
      }
    }

    /** Both trees and the bit length tree; opt_len and static_len become the lengths of the block's data. */
    method BuildTrees() returns (maxBlindex: nat, ghost ll: seq<nat>, ghost dl: seq<nat>, ghost cl: seq<nat>)
      requires Ready() && SymbolsCounted()
      modifies builder, builder.heap, builder.depth, lDesc, dDesc, blDesc, dynLtree, dynDtree, blTree
      ensures Ready() && DynamicOk(ll, dl, cl, maxBlindex + 1) && Trees(ll, dl) && Coded(blTree[..], cl)
      ensures Guarded(dynLtree[..], ll) && Guarded(dynDtree[..], dl)
      ensures |cl| == BL_CODES && maxBlindex < BL_CODES && AllSendable(cl, Runs(ll)) && AllSendable(cl, Runs(dl))
      ensures AllEncodable(ll, dl, toks) && END_OF_BLOCK < |ll| && ll[END_OF_BLOCK] > 0
      ensures AllEncodable(FixedLit(), FixedDist(), toks) && END_OF_BLOCK < |FixedLit()|
      ensures builder.optLen == |TreesBits(ll, dl, cl, maxBlindex + 1)| + |BlockBits(ll, dl, toks)|
      ensures builder.staticLen == |BlockBits(FixedLit(), FixedDist(), toks)|
      ensures BestCodes(toks, ll, dl)
      ensures BestRuns(Runs(ll), Runs(dl), cl)
    {
      hide Coded, Guarded, Complete, Codeword, Pow2, Runs, RunsFrom, AllSendable, DynamicOk, TreesBits, GoodLengths, BlockBits,
           Used, Cost, Total, Dls, BitsOf, Lens, SymsBits, LitFreqs, DistFreqs, TablesOk, Buffered, FixedLit, FixedDist, Encodable,
           TokensOk, Priced, BestCodes, BestRuns, NeedsMore, Cheapest, Tokens.Code, Usable;
      ghost var LF, DF := Freqs(dynLtree[..], L_CODES), Freqs(dynDtree[..], D_CODES);
      ghost var X, Y := lDesc.Extras(), dDesc.Extras();
      DescsValid();
      FreqTotals(toks, |toks|);
      ghost var F, depths := builder.BuildTree(lDesc);
      TreeLens(dynLtree[..], F, lDesc.maxCode, MAX_BITS, depths, LF, L_CODES);
      TreeCheapest(dynLtree[..], F, lDesc.maxCode, MAX_BITS, depths, LF, L_CODES);
      ll := Lens(dynLtree[..], lDesc.maxCode + 1);
      ghost var lb := BitsOf(Dls(dynLtree[..]), X);
      PricedLens(dynLtree[..], ll, X, true);
      ghost var F', depths' := builder.BuildTree(dDesc);
      TreeLens(dynDtree[..], F', dDesc.maxCode, MAX_BITS, depths', DF, D_CODES);
      TreeCheapest(dynDtree[..], F', dDesc.maxCode, MAX_BITS, depths', DF, D_CODES);
      dl := Lens(dynDtree[..], dDesc.maxCode + 1);
      ghost var db := BitsOf(Dls(dynDtree[..]), Y);
      PricedLens(dynDtree[..], dl, Y, false);
      EndCounted(toks, |toks|);
      BlockEncodable(toks, ll, dl);
      BlockSize(ll, dl, lb, db, toks);
      CompleteUsable(ll);
      CompleteUsable(dl);
      CheapestBest(toks, ll, dl);
      CodedLens(staticLtree[..], FixedLit());
      CodedLens(staticDtree[..], FixedDist());
      PricedLens(staticLtree[..], FixedLit(), X, true);
      PricedLens(staticDtree[..], FixedDist(), Y, false);
      FixedEncodable(toks);
      BlockSize(FixedLit(), FixedDist(), BitsOf(Dls(staticLtree[..]), X), BitsOf(Dls(staticDtree[..]), Y), toks);
      maxBlindex, cl := BuildBlTree(ll, dl);
    }

    // ---- send_all_trees and flush_block

    /** Send the header for a block using dynamic Huffman trees. */
    method SendAllTrees(lcodes: nat, dcodes: nat, blcodes: nat, ghost ll: seq<nat>, ghost dl: seq<nat>, ghost cl: seq<nat>)
      requires Shape() && w.Valid() && DynamicOk(ll, dl, cl, blcodes) && |ll| == lcodes && |dl| == dcodes
      requires |cl| == BL_CODES && blcodes <= BL_CODES && AllSendable(cl, Runs(ll)) && AllSendable(cl, Runs(dl))
      requires Guarded(dynLtree[..], ll) && Guarded(dynDtree[..], dl) && Coded(blTree[..], cl)
      modifies w
      ensures w.Valid() && w.Sent() == old(w.Sent()) + TreesBits(ll, dl, cl, blcodes) && old(w.out) <= w.out
    {
      hide Coded, Guarded, DynamicOk, AllSendable, Runs, RunsFrom, SymsBits, TreesBits, CountBits, ToBits, Pow2, Ordered, OrderedBits,
           Usable, Tokens.Code, OnlyFirst;
      ghost var start := w.Sent();
      DynamicFacts(ll, dl, cl, blcodes);
      TreesParts(ll, dl, cl, blcodes);
      SendCounts(lcodes, dcodes, blcodes);
      SendOrdered(blcodes, cl);
      SendTree(w, dynLtree, lcodes - 1, blTree, ll, cl);
      SendTree(w, dynDtree, dcodes - 1, blTree, dl, cl);
      AllParts(start, CountBits(lcodes, dcodes, blcodes), OrderedBits(cl, blcodes),
               SymsBits(cl, Runs(ll), |Runs(ll)|), SymsBits(cl, Runs(dl), |Runs(dl)|));
    }

    method SendCounts(lcodes: nat, dcodes: nat, blcodes: nat)
      requires w.Valid() && 257 <= lcodes <= 286 && 1 <= dcodes <= 30 && 4 <= blcodes <= BL_CODES
      modifies w
      ensures w.Valid() && w.Sent() == old(w.Sent()) + CountBits(lcodes, dcodes, blcodes) && old(w.out) <= w.out
    {
      hide ToBits, Pow2;
      ghost var start := w.Sent();
      CountsAre(lcodes, dcodes, blcodes);
      Pow2Values();
      w.SendBits(lcodes - 257, 5);
      w.SendBits(dcodes - 1, 5);
      w.SendBits(blcodes - 4, 4);
      ThreeParts(start, ToBits(lcodes - 257, 5), ToBits(dcodes - 1, 5), ToBits(blcodes - 4, 4));
    }

    method SendOrdered(blcodes: nat, ghost cl: seq<nat>)
      requires w.Valid() && |cl| == BL_CODES && blcodes <= BL_CODES && Coded(blTree[..], cl) && forall i :: 0 <= i < BL_CODES ==> cl[i] < 8
      modifies w
      ensures w.Valid() && w.Sent() == old(w.Sent()) + OrderedBits(cl, blcodes) && old(w.out) <= w.out
    {
      hide Coded, ToBits, Pow2, Ordered, OrderedBits;
      ghost var start := w.Sent();
      OrderedIs();
      Pow2Values();
      CodedLens(blTree[..], cl);
      var rank: nat := 0;
      NoneOrdered(cl, start);
      while rank < blcodes
        invariant 0 <= rank <= blcodes && w.Valid() && old(w.out) <= w.out
        invariant w.Sent() == start + OrderedBits(cl, rank)
      {
        OrderedNext(cl, rank, start);
        w.SendBits(blTree[BL_ORDER[rank]].dl, 3);
        rank := rank + 1;
      }
    }

    /** The first three bits of a block. */
    method SendHeader(kind: nat, eof: bool)
      requires w.Valid() && kind < 4
      modifies w
      ensures w.Valid() && w.Sent() == old(w.Sent()) + KindBits(kind, eof) && old(w.out) <= w.out
    {
      hide ToBits, Pow2;
      Pow2Values();
      w.SendBits(2 * kind + (if eof then 1 else 0), 3);
    }

    /** Output the block as it is. */
    method WriteStored(buf: seq<byte>, eof: bool, ghost out: seq<byte>)
      requires w.Valid() && compressedLen == |w.Sent()| && |buf| < 65536
      modifies w, this`compressedLen
      ensures w.Valid() && old(w.out) <= w.out && old(w.Sent()) <= w.Sent()
      ensures compressedLen == |w.Sent()| == (|old(w.Sent())| + 3 + 7) / 8 * 8 + (|buf| + 4) * 8
      ensures BlockAt(w.Sent(), |old(w.Sent())|, eof, out, out + buf)
    {
      hide KindBits, ToBits, BlockAt, StoredBits, BytesToBits, Zeros, Padding, LengthField;
      ghost var start := w.Sent();
      SendHeader(STORED_BLOCK, eof);
      compressedLen := (compressedLen + 3 + 7) / 8 * 8;
      compressedLen := compressedLen + (|buf| + 4) * 8;
      w.CopyBlock(buf, true);
      StoredSent(start, eof, buf);
      StoredBlockAt(start, eof, out, buf);
      KeepsPrefix(start, StoredBits(|start|, eof, buf));
    }

    /** Output the block with the fixed trees. */
    method WriteFixed(eof: bool, ghost out: seq<byte>)
      requires Ready() && Saved() && w.Valid() && compressedLen == |w.Sent()| && Expands(out, toks, |toks|)
      requires AllEncodable(FixedLit(), FixedDist(), toks) && END_OF_BLOCK < |FixedLit()|
      requires builder.staticLen == |BlockBits(FixedLit(), FixedDist(), toks)|
      modifies w, this`compressedLen
      ensures w.Valid() && old(w.out) <= w.out && compressedLen == |w.Sent()| == |old(w.Sent())| + 3 + builder.staticLen
      ensures old(w.Sent()) <= w.Sent()
      ensures BlockAt(w.Sent(), |old(w.Sent())|, eof, out, Expand(out, toks, |toks|))
    {
      hide Coded, KindBits, BlockBits, ToBits, Pow2, FixedLit, FixedDist, AllEncodable, Expands, Expand, BlockAt, TablesOk, Reading,
           BytesToBits, TokensOk, Tokens.Code, LitBuf, DistBuf;
      ghost var start := w.Sent();
      FixedAreCodes();
      FixedEnd();
      SendHeader(STATIC_TREES, eof);
      CompressBlock(staticLtree, staticDtree, FixedLit(), FixedDist());
      compressedLen := compressedLen + 3 + builder.staticLen;
      Assoc(start, KindBits(STATIC_TREES, eof), BlockBits(FixedLit(), FixedDist(), toks));
      FixedBlockAt(start, eof, toks, out);
      KeepsPrefix(start, KindBits(STATIC_TREES, eof) + BlockBits(FixedLit(), FixedDist(), toks));
    }

    /** Output the block in the form chosen: stored, with the fixed trees, or with its own. */
    method WriteBlock(buf: Option<seq<byte>>, storedLen: nat, eof: bool, maxBlindex: nat, optLenb0: nat,
                      ghost out: seq<byte>, ghost block: seq<byte>, ghost ll: seq<nat>, ghost dl: seq<nat>, ghost cl: seq<nat>)
      requires Ready() && Saved() && w.Valid() && compressedLen == |w.Sent()| && |toks| < LIT_BUFSIZE
      requires DynamicOk(ll, dl, cl, maxBlindex + 1) && Trees(ll, dl) && Coded(blTree[..], cl)
      requires Guarded(dynLtree[..], ll) && Guarded(dynDtree[..], dl)
      requires |cl| == BL_CODES && maxBlindex < BL_CODES && AllSendable(cl, Runs(ll)) && AllSendable(cl, Runs(dl))
      requires AllEncodable(ll, dl, toks) && END_OF_BLOCK < |ll| && ll[END_OF_BLOCK] > 0
      requires AllEncodable(FixedLit(), FixedDist(), toks) && END_OF_BLOCK < |FixedLit()|
      requires builder.optLen == |TreesBits(ll, dl, cl, maxBlindex + 1)| + |BlockBits(ll, dl, toks)|
      requires builder.staticLen == |BlockBits(FixedLit(), FixedDist(), toks)|
      requires optLenb0 == (builder.optLen + 3 + 7) / 8
      requires Expands(out, toks, |toks|) && Expand(out, toks, |toks|) == out + block && |block| == storedLen
      requires buf.Some? ==> buf.value == block
      modifies w, this`compressedLen
      ensures w.Valid() && old(w.out) <= w.out && compressedLen == |w.Sent()|
      ensures old(w.Sent()) <= w.Sent() && BlockAt(w.Sent(), |old(w.Sent())|, eof, out, out + block)
      ensures BestForm(|old(w.Sent())|, |w.Sent()|, builder.optLen, builder.staticLen, storedLen, buf.Some?)
    {
      hide Coded, Guarded, DynamicOk, AllSendable, Runs, RunsFrom, SymsBits, TreesBits, KindBits, BlockBits, ToBits, Pow2,
           FixedLit, FixedDist, AllEncodable, Expands, Expand, BlockAt, TablesOk, Reading, StoredBits, BytesToBits, Zeros, Padding,
           LengthField, TokensOk, Tokens.Code, LitBuf, DistBuf, Aligned, BestForm, BytesFor;
      ghost var start := w.Sent();
      FormIs(|start|, builder.optLen, builder.staticLen, storedLen, buf.Some?);
      var optLenb := optLenb0;
      var staticLenb := (builder.staticLen + 3 + 7) / 8;
      if staticLenb <= optLenb {
        optLenb := staticLenb;
      }
      if storedLen + 4 <= optLenb && buf.Some? {
        StoredFits(toks, storedLen, optLenb, builder.staticLen);
        WriteStored(buf.value, eof, out);
      } else if staticLenb == optLenb {
        WriteFixed(eof, out);
      } else {
        SendHeader(DYN_TREES, eof);
        SendAllTrees(lDesc.maxCode + 1, dDesc.maxCode + 1, maxBlindex + 1, ll, dl, cl);
        CompressBlock(dynLtree, dynDtree, ll, dl);
        compressedLen := compressedLen + 3 + builder.optLen;
        ThreeParts(start, KindBits(DYN_TREES, eof), TreesBits(ll, dl, cl, maxBlindex + 1), BlockBits(ll, dl, toks));
        DynamicBlockAt(start, eof, ll, dl, cl, maxBlindex + 1, toks, out);
        KeepsPrefix(start, KindBits(DYN_TREES, eof) + TreesBits(ll, dl, cl, maxBlindex + 1) + BlockBits(ll, dl, toks));
      }
    }

    /** flush_block: encode the open block in the best form, output it, and open the next one. Returns the total
        compressed length so far; `end` is where the block's bits end. */
    method FlushBlock(buf: Option<seq<byte>>, storedLen: nat, eof: bool, ghost out: seq<byte>, ghost block: seq<byte>)
      returns (bytes: nat, ghost end: nat)
      requires Valid() && Expands(out, toks, |toks|) && Expand(out, toks, |toks|) == out + block && |block| == storedLen
      requires buf.Some? ==> buf.value == block
      modifies Repr()
      ensures Ready() && Open() && w.Valid() && toks == [] && tallied == old(tallied) && (!eof ==> Valid())
      ensures |old(w.Sent())| <= end <= |w.Sent()| && old(w.Sent()) <= w.Sent()[..end]
      ensures BlockAt(w.Sent()[..end], |old(w.Sent())|, eof, out, out + block)
      ensures !eof ==> end == |w.Sent()| && bytes == end / 8
      ensures eof ==> BytesToBits(w.out) == w.Sent() && |w.Sent()| == Aligned(end) && bytes == |w.out|
    {
      hide Coded, Guarded, DynamicOk, AllSendable, Runs, RunsFrom, TreesBits, BlockBits, ToBits, Pow2, FixedLit, FixedDist,
           AllEncodable, Expands, Expand, BlockAt, TablesOk, Reading, BytesToBits, Zeros, TokensOk, LitBuf, DistBuf, Buffered,
           LitFreqs, DistFreqs, Freqs, BestCodes, BestRuns, BestForm, Complete;
      StartReading(toks, lBuf, dBuf, flagBuf, flags, flagBit);
      flagBuf := flagBuf + [flags];
      ghost var start := w.Sent();
      ghost var ll, dl, cl;
      var maxBlindex;
      maxBlindex, ll, dl, cl := BuildTrees();
      WriteBlock(buf, storedLen, eof, maxBlindex, (builder.optLen + 3 + 7) / 8, out, block, ll, dl, cl);
      ghost var sent := w.Sent();
      end := |sent|;
      InitBlock();
      if eof {
        w.Windup();
        AlignedPad(end);
        BytesOut(w.out, end);
        compressedLen := compressedLen + 7;
      }
      PrefixIs(sent, w.Sent());
      bytes := compressedLen / 8;
    }

    lemma DescsValid()
      requires Shape()
      ensures lDesc.Valid() && dDesc.Valid() && blDesc.Valid()
      ensures forall n :: 0 <= n < L_CODES ==> lDesc.Extras()[n] == LitExtra(n)
      ensures forall n :: 0 <= n < D_CODES ==> dDesc.Extras()[n] == DistExtra(n)
      ensures forall n :: 0 <= n < BL_CODES ==> blDesc.Extras()[n] == Width(n)
    {
      Pow2Values();
      hide Pow2;
    }
  }

  /** The size in whole bytes of a block whose codes take n bits. */
  function BytesFor(n: nat): nat { (n + 3 + 7) / 8 }

  /** A block that takes the output from start to end bits is stored when that is no longer than with either pair of
      trees, and there is the input to store; else it is the shorter one of the two in whole bytes. */
  ghost predicate BestForm(start: nat, end: nat, optLen: int, staticLen: int, storedLen: nat, canStore: bool) {
    optLen >= 0 && staticLen >= 0
    && var least := if BytesFor(staticLen) <= BytesFor(optLen) then BytesFor(staticLen) else BytesFor(optLen);
       if canStore && storedLen + 4 <= least then end == Aligned(start + 3) + 8 * (storedLen + 4)
       else (end == start + 3 + optLen || end == start + 3 + staticLen) && (end - start + 7) / 8 == least
  }

  lemma FormIs(start: nat, optLen: nat, staticLen: nat, storedLen: nat, canStore: bool)
    ensures var sb, ob := (staticLen + 3 + 7) / 8, (optLen + 3 + 7) / 8;
            var least := if sb <= ob then sb else ob;
            if canStore && storedLen + 4 <= least then
              BestForm(start, (start + 3 + 7) / 8 * 8 + (storedLen + 4) * 8, optLen, staticLen, storedLen, canStore)
            else
              (least == sb ==> BestForm(start, start + 3 + staticLen, optLen, staticLen, storedLen, canStore))
              && (least == ob ==> BestForm(start, start + 3 + optLen, optLen, staticLen, storedLen, canStore))
  {}

  lemma KeepsPrefix(s: seq<bool>, t: seq<bool>)
    ensures s <= s + t
  {}

  lemma ThreeParts(s: seq<bool>, a: seq<bool>, b: seq<bool>, c: seq<bool>)
    ensures s + a + b + c == s + (a + b + c)
  {}

  /** What copy_block adds after the header makes a stored block, of the size added to compressed_len. */
  lemma StoredSent(start: seq<bool>, last: bool, buf: seq<byte>)
    requires |buf| < 65536
    ensures |buf| % 65536 == |buf|
    ensures var s := start + KindBits(STORED_BLOCK, last);
            s + Zeros(Padding(|s|)) + LengthField(|buf|) + BytesToBits(buf) == start + StoredBits(|start|, last, buf)
            && |start + StoredBits(|start|, last, buf)| == (|start| + 3 + 7) / 8 * 8 + (|buf| + 4) * 8
  {
    hide KindBits, BytesToBits, ToBits;
    var h := KindBits(STORED_BLOCK, last);
    AlignedPad(|start| + 3);
    FourParts(start, h, Zeros(Padding(|start| + 3)), LengthField(|buf|), BytesToBits(buf));
  }

  lemma PrefixIs(s: seq<bool>, t: seq<bool>)
    requires s <= t
    ensures t[..|s|] == s
  {}

  lemma BytesOut(out: seq<byte>, end: nat)
    requires |BytesToBits(out)| == Aligned(end)
    ensures |out| == (end + 7) / 8
  {}

  lemma AllParts(s: seq<bool>, a: seq<bool>, b: seq<bool>, c: seq<bool>, d: seq<bool>)
    ensures s + a + b + c + d == s + (a + b + (c + d))
  {}

  lemma NoneOrdered(cl: seq<nat>, s: seq<bool>)
    requires |cl| == BL_CODES
    ensures s + OrderedBits(cl, 0) == s
  {}

  lemma OrderedNext(cl: seq<nat>, n: nat, s: seq<bool>)
    requires |cl| == BL_CODES && n < BL_CODES
    ensures s + OrderedBits(cl, n + 1) == s + OrderedBits(cl, n) + ToBits(cl[Ordered(n)], 3)
  {
    Assoc(s, OrderedBits(cl, n), ToBits(cl[Ordered(n)], 3));
    hide ToBits, Ordered;
  }

  lemma TalliedByte(lc: byte, dist: nat)
    ensures var t := if dist == 0 then Literal(lc) else Match(lc + MIN_MATCH, dist);
            LitByte(t) == lc && (dist > 0 ==> Less(t.dist, 1) == dist - 1) && (dist <= WSIZE ==> TokenOk(t))
  {}

  lemma BufferSizes(toks: seq<Token>, lBuf: seq<byte>, dBuf: seq<nat>, flagBuf: seq<nat>, flags: nat, flagBit: nat)
    requires Buffered(toks, lBuf, dBuf, flagBuf, flags, flagBit)
    ensures |lBuf| == |toks| && |dBuf| <= |toks| && |flagBuf| == |toks| / 8
  {
    hide Marks, Val;
  }

  lemma TallyCodes(lengthCode: seq<nat>, baseLength: seq<nat>, distCode: seq<nat>, baseDist: seq<nat>, lc: byte, dist: nat)
    requires TablesOk(lengthCode, baseLength, distCode, baseDist) && 1 <= dist <= WSIZE
    ensures |lengthCode| == 256 && |distCode| == 512 && dist - 1 < 32768
    ensures lengthCode[lc] + LITERALS + 1 == LitSymbol(Match(lc + MIN_MATCH, dist)) < L_CODES
    ensures DCode(distCode, dist - 1) == DistBand(dist) < D_CODES
  {
    hide BandOf, DCode;
    assert DCode(distCode, dist - 1) == DistBand(dist - 1 + 1);
  }

  lemma SumStarts(t: seq<CtData>)
    requires D_CODES <= |t|
    ensures CodeSum(Freqs(t, D_CODES), 0) == 0
  {}

  lemma SumGoesOn(t: seq<CtData>, n: nat)
    requires n < D_CODES <= |t|
    ensures D_CODES == |DIST_EXTRA| && CodeSum(Freqs(t, D_CODES), n + 1) == CodeSum(Freqs(t, D_CODES), n) + t[n].fc * (5 + DIST_EXTRA[n])
  {}

  lemma ProfitsIs(toks: seq<Token>, inLength: int)
    ensures Profits(toks, inLength)
            <==> |toks| % 0x1000 == 0 && MatchCount(toks, |toks|) < |toks| / 2 && Guess(toks, |toks|) / 8 < inLength / 2
  {
    hide MatchCount, Guess;
  }

  /** l_buf and d_buf hold 8192 entries, and there are never as many matches. */
  lemma BufferRoom(toks: seq<Token>)
    requires |toks| <= LIT_BUFSIZE - 1
    ensures MatchCount(toks, |toks|) < LIT_BUFSIZE == 8192
  {
    MatchCountLe(toks, |toks|);
    hide MatchCount;
  }

  lemma {:induction false} DistBufSize(toks: seq<Token>, n: nat)
    requires n <= |toks|
    ensures |DistBuf(toks, n)| == MatchCount(toks, n)
  {
    if n > 0 { DistBufSize(toks, n - 1); }
  }

  method IncFreq(tree: array<CtData>, c: nat, ghost elems: nat)
    requires c < elems <= tree.Length
    modifies tree
    ensures Freqs(tree[..], elems) == Raised(Freqs(old(tree[..]), elems), c, 1)
  {
    tree[c] := tree[c].(fc := tree[c].fc + 1);
  }

  lemma OrderedIs()
    ensures |BL_ORDER| == BL_CODES && forall i :: 0 <= i < BL_CODES ==> Ordered(i) == BL_ORDER[i] < BL_CODES
  {}

  lemma ClIs(t: seq<CtData>, cl: seq<nat>)
    requires BL_CODES <= |t| && cl == Lens(t, BL_CODES)
    ensures |cl| == BL_CODES && forall i :: 0 <= i < BL_CODES ==> cl[i] == t[i].dl
  {}

  /** The bit length tree as a code of 19 symbols. */
  lemma BlLens(t: seq<CtData>, F: seq<nat>, maxCode: int, depths: seq<nat>, F0: seq<nat>, cl: seq<nat>)
    requires BL_CODES <= |t| && cl == Lens(t, BL_CODES) && 0 <= maxCode < BL_CODES && |F| == BL_CODES
    requires GoodLengths(F, Dls(t)[..BL_CODES], maxCode, MAX_BL_BITS, depths) && Keeps(F, F0)
    requires Coded(t, Lens(t, maxCode + 1))
    ensures |F0| == BL_CODES == |cl| && Complete(cl) && Coded(t, cl) && (forall i :: 0 <= i < BL_CODES ==> cl[i] <= 7)
    ensures forall i :: 0 <= i < BL_CODES && F0[i] != 0 ==> cl[i] >= 1
  {
    hide GoodLengths, Complete, Coded, Dls;
    TreeLens(t, F, maxCode, MAX_BL_BITS, depths, F0, BL_CODES);
    assert Lens(t, maxCode + 1) == cl[..maxCode + 1];
    WholeCode(t, cl, maxCode + 1);
    forall i | 0 <= i < BL_CODES
      ensures cl[i] <= 7 && (F0[i] != 0 ==> cl[i] >= 1)
    {
      if i <= maxCode { assert Lens(t, maxCode + 1)[i] == cl[i]; }
    }
  }

  /** What makes it the best one for the run symbols a and b. */
  lemma BlCheapest(t: seq<CtData>, F: seq<nat>, maxCode: int, depths: seq<nat>, a: seq<Sym>, b: seq<Sym>, cl: seq<nat>)
    requires BL_CODES <= |t| && cl == Lens(t, BL_CODES) && 0 <= maxCode < BL_CODES && |F| == BL_CODES
    requires GoodLengths(F, Dls(t)[..BL_CODES], maxCode, MAX_BL_BITS, depths) && Keeps(F, RunFreqs(a, b))
    requires F != RunFreqs(a, b) ==> forall i :: 0 <= i < |F| ==> F[i] > 0 ==> t[i].dl == 1
    ensures AllSendable(cl, a) && AllSendable(cl, b) ==> BestRuns(a, b, cl)
  {
    hide GoodLengths, Cheapest, NeedsMore, AllSendable, RunFreqs, ShortestRuns, Dls;
    DlsOf(t, BL_CODES, BL_CODES);
    assert Dls(t)[..BL_CODES] == cl;
    GoodCheapest(RunFreqs(a, b), F, cl, maxCode, MAX_BL_BITS, depths);
    if Cheapest(RunFreqs(a, b), cl) && AllSendable(cl, a) && AllSendable(cl, b) { CheapestRuns(a, b, cl); }
  }

  lemma BlBits(t: seq<CtData>, cl: seq<nat>, X: seq<nat>)
    requires BL_CODES <= |t| && cl == Lens(t, BL_CODES) && |X| == BL_CODES && forall n :: 0 <= n < BL_CODES ==> X[n] == Width(n)
    ensures forall s :: 0 <= s < BL_CODES ==> BitsOf(Dls(t), X)[s] == cl[s] + Width(s)
  {
    hide Width;
  }

  /** ct_init: set up the tables and open the first block. */
  method CtInit() returns (b: BlockWriter)
    ensures b.Valid() && b.w.Sent() == [] && b.toks == b.tallied == [] && fresh(b.Repr())
  {
    hide Coded, TablesOk, Buffered, Raised, FixedLit, FixedDist, LitFreqs, DistFreqs, Freqs, TokensOk, ToBits, BytesToBits;
    var dl, dd, bl, stl, std := AllTrees();
    b := new BlockWriter(dl, dd, bl, stl, std);
    EmptyLength(b.w.Sent());
    b.InitBlock();
  }

  /** The fixed trees, and room for the dynamic ones. */
  method AllTrees() returns (dl: array<CtData>, dd: array<CtData>, bl: array<CtData>, stl: array<CtData>, std: array<CtData>)
    ensures fresh({dl, dd, bl, stl, std}) && Distinct(dl, dd, bl, stl, std)
    ensures dl.Length == HEAP_SIZE && dd.Length == 2 * D_CODES + 1 && bl.Length == 2 * BL_CODES + 1
    ensures stl.Length == 288 && std.Length == D_CODES && Coded(stl[..], FixedLit()) && Coded(std[..], FixedDist())
  {
    hide Coded, FixedLit, FixedDist;
    dl := new CtData[HEAP_SIZE](_ => CtData(0, 0));
    dd := new CtData[2 * D_CODES + 1](_ => CtData(0, 0));
    bl := new CtData[2 * BL_CODES + 1](_ => CtData(0, 0));
    stl := StaticLtree();
    std := StaticDtree();
  }

  lemma EmptyLength(s: seq<bool>)
    ensures s == [] ==> |s| == 0
  {}

  method ClearFreqs(tree: array<CtData>, elems: nat)
    requires elems <= tree.Length
    modifies tree
    ensures forall i :: 0 <= i < elems ==> tree[i].fc == 0
  {
    var n := 0;
    while n < elems
      invariant 0 <= n <= elems && forall i :: 0 <= i < n ==> tree[i].fc == 0
    {
      tree[n] := tree[n].(fc := 0);
      n := n + 1;
    }
  }

  lemma LiteralBits(ll: seq<nat>, dl: seq<nat>, t: Token)
    requires Encodable(ll, dl, t) && t.Literal?
    ensures t.c < |ll| && ll[t.c] > 0 && TokenBits(ll, dl, t) == Codeword(ll, t.c)
  {}

  lemma MatchRange(t: Token)
    requires TokenOk(t) && t.Match?
    ensures MIN_MATCH <= t.len && t.dist >= 1 && Less(t.dist, 1) == t.dist - 1
  {}
}
