/** inflate_codes: decompressing the elements of one block with two decoding tables. */
module InflatingCodes {
  import opened Options
  import opened Bits
  import opened BitReading
  import opened PrefixCodes
  import opened Lz77
  import opened OutputWindows
  import opened Rfc1951
  import opened HuftTables
  import opened HuftWalk
  import opened HuftBuilding
  import opened HuftState

  /** A return code, or the end of the input, or a use of memory that C leaves undefined. */
  datatype Outcome = Returned(code: nat) | Died

  const CPLENS: seq<nat> :=
    [3, 4, 5, 6, 7, 8, 9, 10, 11, 13, 15, 17, 19, 23, 27, 31, 35, 43, 51, 59, 67, 83, 99, 115, 131, 163, 195, 227, 258, 0, 0]
  const CPLEXT: seq<nat> :=
    [0, 0, 0, 0, 0, 0, 0, 0, 1, 1, 1, 1, 2, 2, 2, 2, 3, 3, 3, 3, 4, 4, 4, 4, 5, 5, 5, 5, 0, 99, 99]
  const CPDIST: seq<nat> :=
    [1, 2, 3, 4, 5, 7, 9, 13, 17, 25, 33, 49, 65, 97, 129, 193, 257, 385, 513, 769, 1025, 1537, 2049, 3073,
     4097, 6145, 8193, 12289, 16385, 24577]
  const CPDEXT: seq<nat> :=
    [0, 0, 0, 0, 1, 1, 2, 2, 3, 3, 4, 4, 5, 5, 6, 6, 7, 7, 8, 8, 9, 9, 10, 10, 11, 11, 12, 12, 13, 13]

  function LitCode(ll: seq<nat>): HuftTables.Code { HuftTables.Code(ll, 257, CPLENS, CPLEXT) }

  function DistCode(dl: seq<nat>): HuftTables.Code { HuftTables.Code(dl, 0, CPDIST, CPDEXT) }

  /** What huft_build returned for a code that may be used: tables that decode it, or none for no codes. */
  ghost predicate TableFor(C: HuftTables.Code, t: seq<seq<Huft>>, bits: nat) {
    CodeOk(C) && bits <= M && (if AllZero(C.lens) then t == [] else Decodes(C, t, bits))
  }

  /** A lookup agrees with the code wherever 16 bits are left to look at. */
  lemma LookupMeets(C: HuftTables.Code, t: seq<seq<Huft>>, bits: nat, S: seq<bool>, p: nat)
    requires TableFor(C, t, bits) && p + M <= |S|
    ensures var W := Walk(t, 0, bits, S, p);
            match Symbol(C.lens, S, p)
            case Some((n, q)) => W.Some? && W.value.0 == SymbolEntry(C, n, W.value.0.b) && W.value.1 + W.value.0.b == q
            case None => W.None? || Dead(W.value.0)
  {
    if !AllZero(C.lens) {
      assert Finds(C, S, p, Walk(t, 0, bits, S, p));
    }
  }

  /** Look up the entry for the bits at hand, following links; its own bits stay in the buffer. */
  method Lookup(rd: BitReader, t: seq<seq<Huft>>, bits: nat) returns (ok: bool, e: Huft)
    requires rd.Valid() && bits <= M
    modifies rd
    ensures rd.Valid()
    ensures ok == Walk(t, 0, bits, rd.Stream(), old(rd.Pos())).Some?
    ensures ok ==> Walk(t, 0, bits, rd.Stream(), old(rd.Pos())) == Some((e, rd.Pos()))
    ensures ok && !Dead(e) ==> !IsLink(e) && 1 <= e.b <= rd.bk
    ensures rd.Pos() >= old(rd.Pos())
  {
    hide Val, BytesToBits, And, Pow2;
    var i: nat, m: nat := 0, bits;
    e := Huft(JUNK, 0, 0);
    while true
      invariant rd.Valid()
      invariant rd.Pos() >= old(rd.Pos())
      invariant Walk(t, i, m, rd.Stream(), rd.Pos()) == Walk(t, 0, bits, rd.Stream(), old(rd.Pos()))
      decreases |t| - i
    {
      if i >= |t| || m > M {
        return false, e;
      }
      var fed := rd.NeedBits(m);
      if !fed {
        return false, e;
      }
      var at := rd.Peek(m);
      if at >= |t[i]| {
        return false, e;
      }
      e := t[i][at];
      if Dead(e) {
        return true, e;
      }
      if e.b == 0 || e.b > m {
        return false, e;
      }
      if !IsLink(e) {
        return true, e;
      }
      if e.v <= i {
        return false, e;
      }
      rd.DumpBits(e.b);
      i, m := e.v, e.e - 16;
    }
  }

  /** NEEDBITS(n), take the n bits, DUMPBITS(n). */
  method TakeBits(rd: BitReader, n: nat) returns (ok: bool, v: nat)
    requires rd.Valid() && n <= M
    modifies rd
    ensures rd.Valid()
    ensures ok <==> ReadBits(rd.Stream(), old(rd.Pos()), n).Some?
    ensures ok ==> ReadBits(rd.Stream(), old(rd.Pos()), n) == Some((v, rd.Pos()))
    ensures ok ==> v < Pow2(n)
    ensures rd.Pos() >= old(rd.Pos())
  {
    hide Val, BytesToBits, And, Pow2;
    v := 0;
    ok := rd.NeedBits(n);
    if ok {
      v := rd.Peek(n);
      rd.DumpBits(n);
    }
  }

  /** Table entries of a code, by symbol. */
  lemma LitEntry(ll: seq<nat>, n: nat, b: nat)
    requires CodeOk(LitCode(ll)) && n < |ll|
    ensures var e := SymbolEntry(LitCode(ll), n, b);
            if n < END_OF_BLOCK then e == Huft(16, b, n)
            else if n == END_OF_BLOCK then e.e == 15 && e.b == b
            else if n - 257 < |LENGTH_BASE| then e == Huft(LENGTH_EXTRA[n - 257], b, LENGTH_BASE[n - 257]) && e.e <= 5
            else Dead(e)
  {
    TablesAgree();
    if n > END_OF_BLOCK && n - 257 < |LENGTH_BASE| {
      assert CPLENS[n - 257] == LENGTH_BASE[n - 257];
    }
  }

  lemma TablesAgree()
    ensures |CPLENS| == |CPLEXT| == 31 && CPLENS[..29] == LENGTH_BASE && CPLEXT[..29] == LENGTH_EXTRA
    ensures CPLEXT[29] == CPLEXT[30] == INVALID
    ensures forall i :: 0 <= i < 29 ==> CPLENS[i] == LENGTH_BASE[i] && CPLEXT[i] == LENGTH_EXTRA[i] <= 5
    ensures CPDIST == DIST_BASE && CPDEXT == DIST_EXTRA && forall i :: 0 <= i < 30 ==> DIST_EXTRA[i] <= 13
  {}

  lemma DistEntry(dl: seq<nat>, n: nat, b: nat)
    requires CodeOk(DistCode(dl)) && n < |dl|
    ensures n < |DIST_BASE| && SymbolEntry(DistCode(dl), n, b) == Huft(DIST_EXTRA[n], b, DIST_BASE[n]) && DIST_EXTRA[n] <= 13
  {
    TablesAgree();
  }

  /** What one round of inflate_codes reads. */
  datatype Read = Got(item: Item) | Bad | Lost

  /** The reading agrees with the format whenever 16 bits follow what it reads. */
  ghost predicate ReadsAs(spec: Option<(Item, nat)>, size: nat, got: Read, pos: nat) {
    spec.Some? && spec.value.1 + M <= size ==> got == Got(spec.value.0) && pos == spec.value.1
  }

  /** A distance code and its extra bits. */
  method ReadDist(rd: BitReader, td: seq<seq<Huft>>, bd: nat, len: nat, ghost dl: seq<nat>) returns (got: Read)
    requires rd.Valid() && TableFor(DistCode(dl), td, bd)
    modifies rd
    ensures rd.Valid()
    ensures rd.Pos() >= old(rd.Pos())
    ensures ReadsAs(ReadDistance(dl, rd.Stream(), old(rd.Pos()), len), |rd.Stream()|, got, rd.Pos())
  {
    hide ReadDistance, Walk, Symbol, TableFor, ReadBits, Val, BytesToBits, DistCode, Decodes, SymbolEntry, Pow2, And;
    DistSymbol(dl, td, bd, rd.Stream(), rd.Pos(), len);
    var ok, e := Lookup(rd, td, bd);
    if !ok {
      return Lost;
    }
    if Dead(e) {
      return if e.e == INVALID then Bad else Lost;
    }
    rd.DumpBits(e.b);
    if e.e > M {
      return Lost;
    }
    var y;
    ok, y := TakeBits(rd, e.e);
    if !ok {
      return Lost;
    }
    got := Got(Copy(len, e.v + y));
  }

  /** Where a distance lookup leads. */
  lemma DistSymbol(dl: seq<nat>, td: seq<seq<Huft>>, bd: nat, S: seq<bool>, p: nat, len: nat)
    requires TableFor(DistCode(dl), td, bd)
    ensures bd <= M
    ensures var W, spec := Walk(td, 0, bd, S, p), ReadDistance(dl, S, p, len);
            spec.Some? && spec.value.1 + M <= |S|
            ==> W.Some? && !Dead(W.value.0) && W.value.0.e <= M
                && var q := W.value.1 + W.value.0.b;
                   var B := ReadBits(S, q, W.value.0.e);
                   B.Some? && spec == Some((Copy(len, W.value.0.v + B.value.0), B.value.1))
  {
    hide Walk, Val, Decodes, SymbolEntry, DistCode;
    var spec := ReadDistance(dl, S, p, len);
    if spec.Some? && spec.value.1 + M <= |S| {
      LookupMeets(DistCode(dl), td, bd, S, p);
      DistCodeLens(dl);
      var (n, q) := Symbol(dl, S, p).value;
      DistEntry(dl, n, Walk(td, 0, bd, S, p).value.0.b);
    }
  }

  lemma DistCodeLens(dl: seq<nat>)
    ensures DistCode(dl).lens == dl
  {}

  lemma LitCodeLens(ll: seq<nat>)
    ensures LitCode(ll).lens == ll
  {}

  /** Where a literal/length lookup leads. */
  lemma LitSymbol(ll: seq<nat>, dl: seq<nat>, tl: seq<seq<Huft>>, bl: nat, S: seq<bool>, p: nat)
    requires TableFor(LitCode(ll), tl, bl)
    ensures bl <= M
    ensures var W, spec := Walk(tl, 0, bl, S, p), ReadItem(ll, dl, S, p);
            spec.Some? && spec.value.1 + M <= |S|
            ==> W.Some? && !Dead(W.value.0) && W.value.0.e <= M && LitLeads(W, spec, dl, S)
  {
    hide Walk, Val, Decodes, SymbolEntry, LitCode, ReadDistance, ReadBits, LENGTH_BASE, LENGTH_EXTRA;
    var spec := ReadItem(ll, dl, S, p);
    if spec.Some? && spec.value.1 + M <= |S| {
      LookupMeets(LitCode(ll), tl, bl, S, p);
      LitCodeLens(ll);
      var (n, q) := Symbol(ll, S, p).value;
      LitEntry(ll, n, Walk(tl, 0, bl, S, p).value.0.b);
    }
  }

  ghost predicate LitLeads(W: Option<(Huft, nat)>, spec: Option<(Item, nat)>, dl: seq<nat>, S: seq<bool>)
    requires W.Some?
  {
    var (e, at) := W.value;
    var q := at + e.b;
    if e.e == 16 then spec == Some((Byte(e.v % 256), q))
    else if e.e == 15 then spec == Some((EndOfBlock, q))
    else ReadBits(S, q, e.e).Some?
         && spec == ReadDistance(dl, S, ReadBits(S, q, e.e).value.1, e.v + ReadBits(S, q, e.e).value.0)
  }

  /** A literal, an end of block, or a length and a distance. */
  method ReadCode(rd: BitReader, tl: seq<seq<Huft>>, td: seq<seq<Huft>>, bl: nat, bd: nat,
                  ghost ll: seq<nat>, ghost dl: seq<nat>) returns (got: Read)
    requires rd.Valid() && TableFor(LitCode(ll), tl, bl) && TableFor(DistCode(dl), td, bd)
    modifies rd
    ensures rd.Valid()
    ensures rd.Pos() >= old(rd.Pos()) && (got.Got? ==> rd.Pos() > old(rd.Pos()))
    ensures ReadsAs(ReadItem(ll, dl, rd.Stream(), old(rd.Pos())), |rd.Stream()|, got, rd.Pos())
  {
    hide ReadItem, ReadDistance, Walk, Symbol, TableFor, ReadBits, Val, BytesToBits, DistCode, LitCode, Pow2, And;
    LitSymbol(ll, dl, tl, bl, rd.Stream(), rd.Pos());
    var ok, e := Lookup(rd, tl, bl);
    if !ok {
      return Lost;
    }
    if Dead(e) {
      return if e.e == INVALID then Bad else Lost;
    }
    rd.DumpBits(e.b);
    if e.e == 16 {
      return Got(Byte(e.v % 256));
    }
    if e.e == 15 {
      return Got(EndOfBlock);
    }
    if e.e > M {
      return Lost;
    }
    var x;
    ok, x := TakeBits(rd, e.e);
    if !ok {
      return Lost;
    }
    got := ReadDist(rd, td, bd, e.v + x, dl);
  }

  /** The decoding agrees with the format whenever 16 bits follow what it decodes. */
  ghost predicate DecodesAs(spec: Option<(seq<byte>, nat)>, size: nat, r: Outcome, out: seq<byte>, pos: nat) {
    spec.Some? && spec.value.1 + M <= size ==> r == Returned(0) && out == spec.value.0 && pos == spec.value.1
  }

  /** What is left to decode still leads to the same result. */
  ghost predicate OnTrack(spec: Option<(seq<byte>, nat)>, size: nat, rest: Option<(seq<byte>, nat)>) {
    spec.Some? && spec.value.1 + M <= size ==> rest == spec
  }

  lemma ItemStep(spec: Option<(seq<byte>, nat)>, ll: seq<nat>, dl: seq<nat>, S: seq<bool>, p: nat, out: seq<byte>,
                 got: Read, q: nat)
    requires OnTrack(spec, |S|, ReadItems(ll, dl, S, p, out))
    requires ReadsAs(ReadItem(ll, dl, S, p), |S|, got, q)
    ensures spec.Some? && spec.value.1 + M <= |S| ==> got.Got? && p < q <= |S| && NextOnTrack(spec, ll, dl, S, out, got.item, q)
  {
    hide ReadItem;
  }

  ghost predicate NextOnTrack(spec: Option<(seq<byte>, nat)>, ll: seq<nat>, dl: seq<nat>, S: seq<bool>, out: seq<byte>,
                              item: Item, q: nat)
  {
    match item
    case Byte(c) => spec == ReadItems(ll, dl, S, q, out + [c])
    case EndOfBlock => spec == Some((out, q))
    case Copy(len, dist) => 1 <= dist <= |out| && dist <= WSIZE && spec == ReadItems(ll, dl, S, q, CopyBytes(out, dist, len))
  }

  method InflateCodes(rd: BitReader, win: OutputWindow, tl: seq<seq<Huft>>, td: seq<seq<Huft>>, bl: nat, bd: nat,
                      ghost ll: seq<nat>, ghost dl: seq<nat>) returns (r: Outcome)
    requires rd.Valid() && win.Valid() && TableFor(LitCode(ll), tl, bl) && TableFor(DistCode(dl), td, bd)
    modifies rd, win, win.window
    ensures rd.Valid() && win.Valid() && rd.Pos() >= old(rd.Pos())
    ensures DecodesAs(ReadItems(ll, dl, rd.Stream(), old(rd.Pos()), old(win.Output())), |rd.Stream()|, r, win.Output(), rd.Pos())
  {
    hide ReadItems, ReadItem, TableFor, Val, BytesToBits, DistCode, LitCode, CopyBytes, ReadsAs, Shows;
    ghost var spec := ReadItems(ll, dl, rd.Stream(), rd.Pos(), win.Output());
    while true
      invariant rd.Valid() && win.Valid() && rd.Pos() >= old(rd.Pos())
      invariant OnTrack(spec, |rd.Stream()|, ReadItems(ll, dl, rd.Stream(), rd.Pos(), win.Output()))
      decreases 8 * |rd.input| - rd.Pos()
    {
      ghost var p, out := rd.Pos(), win.Output();
      var got := ReadCode(rd, tl, td, bl, bd, ll, dl);
      ItemStep(spec, ll, dl, rd.Stream(), p, out, got, rd.Pos());
      match got {
        case Lost => return Died;
        case Bad => return Returned(1);
        case Got(EndOfBlock) => return Returned(0);
        case Got(Byte(c)) => win.Put(c);
        case Got(Copy(len, dist)) => win.CopyMatch(len, dist);
      }
    }
  }
}
