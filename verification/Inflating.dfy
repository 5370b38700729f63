/** The block level of the decompressor: stored, fixed and dynamic blocks, and the whole stream. */
module Inflating {
  import opened Options
  import opened Bits
  import opened BitReading
  import opened PrefixCodes
  import opened OutputWindows
  import opened Rfc1951
  import opened LengthOrders
  import opened HuftTables
  import opened HuftSizing
  import opened HuftBuilding
  import opened HuftExactness
  import opened HuftState
  import opened FixedCodes
  import opened InflatingCodes

  // ---- Stored blocks

  /** Dropping k mod 8 of the k bits looked ahead gets to a byte boundary. */
  lemma AlignByDropping(inptr: nat, k: nat)
    requires k <= 8 * inptr
    ensures 8 * inptr - k + k % 8 == Aligned(8 * inptr - k)
  {}

  lemma {:induction false} ReadBytesSnoc(S: seq<bool>, p: nat, n: nat)
    requires p + 8 * n + 8 <= |S|
    ensures ReadBytes(S, p, n + 1) == ReadBytes(S, p, n) + [ByteOf(S[p + 8 * n..p + 8 * n + 8])]
    decreases n
  {
    hide ByteOf;
    if n > 0 {
      ReadBytesSnoc(S, p + 8, n - 1);
      var first, last := [ByteOf(S[p..p + 8])], [ByteOf(S[p + 8 * n..p + 8 * n + 8])];
      Assoc(first, ReadBytes(S, p + 8, n - 1), last);
    }
  }

  method InflateStored(rd: BitReader, win: OutputWindow) returns (r: Outcome)
    requires rd.Valid() && win.Valid()
    modifies rd, win, win.window
    ensures rd.Valid() && win.Valid() && rd.Pos() >= old(rd.Pos())
    ensures DecodesAs(ReadStored(rd.Stream(), old(rd.Pos()), old(win.Output())), |rd.Stream()|, r, win.Output(), rd.Pos())
  {
    hide Val, BytesToBits, Pow2, And, Shows, ReadBytes;
    ghost var p, out := rd.Pos(), win.Output();
    AlignByDropping(rd.inptr, rd.bk);
    rd.DumpBits(rd.bk % 8);
    var ok, n := TakeBits(rd, 16);
    if !ok {
      return Died;
    }
    var c;
    ok, c := TakeBits(rd, 16);
    if !ok {
      return Died;
    }
    Pow2Values();
    if n != 65535 - c {
      return Returned(1);
    }
    r := StoredBytes(rd, win, n);
  }

  /** The bytes of a stored block, straight into the window. */
  method StoredBytes(rd: BitReader, win: OutputWindow, n: nat) returns (r: Outcome)
    requires rd.Valid() && win.Valid()
    modifies rd, win, win.window
    ensures rd.Valid() && win.Valid() && rd.Pos() >= old(rd.Pos())
    ensures old(rd.Pos()) + 8 * n <= |rd.Stream()|
            ==> r == Returned(0) && rd.Pos() == old(rd.Pos()) + 8 * n
                && win.Output() == old(win.Output()) + ReadBytes(rd.Stream(), old(rd.Pos()), n)
  {
    hide Val, BytesToBits, Pow2, And, Shows, ReadBytes;
    ghost var p, out := rd.Pos(), win.Output();
    var left := n;
    NoBytes(rd.Stream(), p);
    while left != 0
      invariant rd.Valid() && win.Valid() && 0 <= left <= n
      invariant rd.Pos() == p + 8 * (n - left) <= |rd.Stream()|
      invariant win.Output() == out + ReadBytes(rd.Stream(), p, n - left)
    {
      ghost var q := rd.Pos();
      var ok := rd.NeedBits(8);
      if !ok {
        return Died;
      }
      ByteIs(rd.Stream(), q);
      ReadBytesSnoc(rd.Stream(), p, n - left);
      var c := rd.Peek(8);
      win.Put(c);
      rd.DumpBits(8);
      left := left - 1;
    }
    return Returned(0);
  }

  lemma NoBytes(S: seq<bool>, p: nat)
    requires p <= |S|
    ensures ReadBytes(S, p, 0) == []
  {}

  lemma ByteIs(S: seq<bool>, q: nat)
    requires q + 8 <= |S|
    ensures ByteOf(S[q..q + 8]) == Val(S[q..q + 8]) < 256
  {}

  // ---- Fixed codes

  lemma LitCodeOk(ll: seq<nat>)
    requires LensOk(ll) && |ll| <= 288
    ensures CodeOk(LitCode(ll)) && LitCode(ll) == HuftTables.Code(ll, 257, CPLENS, CPLEXT)
  {
    TablesAgree();
  }

  lemma DistCodeOk(dl: seq<nat>)
    requires LensOk(dl) && |dl| <= 30
    ensures CodeOk(DistCode(dl)) && DistCode(dl) == HuftTables.Code(dl, 0, CPDIST, CPDEXT)
  {
    TablesAgree();
  }

  lemma FixedTables(b: nat, d: nat)
    ensures Verdict(FixedLit()) == 0 && !AllZero(FixedLit()) && Verdict(FixedDist()) == 1 && !AllZero(FixedDist())
    ensures CodeOk(LitCode(FixedLit())) && CodeOk(DistCode(FixedDist()))
    ensures LitCode(FixedLit()) == HuftTables.Code(FixedLit(), 257, CPLENS, CPLEXT)
    ensures DistCode(FixedDist()) == HuftTables.Code(FixedDist(), 0, CPDIST, CPDEXT)
    ensures b >= 7 || (forall i :: 0 <= i < 288 ==> FixedLit()[i] <= b) ==> Suits(FixedLit(), b)
    ensures d >= 5 || (forall i :: 0 <= i < 30 ==> FixedDist()[i] <= d) ==> Suits(FixedDist(), d)
  {
    FixedComplete();
    FixedDistIncomplete();
    LitCodeOk(FixedLit());
    DistCodeOk(FixedDist());
    hide Complete, Oversubscribed, LitCode, DistCode, CodeOk;
    assert FixedLit()[0] == 8 && FixedDist()[0] == 5;
  }

  /** The lengths of section 3.2.6 of RFC 1951, as the loops of inflate_fixed set them. */
  method FixedLengths() returns (l: seq<nat>)
    ensures l == FixedLit()
  {
    l := [];
    while |l| < 144
      invariant |l| <= 144 && forall i :: 0 <= i < |l| ==> l[i] == FixedLength(i)
    {
      l := l + [8];
    }
    while |l| < 256
      invariant 144 <= |l| <= 256 && forall i :: 0 <= i < |l| ==> l[i] == FixedLength(i)
    {
      l := l + [9];
    }
    while |l| < 280
      invariant 256 <= |l| <= 280 && forall i :: 0 <= i < |l| ==> l[i] == FixedLength(i)
    {
      l := l + [7];
    }
    while |l| < 288
      invariant 280 <= |l| <= 288 && forall i :: 0 <= i < |l| ==> l[i] == FixedLength(i)
    {
      l := l + [8];
    }
  }

  method InflateFixed(rd: BitReader, win: OutputWindow) returns (r: Outcome)
    requires rd.Valid() && win.Valid()
    modifies rd, win, win.window
    ensures rd.Valid() && win.Valid() && rd.Pos() >= old(rd.Pos())
    ensures DecodesAs(ReadItems(FixedLit(), FixedDist(), rd.Stream(), old(rd.Pos()), old(win.Output())),
                      |rd.Stream()|, r, win.Output(), rd.Pos())
  {
    hide ReadItems, Decodes, CodeOk, Verdict, Suits, Straight, Misread, TableWidth, Complete, FixedLit, FixedDist, LitCode, DistCode, Shows, BytesToBits, Val;
    var l := FixedLengths();
    FixedTables(7, 5);
    var code, tl, bl := HuftBuild(l, 257, CPLENS, CPLEXT, 7);
    if code != 0 {
      return Returned(code);
    }
    var td, bd;
    code, td, bd := HuftBuild(FixedDist(), 0, CPDIST, CPDEXT, 5);
    if code > 1 {
      return Returned(code);
    }
    FixedTables(bl, bd);
    r := InflateCodes(rd, win, tl, td, bl, bd, l, FixedDist());
    if r.Returned? && r.code != 0 {
      r := Returned(1);
    }
  }

  // ---- Dynamic codes

  function LengthCode(cl: seq<nat>): HuftTables.Code { HuftTables.Code(cl, 19, [], []) }

  /** With every length within the first table's bits, a lookup is one step. */
  lemma OneLevel(t: seq<seq<Huft>>, bits: nat, S: seq<bool>, p: nat)
    requires |t| <= 1 && bits <= M
    ensures var W := Walk(t, 0, bits, S, p);
            W.Some? ==> |t| == 1 && p + bits <= |S| && Val(S[p..p + bits]) < |t[0]|
                        && W == Some((t[0][Val(S[p..p + bits])], p))
                        && (Dead(W.value.0) || 1 <= W.value.0.b <= bits)
  {
    hide Val;
  }

  lemma LengthSymbol(cl: seq<nat>, t: seq<seq<Huft>>, bits: nat, S: seq<bool>, p: nat)
    requires TableFor(LengthCode(cl), t, bits) && |t| <= 1 && |cl| == 19
    ensures var Y := Symbol(cl, S, p);
            Y.Some? && Y.value.1 + M <= |S|
            ==> |t| == 1 && p + bits <= |S| && Val(S[p..p + bits]) < |t[0]|
                && var e := t[0][Val(S[p..p + bits])];
                   e == Huft(16, e.b, Y.value.0) && 1 <= e.b <= bits && p + e.b == Y.value.1
  {
    hide Val, Walk, Decodes, Complete, CodeOk;
    var Y := Symbol(cl, S, p);
    if Y.Some? && Y.value.1 + M <= |S| {
      LookupMeets(LengthCode(cl), t, bits, S, p);
      OneLevel(t, bits, S, p);
    }
  }

  /** One symbol of the code length code: its value, when reading can go on. */
  method ReadLengthSymbol(rd: BitReader, t: seq<seq<Huft>>, bits: nat, ghost cl: seq<nat>) returns (ok: bool, j: nat)
    requires rd.Valid() && TableFor(LengthCode(cl), t, bits) && |t| <= 1 && |cl| == 19
    modifies rd
    ensures rd.Valid() && rd.Pos() >= old(rd.Pos())
    ensures ok ==> rd.Pos() > old(rd.Pos())
    ensures var Y := Symbol(cl, rd.Stream(), old(rd.Pos()));
            Y.Some? && Y.value.1 + M <= |rd.Stream()| ==> ok && j == Y.value.0 && rd.Pos() == Y.value.1
  {
    hide Val, Walk, Decodes, CodeOk, Symbol, TableFor, BytesToBits, Pow2, And;
    LengthSymbol(cl, t, bits, rd.Stream(), rd.Pos());
    TableForBits(LengthCode(cl), t, bits);
    ok, j := false, 0;
    if t == [] {
      return;
    }
    var fed := rd.NeedBits(bits);
    if !fed {
      return;
    }
    var at := rd.Peek(bits);
    if at >= |t[0]| {
      return;
    }
    var e := t[0][at];
    if Dead(e) || e.e != 16 || !(1 <= e.b <= bits) {
      return;
    }
    rd.DumpBits(e.b);
    ok, j := true, e.v;
  }

  lemma TableForBits(C: HuftTables.Code, t: seq<seq<Huft>>, bits: nat)
    requires TableFor(C, t, bits)
    ensures bits <= M
  {}

  /** ll[i..i + count] := x, x, .. */
  method StoreLengths(ll0: seq<nat>, i0: nat, x: nat, count: nat) returns (ll: seq<nat>, i: nat)
    requires i0 + count <= |ll0|
    ensures |ll| == |ll0| && i == i0 + count && ll[..i] == ll0[..i0] + Repeat(x, count)
    ensures x <= 15 && (forall k :: 0 <= k < |ll0| ==> ll0[k] <= 15) ==> forall k :: 0 <= k < |ll| ==> ll[k] <= 15
  {
    ll, i := ll0, i0;
    var j := count;
    while j != 0
      invariant 0 <= j <= count && i == i0 + count - j && |ll| == |ll0|
      invariant ll[..i] == ll0[..i0] + Repeat(x, count - j)
      invariant x <= 15 && (forall k :: 0 <= k < |ll0| ==> ll0[k] <= 15) ==> forall k :: 0 <= k < |ll| ==> ll[k] <= 15
    {
      ghost var before := ll[..i];
      ll := ll[i := x];
      i := i + 1;
      j := j - 1;
      assert ll[..i] == before + [x];
      assert Repeat(x, count - j) == Repeat(x, count - j - 1) + [x];
    }
  }

  ghost predicate LengthsOnTrack(spec: Option<(seq<nat>, nat)>, size: nat, rest: Option<(seq<nat>, nat)>) {
    spec.Some? && spec.value.1 + M <= size ==> rest == spec
  }

  function LastOf(acc: seq<nat>): nat { if acc == [] then 0 else acc[|acc| - 1] }

  /** What reading one more symbol and its extra bits says about the lengths. */
  lemma LengthStep(spec: Option<(seq<nat>, nat)>, cl: seq<nat>, S: seq<bool>, p: nat, n: nat, acc: seq<nat>)
    requires LengthsOnTrack(spec, |S|, ReadLengths(cl, S, p, n, acc)) && |acc| < n
    ensures spec.Some? && spec.value.1 + M <= |S|
            ==> var Y := Symbol(cl, S, p);
                Y.Some? && Y.value.1 + M <= |S|
                && var R := Repeated(Y.value.0, acc);
                   R.Some?
                   && var B := ReadBits(S, Y.value.1, R.value.1);
                      B.Some? && |acc| + R.value.2 + B.value.0 <= n
                      && spec == ReadLengths(cl, S, B.value.1, n, acc + Repeat(R.value.0, R.value.2 + B.value.0))
  {
    hide Symbol, Val;
  }

  const MAX_LENGTHS: nat := 286 + 30

  /** The code lengths of both codes, run-length decoded. */
  method ReadAllLengths(rd: BitReader, t: seq<seq<Huft>>, bits: nat, n: nat, ghost cl: seq<nat>)
    returns (r: Outcome, ll: seq<nat>)
    requires rd.Valid() && TableFor(LengthCode(cl), t, bits) && |t| <= 1 && |cl| == 19 && n <= MAX_LENGTHS
    modifies rd
    ensures rd.Valid() && rd.Pos() >= old(rd.Pos()) && |ll| == MAX_LENGTHS
    ensures forall k :: 0 <= k < |ll| ==> ll[k] <= 15
    ensures var spec := ReadLengths(cl, rd.Stream(), old(rd.Pos()), n, []);
            spec.Some? && spec.value.1 + M <= |rd.Stream()|
            ==> r == Returned(0) && ll[..n] == spec.value.0 && rd.Pos() == spec.value.1
  {
    hide ReadLengths, ReadBits, Symbol, TableFor, LengthCode, BytesToBits, Val, Pow2;
    ghost var spec := ReadLengths(cl, rd.Stream(), rd.Pos(), n, []);
    ll := seq(MAX_LENGTHS, _ => 0);
    var i, l := 0, 0;
    assert ll[..0] == [];
    while i < n
      invariant rd.Valid() && rd.Pos() >= old(rd.Pos()) && |ll| == MAX_LENGTHS && 0 <= i <= n
      invariant LengthsOnTrack(spec, |rd.Stream()|, ReadLengths(cl, rd.Stream(), rd.Pos(), n, ll[..i]))
      invariant l == LastOf(ll[..i]) && l <= 15 && forall k :: 0 <= k < |ll| ==> ll[k] <= 15
    {
      ghost var acc := ll[..i];
      LengthStep(spec, cl, rd.Stream(), rd.Pos(), n, acc);
      var ok, j := ReadLengthSymbol(rd, t, bits, cl);
      if !ok {
        return Died, ll;
      }
      var x, extra, least := j, 0, 1;
      if j >= 16 {
        x, extra, least := if j == 16 then l else 0, if j == 16 then 2 else if j == 17 then 3 else 7, if j <= 17 then 3 else 11;
      }
      RepeatedIs(j, acc);
      var more;
      ok, more := TakeBits(rd, extra);
      if !ok {
        return Died, ll;
      }
      if i + least + more > n {
        return Returned(1), ll;
      }
      ll, i := StoreLengths(ll, i, x, least + more);
      LastRepeated(acc, x, least + more);
      l := x;
    }
    EndOfLengths(spec, cl, rd.Stream(), rd.Pos(), n, ll[..n]);
    return Returned(0), ll;
  }

  lemma RepeatedIs(j: nat, acc: seq<nat>)
    ensures Repeated(j, acc).Some?
            ==> Repeated(j, acc).value
                == if j < 16 then (j, 0, 1)
                   else (if j == 16 then LastOf(acc) else 0, if j == 16 then 2 else if j == 17 then 3 else 7,
                         if j <= 17 then 3 else 11)
  {}

  lemma LastRepeated(acc: seq<nat>, x: nat, n: nat)
    requires n > 0
    ensures LastOf(acc + Repeat(x, n)) == x
  {}

  lemma EndOfLengths(spec: Option<(seq<nat>, nat)>, cl: seq<nat>, S: seq<bool>, p: nat, n: nat, acc: seq<nat>)
    requires LengthsOnTrack(spec, |S|, ReadLengths(cl, S, p, n, acc)) && |acc| == n
    ensures spec.Some? && spec.value.1 + M <= |S| ==> acc == spec.value.0 && p == spec.value.1
  {}

  // border
  const BORDER: seq<nat> := [16, 17, 18, 0, 8, 7, 9, 6, 10, 5, 11, 4, 12, 3, 13, 2, 14, 1, 15]

  lemma OrderRange()
    ensures |BORDER| == 19 && forall i :: 0 <= i < 19 ==> BORDER[i] < 19 && Field(BORDER[i]) == i
  {}

  /** The lengths of the code length code, in their fixed order; those not sent are 0. */
  method ReadOrderedLengths(rd: BitReader, nb: nat) returns (ok: bool, cl: seq<nat>)
    requires rd.Valid() && nb <= 19
    modifies rd
    ensures rd.Valid() && rd.Pos() >= old(rd.Pos()) && |cl| == 19
    ensures ok == (old(rd.Pos()) + 3 * nb <= |rd.Stream()|)
    ensures ok ==> rd.Pos() == old(rd.Pos()) + 3 * nb && cl == ReadOrdered(rd.Stream(), old(rd.Pos()), nb)
                   && InOrder(rd.Stream(), old(rd.Pos()), nb, cl) && forall i :: 0 <= i < 19 ==> cl[i] < 8
  {
    hide BytesToBits, Val, Pow2, ReadOrdered, InOrder, Field, FieldAt;
    OrderRange();
    Pow2Values();
    ghost var p := rd.Pos();
    cl := seq(19, _ => 0);
    var j := 0;
    OrderedNone(rd.Stream(), p);
    while j < nb
      invariant rd.Valid() && 0 <= j <= nb && |cl| == 19 && rd.Pos() == p + 3 * j <= |rd.Stream()|
      invariant cl == ReadOrdered(rd.Stream(), p, j) && forall i :: 0 <= i < 19 ==> cl[i] < 8
    {
      ghost var q := rd.Pos();
      var fed, v := TakeBits(rd, 3);
      if !fed {
        return false, cl;
      }
      OrderedStep(rd.Stream(), p, j + 1, v, q);
      cl := cl[BORDER[j] := v];
      j := j + 1;
    }
    OrderRead(rd.Stream(), p, nb);
    return true, cl;
  }

  lemma OrderedNone(S: seq<bool>, p: nat)
    requires p <= |S|
    ensures ReadOrdered(S, p, 0) == seq(19, _ => 0)
  {
    ReadOrderedNone(S, p);
    hide ReadOrdered;
  }

  lemma OrderedStep(S: seq<bool>, p: nat, n: nat, v: nat, q: nat)
    requires 1 <= n <= 19 && q == p + 3 * (n - 1) && ReadBits(S, q, 3) == Some((v, q + 3)) && q + 3 <= |S|
    ensures BORDER[n - 1] < 19 && p + 3 * n <= |S|
    ensures ReadOrdered(S, p, n) == ReadOrdered(S, p, n - 1)[BORDER[n - 1] := v]
  {
    OrderRange();
    ReadOrderedNext(S, p, n, BORDER[n - 1]);
    hide ReadOrdered, Field;
  }

  /** A code may be used exactly when huft_build returns 0 for it. */
  lemma UsableVerdict(lens: seq<nat>)
    requires LensOk(lens)
    ensures Usable(lens) ==> Verdict(lens) == 0
  {}

  /** The first table is wide enough for the codes of this format. */
  lemma SuitsLit(b: seq<nat>, bits: nat)
    requires (forall i :: 0 <= i < |b| ==> b[i] <= 15)
    requires bits >= 9 || forall i :: 0 <= i < |b| ==> b[i] <= bits
    ensures Suits(b, bits)
  {}

  lemma SuitsDist(b: seq<nat>, bits: nat)
    requires |b| <= 30 && (bits >= 6 || forall i :: 0 <= i < |b| ==> b[i] <= bits) && bits >= 1
    requires Complete(b) || OneBit(b)
    ensures Suits(b, bits)
  {
    Pow2Values();
    if bits >= 6 { Pow2Monotone(6, bits); }
    hide Complete, Pow2;
  }

  lemma TableMade(C: HuftTables.Code, t: seq<seq<Huft>>, bits: nat)
    requires CodeOk(C) && bits <= M
    requires AllZero(C.lens) ==> t == []
    requires !AllZero(C.lens) ==> Decodes(C, t, bits)
    ensures TableFor(C, t, bits)
  {}

  /** What the header of a dynamic block gives: three numbers and the lengths of the code length code. */
  lemma DynamicHeader(S: seq<bool>, p: nat, out: seq<byte>, nl: nat, nd: nat, nb: nat)
    requires p + 14 <= |S| && ReadBits(S, p, 5) == Some((nl, p + 5)) && nb <= 15
    requires ReadBits(S, p + 5, 5) == Some((nd, p + 10)) && ReadBits(S, p + 10, 4) == Some((nb, p + 14))
    ensures ReadDynamic(S, p, out)
            == if 257 + nl > 286 || 1 + nd > 30 || p + 14 + 3 * (4 + nb) > |S| then None
               else ReadCoded(ReadOrdered(S, p + 14, 4 + nb), S, p + 14 + 3 * (4 + nb), 257 + nl, 1 + nd, out)
  {
    hide Val, ReadOrdered, ReadCoded, Pow2;
  }

  lemma HeaderRange(S: seq<bool>, p: nat, nb: nat)
    requires p + 14 <= |S| && ReadBits(S, p + 10, 4) == Some((nb, p + 14))
    ensures nb < 16
  {
    ValBound(S[p + 10..p + 14]);
    Pow2Values();
  }

  lemma NoHeader(S: seq<bool>, p: nat, out: seq<byte>)
    requires p + 14 > |S|
    ensures ReadDynamic(S, p, out) == None
  {}

  lemma LengthTable(cl: seq<nat>, t: seq<seq<Huft>>, bits: nat)
    requires |cl| == 19 && (forall i :: 0 <= i < 19 ==> cl[i] < 8)
    ensures CodeOk(LengthCode(cl)) && LengthCode(cl) == HuftTables.Code(cl, 19, [], []) && LensOk(cl)
    ensures bits >= 7 ==> Suits(cl, bits) && forall i :: 0 <= i < |cl| ==> cl[i] <= bits
    ensures (forall i :: 0 <= i < |cl| ==> cl[i] <= bits) ==> Suits(cl, bits)
  {}

  /** The lengths l[from..to] as the lengths of a code. */
  lemma PartCodes(l: seq<nat>, nl: nat, n: nat)
    requires |l| == MAX_LENGTHS && nl <= 286 && nl <= n <= nl + 30 && (forall k :: 0 <= k < |l| ==> l[k] <= 15)
    ensures LensOk(l[..nl]) && LensOk(l[nl..n])
    ensures CodeOk(LitCode(l[..nl])) && LitCode(l[..nl]) == HuftTables.Code(l[..nl], 257, CPLENS, CPLEXT)
    ensures CodeOk(DistCode(l[nl..n])) && DistCode(l[nl..n]) == HuftTables.Code(l[nl..n], 0, CPDIST, CPDEXT)
    ensures |l[..nl]| <= 288 && |l[nl..n]| <= 288 && l[..n][..nl] == l[..nl] && l[..n][nl..] == l[nl..n]
  {
    LitCodeOk(l[..nl]);
    DistCodeOk(l[nl..n]);
  }

  lemma LitTable(l: seq<nat>, t: seq<seq<Huft>>, bits: nat)
    requires LensOk(l) && CodeOk(LitCode(l)) && (forall i :: 0 <= i < |l| ==> l[i] <= 15)
    requires AllZero(l) ==> t == [] && bits == 0
    requires !AllZero(l) ==> 1 <= bits <= M && (bits >= 9 || forall i :: 0 <= i < |l| ==> l[i] <= bits)
    requires !AllZero(l) && Suits(l, bits) ==> Decodes(LitCode(l), t, bits)
    ensures TableFor(LitCode(l), t, bits)
  {
    if !AllZero(l) {
      SuitsLit(l, bits);
    }
    LitCodeLens(l);
    hide Suits, CodeOk, LitCode;
  }

  lemma DistTable(l: seq<nat>, t: seq<seq<Huft>>, bits: nat)
    requires LensOk(l) && |l| <= 30 && CodeOk(DistCode(l)) && Verdict(l) == 0
    requires AllZero(l) ==> t == [] && bits == 0
    requires !AllZero(l) ==> 1 <= bits <= M && (bits >= 6 || forall i :: 0 <= i < |l| ==> l[i] <= bits)
    requires !AllZero(l) && Suits(l, bits) ==> Decodes(DistCode(l), t, bits)
    ensures TableFor(DistCode(l), t, bits)
  {
    if !AllZero(l) {
      SuitsDist(l, bits);
    }
    DistCodeLens(l);
    hide Suits, CodeOk, DistCode, Complete, Oversubscribed;
  }

  lemma CodedStep(cl: seq<nat>, S: seq<bool>, p: nat, nl: nat, nd: nat, out: seq<byte>)
    ensures var spec := ReadCoded(cl, S, p, nl, nd, out);
            spec.Some?
            ==> Usable(cl)
                && var L := ReadLengths(cl, S, p, nl + nd, []);
                 L.Some? && L.value.1 < spec.value.1 && Usable(L.value.0[..nl]) && Usable(L.value.0[nl..])
                 && spec == ReadItems(L.value.0[..nl], L.value.0[nl..], S, L.value.1, out)
  {
    hide ReadLengths, ReadItems, Usable;
  }

  method DynamicBody(rd: BitReader, win: OutputWindow, nl: nat, nd: nat, cl: seq<nat>) returns (r: Outcome)
    requires rd.Valid() && win.Valid() && |cl| == 19 && (forall i :: 0 <= i < 19 ==> cl[i] < 8)
    requires nl <= 286 && nd <= 30
    modifies rd, win, win.window
    ensures rd.Valid() && win.Valid() && rd.Pos() >= old(rd.Pos())
    ensures DecodesAs(ReadCoded(cl, rd.Stream(), old(rd.Pos()), nl, nd, old(win.Output())), |rd.Stream()|,
                      r, win.Output(), rd.Pos())
  {
    hide Usable, ReadLengths, ReadItems, Verdict, Decodes, Suits, Straight, Misread, TableWidth, Complete, AllZero, LensOk, CodeOk, LitCode, DistCode, LengthCode,
         ReadCoded, TableFor, BytesToBits, Val, Shows;
    ghost var S, p, out := rd.Stream(), rd.Pos(), win.Output();
    ghost var spec := ReadCoded(cl, S, p, nl, nd, out);
    CodedStep(cl, S, p, nl, nd, out);
    LengthTable(cl, [], 7);
    UsableVerdict(cl);
    var code, t, bits := HuftBuild(cl, 19, [], [], 7);
    if code != 0 {
      return Returned(code);
    }
    LengthTable(cl, t, bits);
    TableMade(LengthCode(cl), t, bits);
    var l;
    r, l := ReadAllLengths(rd, t, bits, nl + nd, cl);
    if r != Returned(0) {
      return;
    }
    PartCodes(l, nl, nl + nd);
    UsableVerdict(l[..nl]);
    UsableVerdict(l[nl..nl + nd]);
    var tl, td, bl, bd;
    code, tl, bl := HuftBuild(l[..nl], 257, CPLENS, CPLEXT, 9);
    if code != 0 {
      return Returned(code);
    }
    LitTable(l[..nl], tl, bl);
    code, td, bd := HuftBuild(l[nl..nl + nd], 0, CPDIST, CPDEXT, 6);
    if code != 0 {
      return Returned(code);
    }
    DistTable(l[nl..nl + nd], td, bd);
    r := InflateCodes(rd, win, tl, td, bl, bd, l[..nl], l[nl..nl + nd]);
    if r.Returned? && r.code != 0 {
      r := Returned(1);
    }
  }

  method InflateDynamic(rd: BitReader, win: OutputWindow) returns (r: Outcome)
    requires rd.Valid() && win.Valid()
    modifies rd, win, win.window
    ensures rd.Valid() && win.Valid() && rd.Pos() >= old(rd.Pos())
    ensures DecodesAs(ReadDynamic(rd.Stream(), old(rd.Pos()), old(win.Output())), |rd.Stream()|, r, win.Output(), rd.Pos())
  {
    hide ReadDynamic, ReadCoded, ReadOrdered, Shows, Val, BytesToBits, Pow2;
    ghost var S, p, out := rd.Stream(), rd.Pos(), win.Output();
    if p + 14 > |S| {
      NoHeader(S, p, out);
    }
    var ok, nl, nd, nb;
    ok, nl := TakeBits(rd, 5);
    if !ok {
      return Died;
    }
    ok, nd := TakeBits(rd, 5);
    if !ok {
      return Died;
    }
    ok, nb := TakeBits(rd, 4);
    if !ok {
      return Died;
    }
    HeaderRange(S, p, nb);
    DynamicHeader(S, p, out, nl, nd, nb);
    nl, nd, nb := 257 + nl, 1 + nd, 4 + nb;
    if nl > 286 || nd > 30 {
      return Returned(1);
    }
    var cl;
    ok, cl := ReadOrderedLengths(rd, nb);
    if !ok {
      return Died;
    }
    r := DynamicBody(rd, win, nl, nd, cl);
  }

  /** One block; also whether it is marked as the last. */
  method InflateBlock(rd: BitReader, win: OutputWindow) returns (r: Outcome, last: bool)
    requires rd.Valid() && win.Valid()
    modifies rd, win, win.window
    ensures rd.Valid() && win.Valid() && rd.Pos() >= old(rd.Pos())
    ensures r.Returned? ==> rd.Pos() > old(rd.Pos())
    ensures var spec := ReadBlock(rd.Stream(), old(rd.Pos()), old(win.Output()));
            spec.Some? && spec.value.2 + M <= |rd.Stream()|
            ==> r == Returned(0) && last == spec.value.0 && win.Output() == spec.value.1 && rd.Pos() == spec.value.2
  {
    hide ReadDynamic, ReadItems, ReadStored, Shows, Val, BytesToBits, Pow2, FixedLit, FixedDist;
    ghost var S, p, out := rd.Stream(), rd.Pos(), win.Output();
    last := false;
    var ok, e, t;
    ok, e := TakeBits(rd, 1);
    if !ok {
      return Died, last;
    }
    last := e == 1;
    ok, t := TakeBits(rd, 2);
    if !ok {
      return Died, last;
    }
    OneBitValue(S, p, e);
    if t == 2 {
      r := InflateDynamic(rd, win);
    } else if t == 0 {
      r := InflateStored(rd, win);
    } else if t == 1 {
      r := InflateFixed(rd, win);
    } else {
      r := Returned(2);
    }
  }

  lemma OneBitValue(S: seq<bool>, p: nat, e: nat)
    requires p + 1 <= |S| && ReadBits(S, p, 1) == Some((e, p + 1))
    ensures (e == 1) == S[p]
  {
    var s := S[p..p + 1];
    assert s[1..] == [];
    assert Val(s) == if s[0] then 1 else 0;
  }

  /** The decompressor: blocks up to the last one; then the lookahead is undone and the window written out. */
  method Inflate(rd: BitReader, win: OutputWindow) returns (r: Outcome)
    requires rd.Valid() && win.Valid() && win.outcnt == 0
    modifies rd, win, win.window
    ensures var spec := ReadStream(rd.Stream(), old(rd.Pos()), old(win.written));
            spec.Some? && spec.value.1 + M <= |rd.Stream()|
            ==> r == Returned(0) && win.written == spec.value.0 && rd.inptr == (spec.value.1 + 7) / 8
  {
    hide ReadBlock, BytesToBits;
    ghost var S, spec := rd.Stream(), ReadStream(rd.Stream(), rd.Pos(), win.written);
    assert win.Output() == win.written;
    var last := false;
    while !last
      invariant rd.Valid() && win.Valid()
      invariant spec.Some? && spec.value.1 + M <= |S|
                ==> if last then spec == Some((win.Output(), rd.Pos())) else spec == ReadStream(S, rd.Pos(), win.Output())
      decreases 8 * |rd.input| - rd.Pos(), !last
    {
      r, last := InflateBlock(rd, win);
      if r != Returned(0) {
        return;
      }
    }
    rd.UndoLookahead();
    win.Flush();
    return Returned(0);
  }
}
