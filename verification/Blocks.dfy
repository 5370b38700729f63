/** How whole blocks are written, and that the format reads them back: sections 3.2.3 to 3.2.7 of RFC 1951. */
module Blocks {
  import opened Options
  import opened Bits
  import opened PrefixCodes
  import opened Lz77
  import opened Rfc1951
  import opened BitWriting
  import opened Tokens
  import opened Trees
  import opened CodeLengths

  const STORED_BLOCK: nat := 0
  const STATIC_TREES: nat := 1
  const DYN_TREES: nat := 2

  /** The first three bits of a block. */
  function KindBits(kind: nat, last: bool): (s: seq<bool>)
    ensures |s| == 3
  {
    ToBits(2 * kind + (if last then 1 else 0), 3)
  }

  lemma HeaderRead(S: seq<bool>, p: nat, kind: nat, last: bool)
    requires kind < 4 && At(S, p, KindBits(kind, last))
    ensures p + 3 <= |S| && S[p] == last && Val(S[p + 1..p + 3]) == kind
  {
    var v := 2 * kind + (if last then 1 else 0);
    var t := S[p..p + 3];
    assert t == ToBits(v, 3) && v / 2 == kind;
    assert ToBits(v, 3) == [v % 2 == 1] + ToBits(kind, 2);
    assert S[p + 1..p + 3] == t[1..] == ToBits(kind, 2);
    Pow2Values();
    ValToBits(kind, 2);
  }

  /** Whatever follows S, a block read at p gives out' and ends at the end of S. */
  ghost predicate BlockAt(S: seq<bool>, p: nat, last: bool, out: seq<byte>, out': seq<byte>) {
    forall T :: S <= T ==> ReadBlock(T, p, out) == Some((last, out', |S|))
  }

  // ---- Stored blocks

  lemma AlignedPad(n: nat)
    ensures n + Padding(n) == Aligned(n)
  {}

  lemma {:induction false} ReadBytesAt(S: seq<bool>, p: nat, buf: seq<byte>)
    requires At(S, p, BytesToBits(buf))
    ensures p + 8 * |buf| <= |S| && ReadBytes(S, p, |buf|) == buf
    decreases |buf|
  {
    if buf != [] {
      AtConcat(S, p, ToBits(buf[0], 8), BytesToBits(buf[1..]));
      ReadBytesAt(S, p + 8, buf[1..]);
      ByteRead(S, p, buf[0]);
      hide At, ToBits, ByteOf;
      assert buf == [buf[0]] + buf[1..];
    }
  }

  lemma ByteRead(S: seq<bool>, p: nat, c: byte)
    requires At(S, p, ToBits(c, 8))
    ensures p + 8 <= |S| && ByteOf(S[p..p + 8]) == c
  {
    Pow2Values();
    ValToBits(c, 8);
  }

  /** The bits of a stored block that starts at bit n. */
  ghost function StoredBits(n: nat, last: bool, buf: seq<byte>): (s: seq<bool>)
    requires |buf| < 65536
  {
    KindBits(STORED_BLOCK, last) + Zeros(Padding(n + 3)) + LengthField(|buf|) + BytesToBits(buf)
  }

  lemma StoredRead(S: seq<bool>, p: nat, last: bool, out: seq<byte>, buf: seq<byte>)
    requires |buf| < 65536 && At(S, p, StoredBits(p, last, buf))
    ensures ReadBlock(S, p, out) == Some((last, out + buf, p + |StoredBits(p, last, buf)|))
  {
    hide *;
    var h, z, l, b := KindBits(STORED_BLOCK, last), Zeros(Padding(p + 3)), LengthField(|buf|), BytesToBits(buf);
    StoredParts(p, last, buf);
    AtConcat(S, p, h, z + (l + b));
    AtConcat(S, p + |h|, z, l + b);
    AtConcat(S, p + |h| + |z|, l, b);
    HeaderRead(S, p, STORED_BLOCK, last);
    AlignedPad(p + 3);
    LengthRead(S, Aligned(p + 3), |buf|);
    ReadBytesAt(S, Aligned(p + 3) + 32, buf);
    StoredIs(S, p, out, |buf|);
  }

  lemma StoredParts(p: nat, last: bool, buf: seq<byte>)
    requires |buf| < 65536
    ensures STORED_BLOCK == 0
    ensures var h, z, l, b := KindBits(STORED_BLOCK, last), Zeros(Padding(p + 3)), LengthField(|buf|), BytesToBits(buf);
            StoredBits(p, last, buf) == h + (z + (l + b)) && |h| == 3 && |z| == Padding(p + 3) && |l| == 32 && |b| == 8 * |buf|
  {
    Regroup(KindBits(STORED_BLOCK, last), Zeros(Padding(p + 3)), LengthField(|buf|), BytesToBits(buf));
  }

  lemma LengthRead(S: seq<bool>, p: nat, len: nat)
    requires len < 65536 && At(S, p, LengthField(len))
    ensures ReadBits(S, p, 16) == Some((len, p + 16)) && ReadBits(S, p + 16, 16) == Some((65535 - len, p + 32))
  {
    Pow2Values();
    AtConcat(S, p, ToBits(len, 16), ToBits(65535 - len, 16));
    hide At, ToBits, Pow2, ReadBits;
    ReadBitsAt(S, p, len, 16);
    ReadBitsAt(S, p + 16, 65535 - len, 16);
  }

  lemma StoredIs(S: seq<bool>, p: nat, out: seq<byte>, len: nat)
    requires p + 3 <= |S| && Val(S[p + 1..p + 3]) == 0
    requires var a := Aligned(p + 3);
             ReadBits(S, a, 16) == Some((len, a + 16)) && ReadBits(S, a + 16, 16) == Some((65535 - len, a + 32))
             && len <= 65535 && a + 32 + 8 * len <= |S|
    ensures var a := Aligned(p + 3);
            ReadBlock(S, p, out) == Some((S[p], out + ReadBytes(S, a + 32, len), a + 32 + 8 * len))
  {
    hide Val, ReadBits, ReadBytes, Aligned;
  }

  // ---- Fixed codes

  lemma FixedRead(S: seq<bool>, p: nat, last: bool, toks: seq<Token>, out: seq<byte>)
    requires Tokens.Code(FixedLit()) && Tokens.Code(FixedDist()) && AllEncodable(FixedLit(), FixedDist(), toks)
    requires Expands(out, toks, |toks|)
    requires At(S, p, KindBits(STATIC_TREES, last) + BlockBits(FixedLit(), FixedDist(), toks))
    ensures ReadBlock(S, p, out)
            == Some((last, Expand(out, toks, |toks|), p + 3 + |BlockBits(FixedLit(), FixedDist(), toks)|))
  {
    hide *;
    FixedEnd();
    var h, b := KindBits(STATIC_TREES, last), BlockBits(FixedLit(), FixedDist(), toks);
    AtConcat(S, p, h, b);
    HeaderRead(S, p, STATIC_TREES, last);
    BlockRead(FixedLit(), FixedDist(), S, p + 3, toks, out);
    FixedIs(S, p, out);
  }

  lemma FixedEnd()
    ensures END_OF_BLOCK < |FixedLit()| && FixedLit()[END_OF_BLOCK] > 0 && STATIC_TREES == 1
  {}

  lemma FixedIs(S: seq<bool>, p: nat, out: seq<byte>)
    requires p + 3 <= |S| && Val(S[p + 1..p + 3]) == 1
    ensures var r := ReadItems(FixedLit(), FixedDist(), S, p + 3, out);
            ReadBlock(S, p, out) == if r.Some? then Some((S[p], r.value.0, r.value.1)) else None
  {
    hide Val, ReadItems, FixedLit, FixedDist;
  }

  // ---- Dynamic codes

  /** The lengths of the code length code, in the order they are sent. */
  ghost function OrderedBits(cl: seq<nat>, n: nat): (s: seq<bool>)
    requires |cl| == BL_CODES && n <= BL_CODES
    ensures |s| == 3 * n
  {
    if n == 0 then [] else OrderedBits(cl, n - 1) + ToBits(cl[Ordered(n - 1)], 3)
  }

  // bl_order
  const BL_ORDER: seq<nat> := [16, 17, 18, 0, 8, 7, 9, 6, 10, 5, 11, 4, 12, 3, 13, 2, 14, 1, 15]

  function Ordered(i: nat): (k: nat)
    requires i < BL_CODES
    ensures k < BL_CODES && k == BL_ORDER[i] && Field(k) == i
  {
    BL_ORDER[i]
  }

  /** Every symbol has its place in the order. */
  lemma OrderedField(k: nat)
    requires k < BL_CODES
    ensures Field(k) < BL_CODES && Ordered(Field(k)) == k
  {}

  /** The first n in that order, the others 0. */
  ghost function OnlyFirst(cl: seq<nat>, n: nat): (s: seq<nat>)
    requires |cl| == BL_CODES && n <= BL_CODES
    ensures |s| == BL_CODES && forall k :: 0 <= k < BL_CODES ==> s[k] == if Field(k) < n then cl[k] else 0
  {
    seq(BL_CODES, k requires 0 <= k < BL_CODES => if Field(k) < n then cl[k] else 0)
  }

  /** Nothing is lost when only zeros are left unsent. */
  lemma OnlyFirstIsAll(cl: seq<nat>, n: nat)
    requires |cl| == BL_CODES && n <= BL_CODES && forall i :: n <= i < BL_CODES ==> cl[Ordered(i)] == 0
    ensures OnlyFirst(cl, n) == cl
  {
    hide Ordered, Field;
    forall k | 0 <= k < BL_CODES
      ensures OnlyFirst(cl, n)[k] == cl[k]
    {
      OrderedField(k);
    }
  }

  lemma OrderedBitsNext(cl: seq<nat>, n: nat)
    requires |cl| == BL_CODES && 1 <= n <= BL_CODES
    ensures OrderedBits(cl, n) == OrderedBits(cl, n - 1) + ToBits(cl[Ordered(n - 1)], 3)
  {}

  /** Field i of what is sent. */
  lemma {:induction false} SentField(cl: seq<nat>, n: nat, i: nat)
    requires |cl| == BL_CODES && i < n <= BL_CODES
    ensures OrderedBits(cl, n)[3 * i..3 * i + 3] == ToBits(cl[Ordered(i)], 3)
  {
    hide *;
    OrderedBitsNext(cl, n);
    if i < n - 1 { SentField(cl, n - 1, i); }
    var a, b := OrderedBits(cl, n - 1), ToBits(cl[Ordered(n - 1)], 3);
    assert i < n - 1 ==> (a + b)[3 * i..3 * i + 3] == a[3 * i..3 * i + 3];
    assert i == n - 1 ==> (a + b)[3 * i..3 * i + 3] == b;
  }

  /** The bits of field i. */
  function Slot(bits: seq<bool>, i: nat): (s: seq<bool>)
    requires 3 * i + 3 <= |bits|
  {
    bits[3 * i..3 * i + 3]
  }

  lemma SentPlace(cl: seq<nat>, n: nat, k: nat, i: nat)
    requires |cl| == BL_CODES && i < n <= BL_CODES && k < BL_CODES && Field(k) == i
    ensures Slot(OrderedBits(cl, n), i) == ToBits(cl[k], 3)
  {
    OrderedField(k);
    SentField(cl, n, i);
    hide OrderedBits, ToBits, Field;
  }

  lemma Outward(k: nat)
    requires k <= 7
    ensures 8 + k < BL_CODES == 19 && Field(8 + k) == 4 + 2 * k && (k >= 1 ==> Field(8 - k) == 3 + 2 * k)
    ensures Field(16) == 0 && Field(17) == 1 && Field(18) == 2 && Field(0) == 3
  {}

  /** The lengths are sent for 16, 17, 18 and 0 first, then for 8, 7, 9, 6, 10 and so on. */
  lemma OrderSent(cl: seq<nat>, n: nat)
    requires |cl| == BL_CODES && 4 <= n <= BL_CODES
    ensures Slot(OrderedBits(cl, n), 0) == ToBits(cl[16], 3) && Slot(OrderedBits(cl, n), 1) == ToBits(cl[17], 3)
    ensures Slot(OrderedBits(cl, n), 2) == ToBits(cl[18], 3) && Slot(OrderedBits(cl, n), 3) == ToBits(cl[0], 3)
    ensures forall k :: 0 <= k <= 7 && 4 + 2 * k < n ==> Slot(OrderedBits(cl, n), 4 + 2 * k) == ToBits(cl[8 + k], 3)
    ensures forall k :: 1 <= k <= 7 && 3 + 2 * k < n ==> Slot(OrderedBits(cl, n), 3 + 2 * k) == ToBits(cl[8 - k], 3)
  {
    hide *;
    Outward(0);
    SentPlace(cl, n, 16, 0);
    SentPlace(cl, n, 17, 1);
    SentPlace(cl, n, 18, 2);
    SentPlace(cl, n, 0, 3);
    forall k | 0 <= k <= 7 && 4 + 2 * k < n
      ensures Slot(OrderedBits(cl, n), 4 + 2 * k) == ToBits(cl[8 + k], 3)
    {
      Outward(k);
      SentPlace(cl, n, 8 + k, 4 + 2 * k);
    }
    forall k | 1 <= k <= 7 && 3 + 2 * k < n
      ensures Slot(OrderedBits(cl, n), 3 + 2 * k) == ToBits(cl[8 - k], 3)
    {
      Outward(k);
      SentPlace(cl, n, 8 - k, 3 + 2 * k);
    }
  }

  lemma OrderedRead(S: seq<bool>, p: nat, cl: seq<nat>, n: nat)
    requires |cl| == BL_CODES && n <= BL_CODES && (forall i :: 0 <= i < BL_CODES ==> cl[i] < 8)
    requires At(S, p, OrderedBits(cl, n))
    ensures p + 3 * n <= |S| && ReadOrdered(S, p, n) == OnlyFirst(cl, n)
  {
    hide At, OrderedBits, Field, FieldAt;
    SliceAt(S, p, OrderedBits(cl, n), 0, 3 * n);
    forall k | 0 <= k < BL_CODES && Field(k) < n
      ensures FieldAt(S, p, Field(k)) == cl[k]
    {
      FieldRead(S, p, cl, n, k);
    }
  }

  lemma FieldRead(S: seq<bool>, p: nat, cl: seq<nat>, n: nat, k: nat)
    requires |cl| == BL_CODES && n <= BL_CODES && k < BL_CODES && Field(k) < n && cl[k] < 8 && At(S, p, OrderedBits(cl, n))
    ensures p + 3 * n <= |S| && FieldAt(S, p, Field(k)) == cl[k]
  {
    hide *;
    var i := Field(k);
    OrderedField(k);
    SentField(cl, n, i);
    SliceAt(S, p, OrderedBits(cl, n), 0, 3 * n);
    SliceAt(S, p, OrderedBits(cl, n), 3 * i, 3 * i + 3);
    FieldIs(S, p, i, cl[k]);
  }

  lemma SliceAt(S: seq<bool>, p: nat, bits: seq<bool>, i: nat, j: nat)
    requires At(S, p, bits) && i <= j <= |bits|
    ensures p + j <= |S| && S[p + i..p + j] == bits[i..j]
  {
    var s, t := S[p + i..p + j], bits[i..j];
    forall k | 0 <= k < |t|
      ensures s[k] == t[k]
    {
      assert s[k] == S[p..p + |bits|][i + k];
    }
  }

  lemma FieldIs(S: seq<bool>, p: nat, i: nat, v: nat)
    requires v < 8 && p + 3 * i + 3 <= |S| && S[p + 3 * i..p + 3 * i + 3] == ToBits(v, 3)
    ensures FieldAt(S, p, i) == v
  {
    Pow2Values();
    ValToBits(v, 3);
    hide ToBits, Val, Pow2;
  }

  /** The three counts that start a dynamic block. */
  ghost function CountBits(nl: nat, nd: nat, nb: nat): (s: seq<bool>)
    ensures |s| == 14
  {
    ToBits(Less(nl, 257), 5) + ToBits(Less(nd, 1), 5) + ToBits(Less(nb, 4), 4)
  }

  lemma CountsRead(S: seq<bool>, p: nat, nl: nat, nd: nat, nb: nat)
    requires 257 <= nl < 257 + 32 && 1 <= nd < 33 && 4 <= nb < 20 && At(S, p, CountBits(nl, nd, nb))
    ensures p + 14 <= |S| && 257 + Val(S[p..p + 5]) == nl && 1 + Val(S[p + 5..p + 10]) == nd && 4 + Val(S[p + 10..p + 14]) == nb
  {
    hide *;
    var a, b, c := ToBits(nl - 257, 5), ToBits(nd - 1, 5), ToBits(nb - 4, 4);
    CountsAre(nl, nd, nb);
    AtConcat(S, p, a + b, c);
    AtConcat(S, p, a, b);
    Pow2Values();
    ValAt(S, p, nl - 257, 5);
    ValAt(S, p + 5, nd - 1, 5);
    ValAt(S, p + 10, nb - 4, 4);
  }

  lemma CountsAre(nl: nat, nd: nat, nb: nat)
    requires 257 <= nl && 1 <= nd && 4 <= nb
    ensures CountBits(nl, nd, nb) == ToBits(nl - 257, 5) + ToBits(nd - 1, 5) + ToBits(nb - 4, 4)
  {}

  lemma ValAt(S: seq<bool>, q: nat, v: nat, n: nat)
    requires v < Pow2(n) && At(S, q, ToBits(v, n))
    ensures q + n <= |S| && Val(S[q..q + n]) == v
  {
    ValToBits(v, n);
    ModSmall(v, Pow2(n));
  }

  /** Both codes, as send_all_trees sends them. */
  ghost function TreesBits(ll: seq<nat>, dl: seq<nat>, cl: seq<nat>, nb: nat): (s: seq<bool>)
    requires |cl| == BL_CODES && nb <= BL_CODES && AllSendable(cl, Runs(ll)) && AllSendable(cl, Runs(dl))
  {
    CountBits(|ll|, |dl|, nb) + OrderedBits(cl, nb)
    + (SymsBits(cl, Runs(ll), |Runs(ll)|) + SymsBits(cl, Runs(dl), |Runs(dl)|))
  }

  /** What makes a dynamic block well formed. */
  ghost predicate DynamicOk(ll: seq<nat>, dl: seq<nat>, cl: seq<nat>, nb: nat) {
    257 <= |ll| <= 286 && 1 <= |dl| <= 30 && |cl| == BL_CODES && 4 <= nb <= BL_CODES
    && (forall i :: 0 <= i < |ll| ==> ll[i] <= MAX_BITS) && (forall i :: 0 <= i < |dl| ==> dl[i] <= MAX_BITS)
    && (forall i :: 0 <= i < BL_CODES ==> cl[i] < 8) && (forall i :: nb <= i < BL_CODES ==> cl[Ordered(i)] == 0)
    && Complete(ll) && Complete(dl) && Complete(cl) && ll[END_OF_BLOCK] > 0
    && AllSendable(cl, Runs(ll)) && AllSendable(cl, Runs(dl))
  }

  lemma CompleteUsable(lens: seq<nat>)
    requires Complete(lens) && forall i :: 0 <= i < |lens| ==> lens[i] <= MAX_BITS
    ensures Usable(lens) && Tokens.Code(lens)
  {}

  lemma DynamicFacts(ll: seq<nat>, dl: seq<nat>, cl: seq<nat>, nb: nat)
    requires DynamicOk(ll, dl, cl, nb)
    ensures 257 <= |ll| <= 286 && 1 <= |dl| <= 30 && |cl| == BL_CODES == 19 && 4 <= nb <= BL_CODES
    ensures END_OF_BLOCK < |ll| && ll[END_OF_BLOCK] > 0 && AllSendable(cl, Runs(ll)) && AllSendable(cl, Runs(dl))
    ensures forall i :: 0 <= i < BL_CODES ==> cl[i] < 8
    ensures OnlyFirst(cl, nb) == cl
    ensures Usable(ll) && Usable(dl) && Usable(cl) && Tokens.Code(ll) && Tokens.Code(dl) && Tokens.Code(cl)
    ensures forall i :: 0 <= i < |ll| ==> ll[i] <= MAX_BITS
    ensures forall i :: 0 <= i < |dl| ==> dl[i] <= MAX_BITS
  {
    hide AllSendable, Complete, Usable, Tokens.Code, OnlyFirst;
    CompleteUsable(ll);
    CompleteUsable(dl);
    CompleteUsable(cl);
    OnlyFirstIsAll(cl, nb);
  }

  lemma DynamicRead(S: seq<bool>, p: nat, last: bool, ll: seq<nat>, dl: seq<nat>, cl: seq<nat>, nb: nat,
                    toks: seq<Token>, out: seq<byte>)
    requires DynamicOk(ll, dl, cl, nb) && AllEncodable(ll, dl, toks) && Expands(out, toks, |toks|)
    requires END_OF_BLOCK < |ll|
    requires At(S, p, KindBits(DYN_TREES, last) + TreesBits(ll, dl, cl, nb) + BlockBits(ll, dl, toks))
    ensures ReadBlock(S, p, out)
            == Some((last, Expand(out, toks, |toks|), p + 3 + |TreesBits(ll, dl, cl, nb)| + |BlockBits(ll, dl, toks)|))
  {
    hide *;
    DynamicFacts(ll, dl, cl, nb);
    var h, t, b := KindBits(DYN_TREES, last), TreesBits(ll, dl, cl, nb), BlockBits(ll, dl, toks);
    AtConcat(S, p, h + t, b);
    AtConcat(S, p, h, t);
    KindIs();
    HeaderRead(S, p, DYN_TREES, last);
    BlockRead(ll, dl, S, p + 3 + |t|, toks, out);
    TreesRead(S, p + 3, ll, dl, cl, nb, out);
    DynamicIs(S, p, out);
  }

  lemma KindIs()
    ensures DYN_TREES == 2
  {}

  lemma DynamicIs(S: seq<bool>, p: nat, out: seq<byte>)
    requires p + 3 <= |S| && Val(S[p + 1..p + 3]) == 2
    ensures var r := ReadDynamic(S, p + 3, out);
            ReadBlock(S, p, out) == if r.Some? then Some((S[p], r.value.0, r.value.1)) else None
  {
    hide Val, ReadDynamic;
  }

  lemma TreesRead(S: seq<bool>, p: nat, ll: seq<nat>, dl: seq<nat>, cl: seq<nat>, nb: nat, out: seq<byte>)
    requires DynamicOk(ll, dl, cl, nb) && At(S, p, TreesBits(ll, dl, cl, nb))
    ensures ReadDynamic(S, p, out) == ReadItems(ll, dl, S, p + |TreesBits(ll, dl, cl, nb)|, out)
  {
    hide *;
    DynamicFacts(ll, dl, cl, nb);
    TreesParts(ll, dl, cl, nb);
    var a, b := CountBits(|ll|, |dl|, nb), OrderedBits(cl, nb);
    var c := SymsBits(cl, Runs(ll), |Runs(ll)|) + SymsBits(cl, Runs(dl), |Runs(dl)|);
    AtConcat(S, p, a + b, c);
    AtConcat(S, p, a, b);
    CountsRead(S, p, |ll|, |dl|, nb);
    OrderedRead(S, p + 14, cl, nb);
    LengthsRead(cl, S, p + 14 + 3 * nb, ll, dl);
    DynamicOpens(S, p, out, |ll|, |dl|, nb);
    CodedOpens(cl, S, p + 14 + 3 * nb, ll, dl, out);
  }

  lemma TreesParts(ll: seq<nat>, dl: seq<nat>, cl: seq<nat>, nb: nat)
    requires |cl| == BL_CODES && nb <= BL_CODES && AllSendable(cl, Runs(ll)) && AllSendable(cl, Runs(dl))
    ensures TreesBits(ll, dl, cl, nb) == CountBits(|ll|, |dl|, nb) + OrderedBits(cl, nb)
              + (SymsBits(cl, Runs(ll), |Runs(ll)|) + SymsBits(cl, Runs(dl), |Runs(dl)|))
    ensures |CountBits(|ll|, |dl|, nb)| == 14 && |OrderedBits(cl, nb)| == 3 * nb
  {
    hide CountBits, OrderedBits, SymsBits, Runs, AllSendable;
  }

  lemma DynamicOpens(S: seq<bool>, p: nat, out: seq<byte>, nl: nat, nd: nat, nb: nat)
    requires p + 14 <= |S| && 257 + Val(S[p..p + 5]) == nl && 1 + Val(S[p + 5..p + 10]) == nd && 4 + Val(S[p + 10..p + 14]) == nb
    requires nl <= 286 && nd <= 30 && nb <= 19 && p + 14 + 3 * nb <= |S|
    ensures ReadDynamic(S, p, out) == ReadCoded(ReadOrdered(S, p + 14, nb), S, p + 14 + 3 * nb, nl, nd, out)
  {
    hide Val, ReadCoded, ReadOrdered;
  }

  lemma CodedOpens(cl: seq<nat>, S: seq<bool>, p: nat, ll: seq<nat>, dl: seq<nat>, out: seq<byte>)
    requires Usable(cl) && Usable(ll) && Usable(dl)
    requires ReadLengths(cl, S, p, |ll| + |dl|, []).Some? && ReadLengths(cl, S, p, |ll| + |dl|, []).value.0 == ll + dl
    ensures ReadCoded(cl, S, p, |ll|, |dl|, out) == ReadItems(ll, dl, S, ReadLengths(cl, S, p, |ll| + |dl|, []).value.1, out)
  {
    hide Usable, ReadLengths, ReadItems;
    assert (ll + dl)[..|ll|] == ll && (ll + dl)[|ll|..] == dl;
  }

  // ---- Codes with unused symbols left off

  lemma {:induction false} PaddedCount(lens: seq<nat>, z: nat, n: nat, k: nat)
    requires n <= |lens| + z && k >= 1
    ensures CountTo(lens + Repeat(0, z), n, k) == CountTo(lens, if n <= |lens| then n else |lens|, k)
  {
    if n > 0 {
      PaddedCount(lens, z, n - 1, k);
    }
  }

  lemma {:induction false} PaddedNext(lens: seq<nat>, z: nat, k: nat)
    ensures NextCode(lens + Repeat(0, z), k) == NextCode(lens, k)
  {
    if k > 1 {
      PaddedNext(lens, z, k - 1);
      PaddedCount(lens, z, |lens| + z, k - 1);
    }
  }

  lemma {:induction false} PaddedFilled(lens: seq<nat>, z: nat, k: nat)
    requires k <= M
    ensures Filled(lens + Repeat(0, z), k) == Filled(lens, k)
  {
    if k > 0 {
      PaddedFilled(lens, z, k - 1);
      PaddedCount(lens, z, |lens| + z, k);
    }
  }

  /** Symbols without a code after the last one make no difference. */
  lemma PaddedCode(lens: seq<nat>, z: nat)
    ensures Complete(lens + Repeat(0, z)) <==> Complete(lens)
    ensures forall i :: 0 <= i < |lens| && lens[i] > 0 ==> Codeword(lens + Repeat(0, z), i) == Codeword(lens, i)
  {
    PaddedFilled(lens, z, M);
    forall i | 0 <= i < |lens| && lens[i] > 0
      ensures Codeword(lens + Repeat(0, z), i) == Codeword(lens, i)
    {
      PaddedNext(lens, z, lens[i]);
      PaddedCount(lens, z, i, lens[i]);
    }
    hide Filled;
  }

  // ---- Streams of blocks

  /** Whatever follows S, reading it from the start gets to its end with `out` decoded so far. */
  ghost predicate Reads(S: seq<bool>, out: seq<byte>) {
    forall T :: S <= T ==> ReadStream(T, 0, []) == ReadStream(T, |S|, out)
  }

  lemma NothingRead()
    ensures Reads([], [])
  {}

  lemma BlockRead1(S: seq<bool>, S': seq<bool>, out: seq<byte>, out': seq<byte>)
    requires Reads(S, out) && BlockAt(S', |S|, false, out, out') && S <= S'
    ensures Reads(S', out')
  {
    hide ReadBlock;
    forall T | S' <= T
      ensures ReadStream(T, 0, []) == ReadStream(T, |S'|, out')
    {
      assert S <= T;
      assert ReadBlock(T, |S|, out) == Some((false, out', |S'|));
    }
  }

  /** The last block ends the stream. */
  lemma LastBlockRead(S: seq<bool>, S': seq<bool>, T: seq<bool>, out: seq<byte>, out': seq<byte>)
    requires Reads(S, out) && BlockAt(S', |S|, true, out, out') && S <= S' <= T
    ensures Inflated(T, 0) == Some((out', |S'|))
  {
    hide ReadBlock;
    assert S <= T;
    assert ReadBlock(T, |S|, out) == Some((true, out', |S'|));
  }

  // ---- Blocks at the end of what was sent

  lemma StoredBlockAt(S: seq<bool>, last: bool, out: seq<byte>, buf: seq<byte>)
    requires |buf| < 65536
    ensures BlockAt(S + StoredBits(|S|, last, buf), |S|, last, out, out + buf)
  {
    hide ReadBlock, StoredBits, At;
    forall T | S + StoredBits(|S|, last, buf) <= T
      ensures ReadBlock(T, |S|, out) == Some((last, out + buf, |S + StoredBits(|S|, last, buf)|))
    {
      AtEnd(S, StoredBits(|S|, last, buf), T);
      StoredRead(T, |S|, last, out, buf);
    }
  }

  lemma FixedBlockAt(S: seq<bool>, last: bool, toks: seq<Token>, out: seq<byte>)
    requires Tokens.Code(FixedLit()) && Tokens.Code(FixedDist()) && AllEncodable(FixedLit(), FixedDist(), toks)
    requires Expands(out, toks, |toks|) && END_OF_BLOCK < |FixedLit()|
    ensures BlockAt(S + (KindBits(STATIC_TREES, last) + BlockBits(FixedLit(), FixedDist(), toks)), |S|, last, out,
                    Expand(out, toks, |toks|))
  {
    hide ReadBlock, KindBits, BlockBits, At, Tokens.Code, AllEncodable, Expands, Expand, FixedLit, FixedDist;
    var bits := KindBits(STATIC_TREES, last) + BlockBits(FixedLit(), FixedDist(), toks);
    forall T | S + bits <= T
      ensures ReadBlock(T, |S|, out) == Some((last, Expand(out, toks, |toks|), |S + bits|))
    {
      AtEnd(S, bits, T);
      FixedRead(T, |S|, last, toks, out);
    }
  }

  lemma DynamicBlockAt(S: seq<bool>, last: bool, ll: seq<nat>, dl: seq<nat>, cl: seq<nat>, nb: nat, toks: seq<Token>, out: seq<byte>)
    requires DynamicOk(ll, dl, cl, nb) && AllEncodable(ll, dl, toks) && Expands(out, toks, |toks|) && END_OF_BLOCK < |ll|
    requires |cl| == BL_CODES && nb <= BL_CODES && AllSendable(cl, Runs(ll)) && AllSendable(cl, Runs(dl))
    ensures BlockAt(S + (KindBits(DYN_TREES, last) + TreesBits(ll, dl, cl, nb) + BlockBits(ll, dl, toks)), |S|, last, out,
                    Expand(out, toks, |toks|))
  {
    hide ReadBlock, KindBits, BlockBits, TreesBits, At, DynamicOk, AllEncodable, AllSendable, Runs, Expands, Expand;
    var bits := KindBits(DYN_TREES, last) + TreesBits(ll, dl, cl, nb) + BlockBits(ll, dl, toks);
    forall T | S + bits <= T
      ensures ReadBlock(T, |S|, out) == Some((last, Expand(out, toks, |toks|), |S + bits|))
    {
      AtEnd(S, bits, T);
      DynamicRead(T, |S|, last, ll, dl, cl, nb, toks, out);
    }
  }
}
