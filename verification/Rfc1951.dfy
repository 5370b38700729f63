/** The compressed data format of RFC 1951, as a function from bits to bytes: what a decoder must do. */
module Rfc1951 {
  import opened Options
  import opened Bits
  import opened PrefixCodes
  import opened Lz77

  // ---- Section 3.2.5: length and distance codes

  const LENGTH_BASE: seq<nat> :=
    [3, 4, 5, 6, 7, 8, 9, 10, 11, 13, 15, 17, 19, 23, 27, 31, 35, 43, 51, 59, 67, 83, 99, 115, 131, 163, 195, 227, 258]
  const LENGTH_EXTRA: seq<nat> :=
    [0, 0, 0, 0, 0, 0, 0, 0, 1, 1, 1, 1, 2, 2, 2, 2, 3, 3, 3, 3, 4, 4, 4, 4, 5, 5, 5, 5, 0]
  const DIST_BASE: seq<nat> :=
    [1, 2, 3, 4, 5, 7, 9, 13, 17, 25, 33, 49, 65, 97, 129, 193, 257, 385, 513, 769, 1025, 1537, 2049, 3073,
     4097, 6145, 8193, 12289, 16385, 24577]
  const DIST_EXTRA: seq<nat> :=
    [0, 0, 0, 0, 1, 1, 2, 2, 3, 3, 4, 4, 5, 5, 6, 6, 7, 7, 8, 8, 9, 9, 10, 10, 11, 11, 12, 12, 13, 13]

  const END_OF_BLOCK: nat := 256

  // ---- Section 3.2.6: the fixed codes

  function FixedLength(i: nat): nat { if i < 144 then 8 else if i < 256 then 9 else if i < 280 then 7 else 8 }

  function FixedLit(): (lens: seq<nat>)
    ensures |lens| == 288 && forall i :: 0 <= i < 288 ==> lens[i] == FixedLength(i)
  {
    seq(288, i requires 0 <= i < 288 => FixedLength(i))
  }

  function FixedDist(): (lens: seq<nat>)
    ensures |lens| == 30 && forall i :: 0 <= i < 30 ==> lens[i] == 5
  {
    seq(30, i => 5)
  }

  // ---- Reading

  function ReadBits(S: seq<bool>, p: nat, n: nat): (r: Option<(nat, nat)>)
    ensures r.Some? ==> r.value.1 == p + n <= |S|
  {
    if p + n <= |S| then Some((Val(S[p..p + n]), p + n)) else None
  }

  /** One element of a compressed block. */
  datatype Item = Byte(c: byte) | EndOfBlock | Copy(len: nat, dist: nat)

  ghost function ReadDistance(dl: seq<nat>, S: seq<bool>, p: nat, len: nat): (r: Option<(Item, nat)>)
    ensures r.Some? ==> p < r.value.1 <= |S|
  {
    match Symbol(dl, S, p)
    case None => None
    case Some((ds, q)) =>
      if ds >= |DIST_BASE| then None
      else
        match ReadBits(S, q, DIST_EXTRA[ds])
        case None => None
        case Some((y, q')) => Some((Copy(len, DIST_BASE[ds] + y), q'))
  }

  ghost function ReadItem(ll: seq<nat>, dl: seq<nat>, S: seq<bool>, p: nat): (r: Option<(Item, nat)>)
    ensures r.Some? ==> p < r.value.1 <= |S|
  {
    match Symbol(ll, S, p)
    case None => None
    case Some((sym, q)) =>
      if sym < END_OF_BLOCK then Some((Byte(sym), q))
      else if sym == END_OF_BLOCK then Some((EndOfBlock, q))
      else if sym - 257 >= |LENGTH_BASE| then None
      else
        match ReadBits(S, q, LENGTH_EXTRA[sym - 257])
        case None => None
        case Some((x, q')) => ReadDistance(dl, S, q', LENGTH_BASE[sym - 257] + x)
  }

  /** Section 3.2.3: elements up to the end-of-block code, appended to what was decoded before. */
  ghost function ReadItems(ll: seq<nat>, dl: seq<nat>, S: seq<bool>, p: nat, out: seq<byte>): (r: Option<(seq<byte>, nat)>)
    ensures r.Some? ==> p < r.value.1 <= |S|
    decreases |S| - p
  {
    match ReadItem(ll, dl, S, p)
    case None => None
    case Some((Byte(c), q)) => ReadItems(ll, dl, S, q, out + [c])
    case Some((EndOfBlock, q)) => Some((out, q))
    case Some((Copy(len, dist), q)) =>
      if 1 <= dist <= |out| && dist <= WSIZE then ReadItems(ll, dl, S, q, CopyBytes(out, dist, len)) else None
  }

  /** Section 3.2.4: a stored block, at the next byte boundary. */
  function Aligned(p: nat): nat { (p + 7) / 8 * 8 }

  function ReadBytes(S: seq<bool>, p: nat, n: nat): (r: seq<byte>)
    requires p + 8 * n <= |S|
    ensures |r| == n
    decreases n
  {
    if n == 0 then [] else [ByteOf(S[p..p + 8])] + ReadBytes(S, p + 8, n - 1)
  }

  function ByteOf(s: seq<bool>): byte
    requires |s| == 8
  {
    ValBound(s);
    Pow2Values();
    Val(s)
  }

  function ReadStored(S: seq<bool>, p: nat, out: seq<byte>): (r: Option<(seq<byte>, nat)>)
    ensures r.Some? ==> p < r.value.1 <= |S|
  {
    var a := Aligned(p);
    match ReadBits(S, a, 16)
    case None => None
    case Some((len, b)) =>
      match ReadBits(S, b, 16)
      case None => None
      case Some((nlen, c)) =>
        if len + nlen != 65535 || c + 8 * len > |S| then None
        else Some((out + ReadBytes(S, c, len), c + 8 * len))
  }

  /** A code that may be used to decode: complete, or without codes, or a single one of one bit. */
  ghost predicate Usable(lens: seq<nat>) {
    LensOk(lens) && !Oversubscribed(lens)
    && (Complete(lens) || (forall i :: 0 <= i < |lens| ==> lens[i] <= 1))
  }

  // ---- Section 3.2.7: dynamic codes

  function Repeat(x: nat, n: nat): (s: seq<nat>)
    ensures |s| == n && forall i :: 0 <= i < n ==> s[i] == x
  {
    seq(n, _ => x)
  }

  /** What a symbol of the code length code stands for: the value repeated, the number of extra bits and
      the least repeat count. */
  function Repeated(sym: nat, acc: seq<nat>): Option<(nat, nat, nat)> {
    if sym < 16 then Some((sym, 0, 1))
    else if sym == 16 then (if acc == [] then None else Some((acc[|acc| - 1], 2, 3)))
    else if sym == 17 then Some((0, 3, 3))
    else if sym == 18 then Some((0, 7, 11))
    else None
  }

  ghost function ReadLengths(cl: seq<nat>, S: seq<bool>, p: nat, n: nat, acc: seq<nat>): (r: Option<(seq<nat>, nat)>)
    ensures r.Some? ==> p <= r.value.1 <= |S| && |r.value.0| == n
    decreases n - |acc|
  {
    if |acc| == n then (if p <= |S| then Some((acc, p)) else None)
    else if |acc| > n then None
    else
      match Symbol(cl, S, p)
      case None => None
      case Some((sym, q)) =>
        match Repeated(sym, acc)
        case None => None
        case Some((x, bits, least)) =>
          match ReadBits(S, q, bits)
          case None => None
          case Some((more, q')) => ReadLengths(cl, S, q', n, acc + Repeat(x, least + more))
  }

  /** The place of symbol k among the lengths of the code length code: 16, 17, 18 and 0 are first, then 8 and, in turn, the
      next one below and the next one above. */
  function Field(k: nat): nat {
    if k >= 16 then k - 16 else if k == 0 then 3 else if k >= 8 then 2 * k - 12 else 19 - 2 * k
  }

  /** Field i, of 3 bits. */
  function FieldAt(S: seq<bool>, p: nat, i: nat): nat
    requires p + 3 * i + 3 <= |S|
  {
    Val(S[p + 3 * i..p + 3 * i + 3])
  }

  /** The n lengths of the code length code that are sent; the others are 0. */
  function ReadOrdered(S: seq<bool>, p: nat, n: nat): (cl: seq<nat>)
    requires n <= 19 && p + 3 * n <= |S|
    ensures |cl| == 19 && forall k :: 0 <= k < 19 ==> cl[k] == if Field(k) < n then FieldAt(S, p, Field(k)) else 0
  {
    seq(19, k requires 0 <= k < 19 => if Field(k) < n then FieldAt(S, p, Field(k)) else 0)
  }

  /** The lengths of both codes, coded by cl, and the elements of the block. */
  ghost function ReadCoded(cl: seq<nat>, S: seq<bool>, p: nat, nl: nat, nd: nat, out: seq<byte>): (r: Option<(seq<byte>, nat)>)
    ensures r.Some? ==> p < r.value.1 <= |S|
  {
    if !Usable(cl) then None
    else
      match ReadLengths(cl, S, p, nl + nd, [])
      case None => None
      case Some((lens, q)) =>
        if !Usable(lens[..nl]) || !Usable(lens[nl..]) then None
        else ReadItems(lens[..nl], lens[nl..], S, q, out)
  }

  ghost function ReadDynamic(S: seq<bool>, p: nat, out: seq<byte>): (r: Option<(seq<byte>, nat)>)
    ensures r.Some? ==> p < r.value.1 <= |S|
  {
    if p + 14 > |S| then None
    else
      var nl := 257 + Val(S[p..p + 5]);
      var nd := 1 + Val(S[p + 5..p + 10]);
      var nb := 4 + Val(S[p + 10..p + 14]);
      if nl > 286 || nd > 30 || nb > 19 || p + 14 + 3 * nb > |S| then None
      else ReadCoded(ReadOrdered(S, p + 14, nb), S, p + 14 + 3 * nb, nl, nd, out)
  }

  ghost function ReadBlock(S: seq<bool>, p: nat, out: seq<byte>): (r: Option<(bool, seq<byte>, nat)>)
    ensures r.Some? ==> p < r.value.2 <= |S|
  {
    if p + 3 > |S| then None
    else
      var last, kind := S[p], Val(S[p + 1..p + 3]);
      var r := if kind == 0 then ReadStored(S, p + 3, out)
               else if kind == 1 then ReadItems(FixedLit(), FixedDist(), S, p + 3, out)
               else if kind == 2 then ReadDynamic(S, p + 3, out)
               else None;
      match r
      case None => None
      case Some((out', q)) => Some((last, out', q))
  }

  /** Blocks up to the one marked as last. */
  ghost function ReadStream(S: seq<bool>, p: nat, out: seq<byte>): (r: Option<(seq<byte>, nat)>)
    ensures r.Some? ==> p < r.value.1 <= |S|
    decreases |S| - p
  {
    match ReadBlock(S, p, out)
    case None => None
    case Some((last, out', q)) => if last then Some((out', q)) else ReadStream(S, q, out')
  }

  /** What a compressed stream at the start of S stands for, and where it ends. */
  ghost function Inflated(S: seq<bool>, p: nat): Option<(seq<byte>, nat)> {
    ReadStream(S, p, [])
  }
}
