/** The compressor and the decompressor together: what deflate writes, inflate reads back. */
module RoundTrips {
  import opened Options
  import opened Bits
  import opened BitReading
  import opened PrefixCodes
  import opened Rfc1951
  import opened OutputWindows
  import opened InflatingCodes
  import opened Inflating
  import opened Lz77
  import opened Tokens
  import opened Parsing
  import opened LazyParsing
  import opened BlockOutput
  import opened Deflating

  /** The compressed form of the input, however the input arrives. `end` is where its last block ends; `tokens` are the
      literals and matches it was parsed into, and `trace` the searches for them. */
  method Compress(input: seq<byte>, portions: seq<nat>)
    returns (packed: seq<byte>, ghost end: nat, ghost tokens: seq<Token>, ghost trace: seq<Search>)
    ensures (end + 7) / 8 == |packed|
    ensures forall T :: BytesToBits(packed) <= T ==> Inflated(T, 0) == Some((input, end))
    ensures Expand([], tokens, |tokens|) == input && forall k :: 0 <= k < |tokens| ==> InReach(tokens, k)
    ensures Lazily(input, tokens, trace) && |trace| == |tokens|
  {
    hide Inflated, Expand, InReach, BytesToBits, Lazily, BlockWriter.Ready, BlockWriter.Open;
    var bw := CtInit();
    var d := new Deflater(input, portions, bw);
    d.LmInit();
    var bytes;
    bytes, end := d.Deflate();
    packed, tokens, trace := bw.w.out, bw.tallied, d.trace;
    SizeOf(packed, end);
  }

  lemma SizeOf(packed: seq<byte>, end: nat)
    requires |BytesToBits(packed)| == Aligned(end)
    ensures (end + 7) / 8 == |packed|
  {}

  /** Decompress what starts the input; inptr is the first byte not used. */
  method Decompress(input: seq<byte>) returns (r: Outcome, output: seq<byte>, inptr: nat)
    ensures var spec := Inflated(BytesToBits(input), 0);
            spec.Some? && spec.value.1 + M <= 8 * |input|
            ==> r == Returned(0) && output == spec.value.0 && inptr == (spec.value.1 + 7) / 8
  {
    hide ReadStream, BytesToBits;
    var rd := new BitReader(input, 0);
    var win := new OutputWindow();
    r := Inflate(rd, win);
    output, inptr := win.written, rd.inptr;
  }

  lemma TrailerFits(packed: seq<byte>, trailer: seq<byte>, end: nat)
    requires (end + 7) / 8 == |packed| && |trailer| >= 2
    ensures BytesToBits(packed) <= BytesToBits(packed + trailer) && end + M <= 8 * |packed + trailer|
  {
    BytesConcat(packed, trailer);
    hide BytesToBits;
  }

  /** For every input, however it is read, and whatever follows the compressed data (at least two bytes of it):
      decompressing succeeds, gives the input back, and stops at the first byte after the compressed data. */
  method RoundTrip(input: seq<byte>, portions: seq<nat>, trailer: seq<byte>)
    returns (packed: seq<byte>, r: Outcome, output: seq<byte>, inptr: nat)
    requires |trailer| >= 2
    ensures r == Returned(0) && output == input && inptr == |packed|
  {
    hide Inflated, BytesToBits;
    ghost var end, tokens, trace;
    packed, end, tokens, trace := Compress(input, portions);
    TrailerFits(packed, trailer, end);
    r, output, inptr := Decompress(packed + trailer);
  }
}
