/** The two bit buffers together: whatever fields are sent are read back, and the reader ends at the right byte. */
module BitRoundTrips {
  import opened Bits
  import opened BitWriting
  import opened BitReading

  datatype Field = Field(value: nat, length: nat)

  ghost predicate Sendable(fs: seq<Field>) {
    forall i :: 0 <= i < |fs| ==> fs[i].length <= 16 && fs[i].value < Pow2(fs[i].length)
  }

  /** The bits of the first n fields. */
  function FieldBits(fs: seq<Field>, n: nat): seq<bool>
    requires n <= |fs|
  {
    if n == 0 then [] else FieldBits(fs, n - 1) + ToBits(fs[n - 1].value, fs[n - 1].length)
  }

  lemma {:induction false} FieldPrefix(fs: seq<Field>, m: nat, n: nat)
    requires m <= n <= |fs|
    ensures FieldBits(fs, m) <= FieldBits(fs, n)
    decreases n - m
  {
    hide ToBits;
    if m < n { FieldPrefix(fs, m, n - 1); }
  }

  /** Where field n lies in a stream that starts with all of them. */
  lemma FieldAt(fs: seq<Field>, n: nat, S: seq<bool>)
    requires n < |fs| && Sendable(fs) && FieldBits(fs, |fs|) <= S
    ensures var p := |FieldBits(fs, n)|;
            p + fs[n].length == |FieldBits(fs, n + 1)| <= |S|
            && Val(S[p..p + fs[n].length]) == fs[n].value
  {
    var p, f := |FieldBits(fs, n)|, fs[n];
    FieldPrefix(fs, n + 1, |fs|);
    ValToBits(f.value, f.length);
    ModSmall(f.value, Pow2(f.length));
    hide ToBits, Val, Pow2;
    var b := FieldBits(fs, n + 1);
    assert S[..|b|] == b;
    assert S[p..p + f.length] == S[..|b|][p..] == ToBits(f.value, f.length);
  }

  method SendFields(fs: seq<Field>) returns (out: seq<byte>)
    requires Sendable(fs)
    ensures BytesToBits(out) == FieldBits(fs, |fs|) + Zeros(Padding(|FieldBits(fs, |fs|)|))
  {
    hide ToBits, BytesToBits, Pow2, Zeros, Padding;
    var w := new BitWriter();
    var i: nat := 0;
    while i < |fs|
      invariant 0 <= i <= |fs| && w.Valid() && w.Sent() == FieldBits(fs, i)
    {
      w.SendBits(fs[i].value, fs[i].length);
      i := i + 1;
    }
    w.Windup();
    out := w.out;
  }

  /** Send any fields of up to 16 bits, close the stream, and read them back; whatever bytes follow, the reader is
      left at the first of them. */
  method FieldsRoundTrip(fs: seq<Field>, trailer: seq<byte>) returns (out: seq<byte>, values: seq<nat>, inptr: nat)
    requires Sendable(fs)
    ensures |values| == |fs| && (forall i :: 0 <= i < |fs| ==> values[i] == fs[i].value) && inptr == |out|
  {
    hide ToBits, BytesToBits, Pow2, Val, Sendable;
    out := SendFields(fs);
    var rd := new BitReader(out + trailer, 0);
    StartsWith(fs, out, trailer);
    values := [];
    var i: nat := 0;
    while i < |fs|
      invariant 0 <= i <= |fs| == |fs| && |values| == i && rd.Valid() && rd.Pos() == |FieldBits(fs, i)|
      invariant rd.input == out + trailer && forall j :: 0 <= j < i ==> values[j] == fs[j].value
    {
      FieldAt(fs, i, rd.Stream());
      SendableAt(fs, i);
      var ok := rd.NeedBits(fs[i].length);
      values := values + [rd.Peek(fs[i].length)];
      rd.DumpBits(fs[i].length);
      i := i + 1;
    }
    rd.UndoLookahead();
    inptr := rd.inptr;
    BytesFor(out, |FieldBits(fs, |fs|)|);
  }

  lemma SendableAt(fs: seq<Field>, i: nat)
    requires Sendable(fs) && i < |fs|
    ensures fs[i].length <= 16
  {}

  lemma StartsWith(fs: seq<Field>, out: seq<byte>, trailer: seq<byte>)
    requires BytesToBits(out) == FieldBits(fs, |fs|) + Zeros(Padding(|FieldBits(fs, |fs|)|))
    ensures FieldBits(fs, |fs|) <= BytesToBits(out + trailer)
  {
    BytesConcat(out, trailer);
    hide BytesToBits, FieldBits;
  }

  lemma BytesFor(out: seq<byte>, n: nat)
    requires |BytesToBits(out)| == n + Padding(n)
    ensures (n + 7) / 8 == |out|
  {}
}
