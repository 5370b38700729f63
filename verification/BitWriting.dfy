/** The compressor's bit buffer: bi_buf, bi_valid and the routines that fill and drain them. */
module BitWriting {
  import opened Bits

  /** A 16-bit word goes out low byte first, which is its bit order. */
  lemma ShortBits(w: nat)
    requires w < 65536
    ensures w / 256 < 256
    ensures ToBits(w % 256, 8) + ToBits(w / 256, 8) == ToBits(w, 16)
  {
    Pow2Values();
    ToBitsSplit(w, 8, 8);
    ShrDiv(w, 8);
    ToBitsMod(w, 8);
  }

  lemma ShortBytes(out: seq<byte>, w: nat)
    requires w < 65536
    ensures w / 256 < 256 && w / 256 % 256 == w / 256 && w % 256 % 256 == w % 256
    ensures BytesToBits(out + [w % 256] + [w / 256]) == BytesToBits(out) + ToBits(w, 16)
  {
    ShortBits(w);
    BytesAppend(out, w % 256);
    BytesAppend(out + [w % 256], w / 256);
    Assoc(BytesToBits(out), ToBits(w % 256, 8), ToBits(w / 256, 8));
    hide *;
  }

  /** The two cases of sending: the value fits above the k buffered bits, or 16 bits go out first. */
  lemma SendFits(sent: seq<bool>, buf: nat, k: nat, value: nat, length: nat)
    requires buf < Pow2(k) && value < Pow2(length)
    ensures var t := Or(buf, Shl(value, k));
            t < Pow2(k + length)
            && sent + ToBits(t, k + length) == sent + ToBits(buf, k) + ToBits(value, length)
  {
    OrDisjoint(buf, value, k);
    AppendBits(buf, k, value, length);
    FitBits(buf, k, value, length);
    Assoc(sent, ToBits(buf, k), ToBits(value, length));
  }

  lemma SendSpills(sent: seq<bool>, buf: nat, k: nat, value: nat, length: nat)
    requires k <= 16 && k + length >= 16 && length <= 16
    requires buf < Pow2(k) && value < Pow2(length)
    ensures Shr(value, 16 - k) < Pow2(k + length - 16)
    ensures var w := Or(buf, Shl(value, k)) % 65536;
            sent + ToBits(w, 16) + ToBits(Shr(value, 16 - k), k + length - 16)
            == sent + ToBits(buf, k) + ToBits(value, length)
  {
    hide *;
    var t := buf + Shl(value, k);
    var w, v := t % 65536, Shr(value, 16 - k);
    OrDisjoint(buf, value, k);
    Spill(buf, k, value, length);
    SplitWord(t, k + length - 16);
    AppendBits(buf, k, value, length);
    Assoc(sent, ToBits(buf, k), ToBits(value, length));
    Assoc(sent, ToBits(w, 16), ToBits(v, k + length - 16));
  }

  lemma SplitWord(t: nat, n: nat)
    ensures ToBits(t, 16 + n) == ToBits(t % 65536, 16) + ToBits(Shr(t, 16), n)
  {
    Pow2Values();
    ToBitsSplit(t, 16, n);
    ToBitsMod(t, 16);
  }

  /** Bits above a 16-bit buffer are the bits of `value` that did not fit. */
  lemma Spill(buf: nat, k: nat, value: nat, length: nat)
    requires k <= 16 && k + length >= 16 && length <= 16
    requires buf < Pow2(k) && value < Pow2(length)
    ensures Shr(buf + Shl(value, k), 16) == Shr(value, 16 - k)
    ensures Shr(value, 16 - k) < Pow2(k + length - 16)
  {
    hide *;
    var t := buf + Shl(value, k);
    Pow2Add(k, 16 - k);
    ShlTimes(value, k);
    DivUnique(t, Pow2(k), value, buf);
    DivDiv(t, Pow2(k), Pow2(16 - k));
    ShrDiv(t, 16);
    ShrDiv(value, 16 - k);
    Pow2Add(16 - k, k + length - 16);
    ShrBound(value, 16 - k, k + length - 16);
  }

  lemma ShlTimes(v: nat, k: nat)
    ensures Shl(v, k) == Pow2(k) * v
  {}

  lemma ShrBound(v: nat, m: nat, n: nat)
    requires v < Pow2(m) * Pow2(n)
    ensures Shr(v, m) < Pow2(n)
  {
    var q := Shr(v, m);
    ShrDiv(v, m);
    DivMod(v, Pow2(m));
    assert Pow2(m) * q == q * Pow2(m);
    assert Pow2(m) * Pow2(n) == Pow2(n) * Pow2(m);
    if Pow2(n) <= q { MulLe(Pow2(n), q, Pow2(m)); }
  }

  class BitWriter {
    var biBuf: nat
    var biValid: int
    var out: seq<byte>

    ghost predicate Valid()
      reads this
    {
      0 <= biValid <= 16 && biBuf < Pow2(biValid)
    }

    /** Every bit sent so far, in order. */
    ghost function Sent(): (s: seq<bool>)
      reads this
      requires Valid()
    {
      BytesToBits(out) + ToBits(biBuf, biValid)
    }

    lemma Aligned()
      requires Valid() && biValid == 0
      ensures Sent() == BytesToBits(out)
    {
      hide BytesToBits;
    }

    constructor ()
      ensures Valid() && Sent() == [] && out == []
    {
      biBuf, biValid, out := 0, 0, [];
    }

    method PutByte(c: nat)
      modifies this`out
      ensures out == old(out) + [c % 256]
    {
      out := out + [c % 256];
    }

    method PutShort(w: nat)
      requires w < 65536
      modifies this`out
      ensures old(out) <= out
      ensures BytesToBits(out) == BytesToBits(old(out)) + ToBits(w, 16)
    {
      ghost var before := out;
      ShortBytes(out, w);
      PutByte(w % 256);
      PutByte(w / 256);
      assert out == before + [w % 256] + [w / 256];
    }

    method SendBits(value: nat, length: nat)
      requires Valid() && length <= 16 && value < Pow2(length)
      modifies this
      ensures Valid() && Sent() == old(Sent()) + ToBits(value, length)
      ensures old(out) <= out
    {
      hide Shl, Shr, Or, ToBits, BytesToBits;
      if biValid > 16 - length {
        SendSpills(BytesToBits(out), biBuf, biValid, value, length);
        biBuf := Or(biBuf, Shl(value, biValid)) % 65536;
        PutShort(biBuf);
        biBuf := Shr(value, 16 - biValid);
        biValid := biValid + length - 16;
      } else {
        SendFits(BytesToBits(out), biBuf, biValid, value, length);
        biBuf := Or(biBuf, Shl(value, biValid));
        biValid := biValid + length;
      }
    }

    /** Pads with zero bits up to a byte boundary. */
    method Windup()
      requires Valid()
      modifies this
      ensures Valid() && biValid == 0 && old(out) <= out
      ensures BytesToBits(out) == Sent() == old(Sent()) + Zeros(Padding(|old(Sent())|))
    {
      hide BytesToBits, ToBits, Pow2, Padding;
      WindupBits(out, biBuf, biValid);
      if biValid > 8 {
        PutShort(biBuf);
      } else if biValid > 0 {
        PutByte(biBuf);
      }
      biBuf := 0;
      biValid := 0;
      Aligned();
    }

    /** Copies a stored block, after its length and the one's complement of it if `header`. */
    method CopyBlock(buf: seq<byte>, header: bool)
      requires Valid()
      modifies this
      ensures Valid() && biValid == 0 && old(out) <= out
      ensures var padded := old(Sent()) + Zeros(Padding(|old(Sent())|));
              Sent() == (if header then padded + LengthField(|buf| % 65536) else padded) + BytesToBits(buf)
    {
      Windup();
      ghost var padded := BytesToBits(out);
      if header {
        var len := |buf| % 65536;
        PutShort(len);
        PutShort(65535 - len);
        HeaderBits(padded, len);
      }
      Aligned();
      hide *;
      CopyBytes(buf);
    }

    method CopyBytes(buf: seq<byte>)
      requires Valid() && biValid == 0
      modifies this`out
      ensures Valid() && out == old(out) + buf
      ensures Sent() == old(Sent()) + BytesToBits(buf)
    {
      var i := 0;
      while i < |buf|
        invariant 0 <= i <= |buf|
        invariant out == old(out) + buf[..i]
      {
        PutByte(buf[i]);
        i := i + 1;
      }
      assert buf[..i] == buf;
      BytesConcat(old(out), buf);
    }
  }

  /** The length of a stored block and its one's complement. */
  function LengthField(len: nat): seq<bool>
    requires len < 65536
  {
    ToBits(len, 16) + ToBits(65535 - len, 16)
  }

  lemma HeaderBits(s: seq<bool>, len: nat)
    requires len < 65536
    ensures s + ToBits(len, 16) + ToBits(65535 - len, 16) == s + LengthField(len)
  {
    hide ToBits;
  }

  lemma FitBits(buf: nat, k: nat, value: nat, length: nat)
    requires buf < Pow2(k) && value < Pow2(length)
    ensures buf + Shl(value, k) < Pow2(k + length)
  {
    Pow2Add(k, length);
    MulLt(value, Pow2(length), Pow2(k));
  }

  function Padding(n: nat): nat { (8 - n % 8) % 8 }

  lemma PaddingOf(m: nat, k: nat)
    requires k <= 16
    ensures Padding(8 * m + k) == if k > 8 then 16 - k else if k > 0 then 8 - k else 0
  {}

  lemma WindupBits(out: seq<byte>, buf: nat, k: nat)
    requires buf < Pow2(k) && k <= 16
    ensures k > 8 ==> buf < 65536
    ensures 0 < k <= 8 ==> buf < 256
    ensures var s := BytesToBits(out) + ToBits(buf, k);
            var t := s + Zeros(Padding(|s|));
            (k > 8 ==> t == BytesToBits(out) + ToBits(buf, 16))
            && (0 < k <= 8 ==> t == BytesToBits(out + [buf]))
            && (k == 0 ==> t == BytesToBits(out))
  {
    Pow2Values();
    var b := BytesToBits(out);
    var n := if k > 8 then 16 else if k > 0 then 8 else 0;
    Pow2Monotone(k, n);
    PadBits(buf, k, n);
    Assoc(b, ToBits(buf, k), Zeros(n - k));
    PaddingOf(|out|, k);
    var s := b + ToBits(buf, k);
    assert s + Zeros(Padding(|s|)) == b + ToBits(buf, n);
    if 0 < k <= 8 {
      BytesAppend(out, buf);
    } else if k == 0 {
      assert ToBits(buf, 0) == [];
    }
  }

  lemma PadBits(buf: nat, k: nat, n: nat)
    requires buf < Pow2(k) && k <= n
    ensures ToBits(buf, n) == ToBits(buf, k) + Zeros(n - k)
  {
    AppendBits(buf, k, 0, n - k);
    ToBitsVal(Zeros(n - k));
    ValZeros(n - k);
  }
}
