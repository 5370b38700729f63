/** The fixed codes as the table of section 3.2.6 of RFC 1951 gives them, and one stream written out in full. */
module FormatAnswers {
  import opened Options
  import opened Bits
  import opened PrefixCodes
  import opened Rfc1951
  import opened Lz77
  import opened Tokens
  import opened Trees
  import opened FixedCodes
  import opened CodeTables

  lemma {:induction false} NoneShorter(lens: seq<nat>, k: nat)
    requires 1 <= k && forall j: nat :: j < k ==> Count(lens, j) == 0
    ensures NextCode(lens, k) == 0
  {
    if k > 1 { NoneShorter(lens, k - 1); }
  }

  lemma FixedFirst()
    ensures NextCode(FixedLit(), 7) == 0 && NextCode(FixedLit(), 8) == 48 && NextCode(FixedLit(), 9) == 400
  {
    forall k: nat | k <= 8
      ensures Count(FixedLit(), k) == if k == 8 then 152 else if k == 7 then 24 else 0
    {
      FixedCount(288, k);
    }
    NoneShorter(FixedLit(), 7);
    NextCodeStep(FixedLit(), 7);
    NextCodeStep(FixedLit(), 8);
    hide Count;
  }

  /** The table: 00110000 to 10111111, 110010000 to 111111111, 0000000 to 0010111, and 11000000 to 11000111. */
  lemma FixedTable(c: nat)
    requires c < 288
    ensures Codeword(FixedLit(), c) == if c < 144 then MsbBits(0x30 + c, 8)
                                       else if c < 256 then MsbBits(0x190 + (c - 144), 9)
                                       else if c < 280 then MsbBits(c - 256, 7)
                                       else MsbBits(0xc0 + (c - 280), 8)
  {
    FixedFirst();
    FixedCount(c, FixedLength(c));
    hide MsbBits, CountTo, NextCode;
  }

  // ---- One stream

  const STREAM: seq<byte> := [0x4b, 0x4c, 0x84, 0x00, 0x00]

  lemma FirstBits()
    ensures ToBits(0x4b, 8) == [true, true, false, true, false, false, true, false]
  {}

  lemma SecondBits()
    ensures ToBits(0x4c, 8) == [false, false, true, true, false, false, true, false]
  {}

  lemma ThirdBits()
    ensures ToBits(0x84, 8) == [false, false, true, false, false, false, false, true]
  {}

  lemma ZeroBits()
    ensures ToBits(0x00, 8) == [false, false, false, false, false, false, false, false]
  {}

  lemma StreamBytes()
    ensures BytesToBits(STREAM) == ToBits(0x4b, 8) + ToBits(0x4c, 8) + ToBits(0x84, 8) + ToBits(0x00, 8) + ToBits(0x00, 8)
  {
    hide ToBits;
    FirstByteBits(0x4b, [0x4c, 0x84, 0x00, 0x00]);
    FirstByteBits(0x4c, [0x84, 0x00, 0x00]);
    FirstByteBits(0x84, [0x00, 0x00]);
    FirstByteBits(0x00, [0x00]);
    FirstByteBits(0x00, []);
  }

  lemma FirstByteBits(c: byte, s: seq<byte>)
    ensures BytesToBits([c] + s) == ToBits(c, 8) + BytesToBits(s) && BytesToBits([]) == []
  {
    hide ToBits;
    assert ([c] + s)[1..] == s;
  }

  /** The header, two literals, a copy of length 6 from distance 1, and the end of the block. */
  lemma StreamBits()
    ensures var S := BytesToBits(STREAM);
            |S| == 40 && S[0] && S[1..3] == [true, false]
            && At(S, 3, [true, false, false, true, false, false, false, true])
            && At(S, 11, [true, false, false, true, false, false, false, true])
            && At(S, 19, [false, false, false, false, true, false, false])
            && At(S, 26, [false, false, false, false, false])
            && At(S, 31, [false, false, false, false, false, false, false])
  {
    hide BytesToBits, ToBits;
    FirstBits();
    SecondBits();
    ThirdBits();
    ZeroBits();
    StreamBytes();
  }

  lemma LetterBits()
    ensures MsbBits(0x91, 8) == [true, false, false, true, false, false, false, true]
  {}

  lemma WordBits()
    ensures MsbBits(4, 7) == [false, false, false, false, true, false, false]
    ensures MsbBits(0, 5) == [false, false, false, false, false]
    ensures MsbBits(0, 7) == [false, false, false, false, false, false, false]
  {}

  lemma SymbolsRead()
    ensures var S, ll := BytesToBits(STREAM), FixedLit();
            Symbol(ll, S, 3) == Some((97, 11)) && Symbol(ll, S, 11) == Some((97, 19)) && Symbol(ll, S, 19) == Some((260, 26))
            && Symbol(FixedDist(), S, 26) == Some((0, 31)) && Symbol(ll, S, 31) == Some((256, 38))
  {
    hide BytesToBits, Codeword, MsbBits;
    StreamBits();
    LetterBits();
    WordBits();
    FixedAreCodes();
    FixedTable(97);
    FixedTable(260);
    FixedTable(256);
    FixedDistCode(0);
    var S, ll := BytesToBits(STREAM), FixedLit();
    SymbolAt(ll, S, 3, 97);
    SymbolAt(ll, S, 11, 97);
    SymbolAt(ll, S, 19, 260);
    SymbolAt(FixedDist(), S, 26, 0);
    SymbolAt(ll, S, 31, 256);
  }

  lemma ItemOf(ll: seq<nat>, dl: seq<nat>, S: seq<bool>, p: nat, sym: nat, q: nat)
    requires sym <= 256 && Symbol(ll, S, p) == Some((sym, q))
    ensures ReadItem(ll, dl, S, p) == Some((if sym < 256 then Byte(sym) else EndOfBlock, q))
  {
    hide Symbol;
  }

  lemma CopyOf(ll: seq<nat>, dl: seq<nat>, S: seq<bool>, p: nat, q: nat, r: nat)
    requires Symbol(ll, S, p) == Some((260, q)) && Symbol(dl, S, q) == Some((0, r))
    ensures ReadItem(ll, dl, S, p) == Some((Copy(6, 1), r))
  {
    hide Symbol;
  }

  lemma ByteNext(ll: seq<nat>, dl: seq<nat>, S: seq<bool>, p: nat, out: seq<byte>, c: byte, q: nat)
    requires ReadItem(ll, dl, S, p) == Some((Byte(c), q))
    ensures ReadItems(ll, dl, S, p, out) == ReadItems(ll, dl, S, q, out + [c])
  {
    hide ReadItem;
  }

  lemma CopyNext(ll: seq<nat>, dl: seq<nat>, S: seq<bool>, p: nat, out: seq<byte>, len: nat, dist: nat, q: nat)
    requires ReadItem(ll, dl, S, p) == Some((Copy(len, dist), q)) && 1 <= dist <= |out| && dist <= 32768
    ensures ReadItems(ll, dl, S, p, out) == ReadItems(ll, dl, S, q, CopyBytes(out, dist, len))
  {
    hide ReadItem, CopyBytes;
  }

  lemma EndNext(ll: seq<nat>, dl: seq<nat>, S: seq<bool>, p: nat, out: seq<byte>, q: nat)
    requires ReadItem(ll, dl, S, p) == Some((EndOfBlock, q))
    ensures ReadItems(ll, dl, S, p, out) == Some((out, q))
  {
    hide ReadItem;
  }

  lemma CopySix()
    ensures CopyBytes([97, 97], 1, 6) == [97, 97, 97, 97, 97, 97, 97, 97]
  {}

  lemma ItemsRead()
    ensures ReadItems(FixedLit(), FixedDist(), BytesToBits(STREAM), 3, []) == Some(([97, 97, 97, 97, 97, 97, 97, 97], 38))
  {
    hide *;
    var S, ll, dl := BytesToBits(STREAM), FixedLit(), FixedDist();
    SymbolsRead();
    ItemOf(ll, dl, S, 3, 97, 11);
    ItemOf(ll, dl, S, 11, 97, 19);
    CopyOf(ll, dl, S, 19, 26, 31);
    ItemOf(ll, dl, S, 31, 256, 38);
    ByteNext(ll, dl, S, 3, [], 97, 11);
    ByteNext(ll, dl, S, 11, [97], 97, 19);
    CopyNext(ll, dl, S, 19, [97, 97], 6, 1, 31);
    CopySix();
    EndNext(ll, dl, S, 31, [97, 97, 97, 97, 97, 97, 97, 97], 38);
    assert [] + [97] == [97] && [97] + [97] == [97, 97];
  }

  /** The stream stands for eight bytes 'a', and ends within its last byte. */
  lemma EightBytes()
    ensures Inflated(BytesToBits(STREAM), 0) == Some(([97, 97, 97, 97, 97, 97, 97, 97], 38))
  {
    hide BytesToBits, ReadItems, ReadDynamic, ReadStored;
    StreamBits();
    ItemsRead();
    assert Val([true, false]) == 1;
  }
}
