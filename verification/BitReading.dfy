/** The decompressor's bit buffer: bb, bk and the macros NEEDBITS and DUMPBITS.
    get_byte is reading the next byte of `input`; at the end of the input the program stops. */
module BitReading {
  import opened Bits

  /** Fetching one byte above the k buffered bits. */
  lemma FetchByte(input: seq<byte>, inptr: nat, bb: nat, k: nat)
    requires inptr < |input| && k <= 8 * inptr
    requires bb == Val(BytesToBits(input)[8 * inptr - k..8 * inptr])
    ensures Or(bb, Shl(input[inptr], k)) == Val(BytesToBits(input)[8 * inptr - k..8 * inptr + 8])
  {
    var s := BytesToBits(input);
    var low, high := s[8 * inptr - k..8 * inptr], s[8 * inptr..8 * inptr + 8];
    assert s[8 * inptr - k..8 * inptr + 8] == low + high;
    ByteAt(input, inptr);
    hide *;
    OrAbove(low, input[inptr]);
  }

  lemma OrAbove(low: seq<bool>, c: byte)
    ensures Or(Val(low), Shl(c, |low|)) == Val(low + ToBits(c, 8))
  {
    ValBound(low);
    OrDisjoint(Val(low), c, |low|);
    ByteVal(c);
    ValConcat(low, ToBits(c, 8));
    hide Or, Val, ToBits, Pow2;
  }

  lemma ByteVal(c: byte)
    ensures Val(ToBits(c, 8)) == c
  {
    Pow2Values();
    ValToBits(c, 8);
  }

  /** The low n of the buffered bits, and what is left without them. */
  lemma Cut(s: seq<bool>, p: nat, q: nat, n: nat)
    requires p + n <= q <= |s|
    ensures And(Val(s[p..q]), Pow2(n) - 1) == Val(s[p..p + n])
    ensures Shr(Val(s[p..q]), n) == Val(s[p + n..q])
  {
    var t := s[p..q];
    assert t[..n] == s[p..p + n] && t[n..] == s[p + n..q];
    ValSplit(t, n);
    AndMask(Val(t), n);
    ShrDiv(Val(t), n);
  }

  class BitReader {
    const input: seq<byte>
    var inptr: nat
    var bb: nat
    var bk: nat

    /** bk stays below 24, so a 32-bit bb never loses a bit. */
    ghost predicate Valid()
      reads this
    {
      inptr <= |input| && bk <= 8 * inptr && bk <= 23
      && bb == Val(Stream()[8 * inptr - bk..8 * inptr])
    }

    ghost function Stream(): (s: seq<bool>)
      ensures |s| == 8 * |input|
    {
      BytesToBits(input)
    }

    /** How many bits have been consumed: lookahead in bb does not count. */
    ghost function Pos(): (p: nat)
      reads this
      requires bk <= 8 * inptr
    {
      8 * inptr - bk
    }

    constructor (input: seq<byte>, start: nat)
      requires start <= |input|
      ensures Valid() && this.input == input && inptr == start && bk == 0 && Pos() == 8 * start
    {
      this.input, inptr, bb, bk := input, start, 0, 0;
    }

    /** False when the input ends first. */
    method NeedBits(n: nat) returns (ok: bool)
      requires Valid() && n <= 16
      modifies this
      ensures Valid() && Pos() == old(Pos())
      ensures ok <==> Pos() + n <= |Stream()|
      ensures ok ==> bk >= n
      ensures bk == old(bk) || bk <= n + 7
    {
      while bk < n
        invariant Valid() && Pos() == old(Pos())
        invariant bk == old(bk) || bk <= n + 7
      {
        if inptr == |input| {
          return false;
        }
        hide Or, Shl, Val, BytesToBits;
        FetchByte(input, inptr, bb, bk);
        bb := Or(bb, Shl(input[inptr], bk));
        bk := bk + 8;
        inptr := inptr + 1;
      }
      return true;
    }

    /** b & mask_bits[n]: the next n bits as a number. */
    function Peek(n: nat): (v: nat)
      requires Valid() && n <= bk
      reads this
      ensures Pos() + n <= |Stream()| && v == Val(Stream()[Pos()..Pos() + n]) && v < Pow2(n)
    {
      Cut(Stream(), Pos(), 8 * inptr, n);
      ValBound(Stream()[Pos()..Pos() + n]);
      And(bb, Pow2(n) - 1)
    }

    method DumpBits(n: nat)
      requires Valid() && n <= bk
      modifies this
      ensures Valid() && Pos() == old(Pos()) + n && bk == old(bk) - n
    {
      hide Shr, And, Pow2, Val, BytesToBits;
      Cut(Stream(), Pos(), 8 * inptr, n);
      bb := Shr(bb, n);
      bk := bk - n;
    }

    /** Undoes whole bytes of lookahead: the next byte fetched is the first one no bit of which was consumed. */
    method UndoLookahead()
      requires Valid()
      modifies this`bk, this`inptr
      ensures inptr == (old(Pos()) + 7) / 8 && bk < 8 && bk <= 8 * inptr && Pos() == old(Pos())
    {
      while bk >= 8
        invariant bk <= 8 * inptr && Pos() == old(Pos())
      {
        bk := bk - 8;
        inptr := inptr - 1;
      }
    }
  }
}
