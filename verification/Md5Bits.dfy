/** What the functions of section 3.4 of RFC 1321 do to a word, bit by bit. */
module Md5Bits {
  import opened Bits
  import opened Md5

  // ---- The bitwise operations

  lemma {:induction false} ComplementBit(a: nat, n: nat, i: nat)
    requires i < n && a < Pow2(n)
    ensures HasBit(NotOf(a, n), n, i) <==> !HasBit(a, n, i)
    decreases n
  {
    hide NotOf, HasBit, Pow2;
    NotHalves(a, n);
    HasBitNext(a, n, i);
    HasBitNext(NotOf(a, n), n, i);
    if i > 0 { ComplementBit(a / 2, n - 1, i - 1); }
  }

  lemma NotBit(a: nat, i: nat)
    requires Word(a) && i < 32
    ensures HasBit(Not(a), 32, i) <==> !HasBit(a, 32, i)
  {
    WordSize();
    ComplementBit(a, 32, i);
    hide HasBit, Pow2;
  }

  /** F chooses by x between y and z, G by z between x and y; H is the parity, and I is y exclusive-or (x or not z). */
  lemma FunctionBits(x: nat, y: nat, z: nat, i: nat)
    requires Word(x) && Word(y) && Word(z) && i < 32
    ensures HasBit(F(x, y, z), 32, i) <==> if HasBit(x, 32, i) then HasBit(y, 32, i) else HasBit(z, 32, i)
    ensures HasBit(G(x, y, z), 32, i) <==> if HasBit(z, 32, i) then HasBit(x, 32, i) else HasBit(y, 32, i)
    ensures HasBit(H(x, y, z), 32, i) <==> (HasBit(x, 32, i) != HasBit(y, 32, i)) != HasBit(z, 32, i)
    ensures HasBit(I(x, y, z), 32, i) <==> HasBit(y, 32, i) != (HasBit(x, 32, i) || !HasBit(z, 32, i))
  {
    hide HasBit, And, Or, Xor, Not, Word;
    NotBit(x, i);
    NotBit(z, i);
    OpBits(x, y, 32, i);
    OpBits(Not(x), z, 32, i);
    OpBits(And(x, y), And(Not(x), z), 32, i);
    OpBits(x, z, 32, i);
    OpBits(y, Not(z), 32, i);
    OpBits(And(x, z), And(y, Not(z)), 32, i);
    OpBits(Xor(x, y), z, 32, i);
    OpBits(x, Not(z), 32, i);
    OpBits(y, Or(x, Not(z)), 32, i);
  }

  // ---- Rotation

  /** The bits that leave the word above come back below. */
  lemma RotateSum(w: nat, s: nat)
    requires Word(w) && s <= 32
    ensures RotateLeft(w, s) == w / Pow2(32 - s) + Shl(w % Pow2(32 - s), s)
    ensures w / Pow2(32 - s) < Pow2(s) && w % Pow2(32 - s) < Pow2(32 - s) && RotateLeft(w, s) < TWO32
  {
    hide *;
    WordIs(w);
    WordSize();
    Pow2Add(s, 32 - s);
    DivMod(w, Pow2(32 - s));
    var hi, lo := w / Pow2(32 - s), w % Pow2(32 - s);
    ShrDiv(w, 32 - s);
    HighPart(w, Pow2(s), Pow2(32 - s));
    ShlWord(w, hi, lo, s);
    OrDisjoint(hi, lo, s);
    OrCommutes(hi, Shl(lo, s));
    ShlRange(hi, lo, s);
    RotateIs(w, s);
    ModSmall(hi + Shl(lo, s), TWO32);
  }

  lemma WordIs(w: nat)
    ensures Word(w) <==> w < TWO32
  {}

  lemma HighPart(w: nat, p: nat, q: nat)
    requires q > 0 && w < p * q
    ensures w / q < p
  {
    DivMod(w, q);
    if w / q >= p { MulLe(p, w / q, q); }
  }

  /** Shifting left within 32 bits drops the high part. */
  lemma ShlWord(w: nat, hi: nat, lo: nat, s: nat)
    requires s <= 32 && w == Pow2(32 - s) * hi + lo && lo < Pow2(32 - s) && TWO32 == Pow2(s) * Pow2(32 - s)
    ensures Shl(w, s) % TWO32 == Shl(lo, s)
  {
    hide *;
    ShlParts(Pow2(s), Pow2(32 - s), hi, lo);
    ShlIs(w, s);
    ShlIs(lo, s);
    DivUnique(Shl(w, s), TWO32, hi, Shl(lo, s));
  }

  lemma ShlParts(p: nat, q: nat, hi: nat, lo: nat)
    requires p > 0 && lo < q
    ensures (q * hi + lo) * p == (p * q) * hi + lo * p && lo * p < p * q
  {
    Distribute(q * hi, lo, p);
    MulThree(p, q, hi);
    MulOrder(q, p);
    MulLess(lo, q, p);
    hide *;
  }

  lemma MulThree(p: nat, q: nat, h: nat)
    ensures q * h * p == (p * q) * h
  {}

  lemma MulLess(a: nat, b: nat, c: nat)
    requires a < b && c > 0
    ensures a * c < b * c
  {}

  lemma ShlRange(hi: nat, lo: nat, s: nat)
    requires s <= 32 && hi < Pow2(s) && lo < Pow2(32 - s) && TWO32 == Pow2(s) * Pow2(32 - s)
    ensures hi + Shl(lo, s) < TWO32
  {
    hide *;
    MulLe(lo + 1, Pow2(32 - s), Pow2(s));
    Distribute(lo, 1, Pow2(s));
    MulOrder(Pow2(s), Pow2(32 - s));
    ShlIs(lo, s);
  }

  lemma RotateIs(w: nat, s: nat)
    requires s <= 32
    ensures RotateLeft(w, s) == Or(Shl(w, s) % TWO32, Shr(w, 32 - s)) % TWO32
  {}

  /** The s highest bits become the lowest, in their order, and the others move up. */
  lemma RotateBits(w: nat, s: nat)
    requires Word(w) && s <= 32
    ensures ToBits(RotateLeft(w, s), 32) == ToBits(w, 32)[32 - s..] + ToBits(w, 32)[..32 - s]
  {
    hide *;
    RotateSum(w, s);
    AppendBits(w / Pow2(32 - s), s, w % Pow2(32 - s), 32 - s);
    ToBitsSplit(w, 32 - s, s);
    ToBitsMod(w, 32 - s);
    ShrDiv(w, 32 - s);
  }

  /** Bit i of the result is bit (i + 32 - s) mod 32 of the word. */
  lemma RotateBit(w: nat, s: nat, i: nat)
    requires Word(w) && s <= 32 && i < 32
    ensures HasBit(RotateLeft(w, s), 32, i) <==> HasBit(w, 32, (i + 32 - s) % 32)
  {
    hide *;
    RotateBits(w, s);
    RotateSum(w, s);
    BitIs(RotateLeft(w, s), i);
    BitIs(w, (i + 32 - s) % 32);
  }

  lemma BitIs(a: nat, i: nat)
    requires i < 32
    ensures HasBit(a, 32, i) <==> ToBits(a, 32)[i]
  {}

  lemma SameWord(a: nat, b: nat)
    requires Word(a) && Word(b) && ToBits(a, 32) == ToBits(b, 32)
    ensures a == b
  {
    hide *;
    WordIs(a);
    WordIs(b);
    WordSize();
    ValToBits(a, 32);
    ValToBits(b, 32);
    ModSmall(a, Pow2(32));
    ModSmall(b, Pow2(32));
  }

  /** Rotations add up, and a rotation by 32 changes nothing. */
  lemma RotateTwice(w: nat, s: nat, t: nat)
    requires Word(w) && s + t <= 32
    ensures Word(RotateLeft(w, s)) && RotateLeft(RotateLeft(w, s), t) == RotateLeft(w, s + t) && RotateLeft(w, 32) == w
  {
    hide *;
    RotateSum(w, s);
    WordIs(RotateLeft(w, s));
    var v := RotateLeft(w, s);
    RotateSum(v, t);
    RotateSum(w, s + t);
    RotateSum(w, 32);
    WordIs(RotateLeft(v, t));
    WordIs(RotateLeft(w, s + t));
    WordIs(RotateLeft(w, 32));
    RotateBits(w, s);
    RotateBits(v, t);
    RotateBits(w, s + t);
    RotateBits(w, 32);
    Turned(ToBits(w, 32), s, t);
    SameWord(RotateLeft(v, t), RotateLeft(w, s + t));
    SameWord(RotateLeft(w, 32), w);
  }

  lemma Turned(b: seq<bool>, s: nat, t: nat)
    requires |b| == 32 && s + t <= 32
    ensures var c := b[32 - s..] + b[..32 - s];
            |c| == 32 && c[32 - t..] + c[..32 - t] == b[32 - (s + t)..] + b[..32 - (s + t)]
    ensures b[32 - 32..] + b[..32 - 32] == b
  {}

  /** Rotating on by the rest of a full turn gives the word back. */
  lemma RotateBack(w: nat, s: nat)
    requires Word(w) && s <= 32
    ensures RotateLeft(RotateLeft(w, s), 32 - s) == w
  {
    RotateTwice(w, s, 32 - s);
    hide RotateLeft;
  }
}
