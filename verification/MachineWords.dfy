/** 32-bit machine words as the numbers they stand for: what the operations on them are in arithmetic. */
module MachineWords {
  import opened Bits

  predicate Bit(w: bv32, m: bv32) { w & m != 0 }

  function One(w: bv32, m: bv32): nat { if Bit(w, m) then 1 else 0 }

  function FirstByte(w: bv32): nat {
    (if w & 0x1 != 0 then 0x1 else 0) + (if w & 0x2 != 0 then 0x2 else 0) + (if w & 0x4 != 0 then 0x4 else 0) + (if w & 0x8 != 0 then 0x8 else 0)
    + (if w & 0x10 != 0 then 0x10 else 0) + (if w & 0x20 != 0 then 0x20 else 0) + (if w & 0x40 != 0 then 0x40 else 0) + (if w & 0x80 != 0 then 0x80 else 0)
  }

  function SecondByte(w: bv32): nat {
    (if w & 0x100 != 0 then 0x100 else 0) + (if w & 0x200 != 0 then 0x200 else 0) + (if w & 0x400 != 0 then 0x400 else 0) + (if w & 0x800 != 0 then 0x800 else 0)
    + (if w & 0x1000 != 0 then 0x1000 else 0) + (if w & 0x2000 != 0 then 0x2000 else 0) + (if w & 0x4000 != 0 then 0x4000 else 0) + (if w & 0x8000 != 0 then 0x8000 else 0)
  }

  function ThirdByte(w: bv32): nat {
    (if w & 0x10000 != 0 then 0x10000 else 0) + (if w & 0x20000 != 0 then 0x20000 else 0) + (if w & 0x40000 != 0 then 0x40000 else 0) + (if w & 0x80000 != 0 then 0x80000 else 0)
    + (if w & 0x100000 != 0 then 0x100000 else 0) + (if w & 0x200000 != 0 then 0x200000 else 0) + (if w & 0x400000 != 0 then 0x400000 else 0) + (if w & 0x800000 != 0 then 0x800000 else 0)
  }

  function FourthByte(w: bv32): nat {
    (if w & 0x1000000 != 0 then 0x1000000 else 0) + (if w & 0x2000000 != 0 then 0x2000000 else 0) + (if w & 0x4000000 != 0 then 0x4000000 else 0) + (if w & 0x8000000 != 0 then 0x8000000 else 0)
    + (if w & 0x10000000 != 0 then 0x10000000 else 0) + (if w & 0x20000000 != 0 then 0x20000000 else 0) + (if w & 0x40000000 != 0 then 0x40000000 else 0) + (if w & 0x80000000 != 0 then 0x80000000 else 0)
  }

  /** The number that a word stands for. */
  function Value(w: bv32): nat { FirstByte(w) + SecondByte(w) + ThirdByte(w) + FourthByte(w) }

  /** The word with only the bit set above which there are n - 1 places. */
  function Place(n: nat): bv32
    decreases 32 - n
  {
    if n >= 32 then 1 else Place(n + 1) << 1
  }

  /** The number in the n highest places. */
  function Top(w: bv32, n: nat): nat {
    if n == 0 then 0 else One(w, Place(n)) + 2 * Top(w, n - 1)
  }

  lemma Places()
    ensures Place(32) == 0x1 && Place(31) == 0x2 && Place(30) == 0x4 && Place(29) == 0x8
    ensures Place(28) == 0x10 && Place(27) == 0x20 && Place(26) == 0x40 && Place(25) == 0x80
    ensures Place(24) == 0x100 && Place(23) == 0x200 && Place(22) == 0x400 && Place(21) == 0x800
    ensures Place(20) == 0x1000 && Place(19) == 0x2000 && Place(18) == 0x4000 && Place(17) == 0x8000
    ensures Place(16) == 0x10000 && Place(15) == 0x20000 && Place(14) == 0x40000 && Place(13) == 0x80000
    ensures Place(12) == 0x100000 && Place(11) == 0x200000 && Place(10) == 0x400000 && Place(9) == 0x800000
    ensures Place(8) == 0x1000000 && Place(7) == 0x2000000 && Place(6) == 0x4000000 && Place(5) == 0x8000000
    ensures Place(4) == 0x10000000 && Place(3) == 0x20000000 && Place(2) == 0x40000000 && Place(1) == 0x80000000
  {}

  lemma TopNext(w: bv32, n: nat)
    requires n > 0
    ensures Top(w, n) == One(w, Place(n)) + 2 * Top(w, n - 1)
  {}

  lemma TopEight(w: bv32, n: nat)
    ensures Top(w, n + 8)
            == One(w, Place(n + 8)) + 2 * One(w, Place(n + 7)) + 4 * One(w, Place(n + 6)) + 8 * One(w, Place(n + 5))
               + 16 * One(w, Place(n + 4)) + 32 * One(w, Place(n + 3)) + 64 * One(w, Place(n + 2)) + 128 * One(w, Place(n + 1))
               + 256 * Top(w, n)
  {
    hide *;
    TopNext(w, n + 8);
    TopNext(w, n + 7);
    TopNext(w, n + 6);
    TopNext(w, n + 5);
    TopNext(w, n + 4);
    TopNext(w, n + 3);
    TopNext(w, n + 2);
    TopNext(w, n + 1);
  }

  lemma OneNative(w: bv32, m: bv32)
    ensures One(w, m) == if w & m != 0 then 1 else 0
  {}

  lemma FirstPlaces(w: bv32)
    ensures FirstByte(w)
            == One(w, 1) + 0x2 * One(w, 0x2) + 0x4 * One(w, 0x4) + 0x8 * One(w, 0x8)
               + 0x10 * One(w, 0x10) + 0x20 * One(w, 0x20) + 0x40 * One(w, 0x40) + 0x80 * One(w, 0x80)
  {
    hide One, Bit;
    OneNative(w, 0x1);
    OneNative(w, 0x2);
    OneNative(w, 0x4);
    OneNative(w, 0x8);
    OneNative(w, 0x10);
    OneNative(w, 0x20);
    OneNative(w, 0x40);
    OneNative(w, 0x80);
  }

  lemma SecondPlaces(w: bv32)
    ensures SecondByte(w)
            == 0x100 * One(w, 0x100) + 0x200 * One(w, 0x200) + 0x400 * One(w, 0x400) + 0x800 * One(w, 0x800)
               + 0x1000 * One(w, 0x1000) + 0x2000 * One(w, 0x2000) + 0x4000 * One(w, 0x4000) + 0x8000 * One(w, 0x8000)
  {
    hide One, Bit;
    OneNative(w, 0x100);
    OneNative(w, 0x200);
    OneNative(w, 0x400);
    OneNative(w, 0x800);
    OneNative(w, 0x1000);
    OneNative(w, 0x2000);
    OneNative(w, 0x4000);
    OneNative(w, 0x8000);
  }

  lemma ThirdPlaces(w: bv32)
    ensures ThirdByte(w)
            == 0x10000 * One(w, 0x10000) + 0x20000 * One(w, 0x20000) + 0x40000 * One(w, 0x40000) + 0x80000 * One(w, 0x80000)
               + 0x100000 * One(w, 0x100000) + 0x200000 * One(w, 0x200000) + 0x400000 * One(w, 0x400000) + 0x800000 * One(w, 0x800000)
  {
    hide One, Bit;
    OneNative(w, 0x10000);
    OneNative(w, 0x20000);
    OneNative(w, 0x40000);
    OneNative(w, 0x80000);
    OneNative(w, 0x100000);
    OneNative(w, 0x200000);
    OneNative(w, 0x400000);
    OneNative(w, 0x800000);
  }

  lemma FourthPlaces(w: bv32)
    ensures FourthByte(w)
            == 0x1000000 * One(w, 0x1000000) + 0x2000000 * One(w, 0x2000000) + 0x4000000 * One(w, 0x4000000) + 0x8000000 * One(w, 0x8000000)
               + 0x10000000 * One(w, 0x10000000) + 0x20000000 * One(w, 0x20000000) + 0x40000000 * One(w, 0x40000000) + 0x80000000 * One(w, 0x80000000)
  {
    hide One, Bit;
    OneNative(w, 0x1000000);
    OneNative(w, 0x2000000);
    OneNative(w, 0x4000000);
    OneNative(w, 0x8000000);
    OneNative(w, 0x10000000);
    OneNative(w, 0x20000000);
    OneNative(w, 0x40000000);
    OneNative(w, 0x80000000);
  }

  lemma ValueIs(w: bv32)
    ensures Value(w) == FirstByte(w) + SecondByte(w) + ThirdByte(w) + FourthByte(w)
  {}

  lemma FourthTop(w: bv32)
    ensures FourthByte(w) == 0x1000000 * Top(w, 8)
  {
    hide *;
    Places();
    FourthPlaces(w);
    TopEight(w, 0);
    TopNone(w);
  }

  lemma ThirdTop(w: bv32)
    ensures ThirdByte(w) + FourthByte(w) == 0x10000 * Top(w, 16)
  {
    hide *;
    Places();
    ThirdPlaces(w);
    TopEight(w, 8);
    FourthTop(w);
  }

  lemma SecondTop(w: bv32)
    ensures SecondByte(w) + ThirdByte(w) + FourthByte(w) == 0x100 * Top(w, 24)
  {
    hide *;
    Places();
    SecondPlaces(w);
    TopEight(w, 16);
    ThirdTop(w);
  }

  lemma ValueTop(w: bv32)
    ensures Value(w) == Top(w, 32)
  {
    hide *;
    Places();
    ValueIs(w);
    FirstPlaces(w);
    TopEight(w, 24);
    SecondTop(w);
  }

  lemma TopNone(w: bv32)
    ensures Top(w, 0) == 0
  {}

  predicate OneBit(m: bv32) { m != 0 && m & (m - 1) == 0 }

  /** Every place is one bit; the next one up is found by a shift. */
  lemma PlaceIs(n: nat)
    requires 1 <= n <= 32
    ensures OneBit(Place(n)) && (n > 1 ==> Place(n) != 0x80000000 && Place(n - 1) == Up(Place(n)))
  {
    Places();
    hide Place;
  }

  // ---- Bit by bit

  function XorWord(x: bv32, y: bv32): bv32 { x ^ y }

  function AndWord(x: bv32, y: bv32): bv32 { x & y }

  function OrWord(x: bv32, y: bv32): bv32 { x | y }

  function NotWord(x: bv32): bv32 { !x }

  /** Every bit one place up. */
  function Up(m: bv32): bv32 { m << 1 }

  lemma OneIs(w: bv32, m: bv32)
    ensures One(w, m) == if Bit(w, m) then 1 else 0
  {
    hide Bit;
  }

  lemma NoneTops()
    ensures Xor(0, 0) == And(0, 0) == Or(0, 0) == 0
  {}

  lemma OnePlace(x: bv32, m: bv32)
    requires OneBit(m)
    ensures x & m == 0 || x & m == m
  {}

  lemma XorParts(x: bv32, y: bv32)
    ensures XorWord(x, y) == AndWord(OrWord(x, y), NotWord(AndWord(x, y)))
  {}

  lemma XorBit(x: bv32, y: bv32, m: bv32)
    requires OneBit(m)
    ensures Bit(XorWord(x, y), m) <==> Bit(x, m) != Bit(y, m)
  {
    hide *;
    XorParts(x, y);
    OrBit(x, y, m);
    AndBit(x, y, m);
    NotBit(AndWord(x, y), m);
    AndBit(OrWord(x, y), NotWord(AndWord(x, y)), m);
  }

  lemma {:induction false} XorTop(x: bv32, y: bv32, n: nat)
    requires n <= 32
    ensures Top(XorWord(x, y), n) == Xor(Top(x, n), Top(y, n))
  {
    hide *;
    TopNone(x);
    TopNone(y);
    TopNone(XorWord(x, y));
    NoneTops();
    if n > 0 {
      XorTop(x, y, n - 1);
      PlaceIs(n);
      XorBit(x, y, Place(n));
      OneIs(x, Place(n));
      OneIs(y, Place(n));
      OneIs(XorWord(x, y), Place(n));
      TopNext(x, n);
      TopNext(y, n);
      TopNext(XorWord(x, y), n);
      XorStep(Top(x, n), Top(y, n));
    }
  }

  lemma AndMasked(x: bv32, y: bv32, m: bv32)
    ensures (x & y) & m == (x & m) & (y & m)
  {}

  lemma AndBit(x: bv32, y: bv32, m: bv32)
    requires OneBit(m)
    ensures Bit(AndWord(x, y), m) <==> Bit(x, m) && Bit(y, m)
  {
    OnePlace(x, m);
    OnePlace(y, m);
    AndMasked(x, y, m);
  }

  lemma {:induction false} AndTop(x: bv32, y: bv32, n: nat)
    requires n <= 32
    ensures Top(AndWord(x, y), n) == And(Top(x, n), Top(y, n))
  {
    hide *;
    TopNone(x);
    TopNone(y);
    TopNone(AndWord(x, y));
    NoneTops();
    if n > 0 {
      AndTop(x, y, n - 1);
      PlaceIs(n);
      AndBit(x, y, Place(n));
      OneIs(x, Place(n));
      OneIs(y, Place(n));
      OneIs(AndWord(x, y), Place(n));
      TopNext(x, n);
      TopNext(y, n);
      TopNext(AndWord(x, y), n);
      AndHalves(Top(x, n), Top(y, n));
    }
  }

  lemma NotBit(x: bv32, m: bv32)
    requires OneBit(m)
    ensures Bit(NotWord(x), m) <==> !Bit(x, m)
  {
    OnePlace(x, m);
    NotMasked(x, m);
  }

  lemma NotMasked(x: bv32, m: bv32)
    ensures !x & m == m ^ (x & m)
  {}

  lemma OrParts(x: bv32, y: bv32)
    ensures OrWord(x, y) == NotWord(AndWord(NotWord(x), NotWord(y)))
  {}

  lemma OrBit(x: bv32, y: bv32, m: bv32)
    requires OneBit(m)
    ensures Bit(OrWord(x, y), m) <==> Bit(x, m) || Bit(y, m)
  {
    hide *;
    OrParts(x, y);
    NotBit(x, m);
    NotBit(y, m);
    AndBit(NotWord(x), NotWord(y), m);
    NotBit(AndWord(NotWord(x), NotWord(y)), m);
  }

  lemma {:induction false} OrTop(x: bv32, y: bv32, n: nat)
    requires n <= 32
    ensures Top(OrWord(x, y), n) == Or(Top(x, n), Top(y, n))
  {
    hide *;
    TopNone(x);
    TopNone(y);
    TopNone(OrWord(x, y));
    NoneTops();
    if n > 0 {
      OrTop(x, y, n - 1);
      PlaceIs(n);
      OrBit(x, y, Place(n));
      OneIs(x, Place(n));
      OneIs(y, Place(n));
      OneIs(OrWord(x, y), Place(n));
      TopNext(x, n);
      TopNext(y, n);
      TopNext(OrWord(x, y), n);
      OrHalves(Top(x, n), Top(y, n));
    }
  }

  lemma {:induction false} NotTop(x: bv32, n: nat)
    requires n <= 32
    ensures Top(NotWord(x), n) + Top(x, n) + 1 == Pow2(n)
  {
    hide *;
    TopNone(x);
    TopNone(NotWord(x));
    PowHalf(n);
    if n > 0 {
      NotTop(x, n - 1);
      PlaceIs(n);
      NotBit(x, Place(n));
      OneIs(x, Place(n));
      OneIs(NotWord(x), Place(n));
      TopNext(x, n);
      TopNext(NotWord(x), n);
    }
  }

  // ---- Sums

  lemma Carries(x: bv32, y: bv32, s: bv32, c: bv32, u: bv32)
    requires s == x + y && c == x & y && u == c << 1
    ensures s == (x ^ y) + u
  {}

  lemma AndIs(x: bv32, y: bv32, z: bv32)
    requires z == x & y
    ensures z == AndWord(x, y)
  {}

  lemma UpIs(x: bv32, z: bv32)
    requires z == x << 1
    ensures z == Up(x)
  {}

  predicate Sums(x: bv32, y: bv32, s: bv32) { s == x + y }

  lemma SumsMade(x: bv32, y: bv32, u: bv32, s: bv32)
    requires s == (x ^ y) + u
    ensures Sums(XorWord(x, y), u, s)
  {}

  lemma SumsOf(x: bv32, y: bv32, s: bv32)
    requires Sums(x, y, s)
    ensures s == x + y
  {}

  /** The sum without carries, and the carries one place up. */
  lemma SumCarries(x: bv32, y: bv32, s: bv32) returns (c: bv32, u: bv32)
    requires Sums(x, y, s)
    ensures Sums(XorWord(x, y), u, s) && c == AndWord(x, y) && u == Up(c)
  {
    hide *;
    SumsOf(x, y, s);
    c := x & y;
    u := c << 1;
    Carries(x, y, s, c, u);
    SumsMade(x, y, u, s);
    AndIs(x, y, c);
    UpIs(c, u);
  }

  lemma {:induction false} XorAnd(a: nat, b: nat)
    ensures a + b == Xor(a, b) + 2 * And(a, b)
    decreases a + b
  {
    if a > 0 && b > 0 { XorAnd(a / 2, b / 2); }
  }

  lemma UpBit(w: bv32, m: bv32)
    requires OneBit(m) && m != 0x80000000
    ensures Bit(Up(w), Up(m)) <==> Bit(w, m)
  {}

  lemma UpLowest(w: bv32)
    ensures !Bit(Up(w), 1)
  {}

  lemma {:induction false} UpTop(w: bv32, n: nat)
    requires n < 32
    ensures Top(Up(w), n) == Top(w, n + 1) % Pow2(n)
  {
    hide *;
    TopNone(Up(w));
    PowHalf(n);
    if n > 0 {
      UpTop(w, n - 1);
      PlaceIs(n + 1);
      UpBit(w, Place(n + 1));
      OneIs(w, Place(n + 1));
      OneIs(Up(w), Place(n));
      TopNext(Up(w), n);
      TopNext(w, n + 1);
      SumHalf(One(w, Place(n + 1)), Top(w, n), Pow2(n - 1));
    }
  }

  lemma UpValue(w: bv32)
    ensures Value(Up(w)) == 2 * Value(w) % TWO32 == 2 * (Value(w) % Pow2(31))
  {
    hide *;
    WordSize();
    ValueTop(w);
    ValueTop(Up(w));
    UpTop(w, 31);
    PlaceLowest();
    TopNext(Up(w), 32);
    OneIs(Up(w), 1);
    UpLowest(w);
    PowHalf(32);
    SumHalf(0, Top(w, 32), Pow2(31));
  }

  lemma PlaceLowest()
    ensures Place(32) == 1
  {}

  lemma {:induction false} AndMultiple(a: nat, b: nat, k: nat)
    requires b % Pow2(k) == 0
    ensures And(a, b) % Pow2(k) == 0
  {
    hide *;
    PowHalf(k);
    if k > 0 {
      SumHalf(b % 2, b / 2, Pow2(k - 1));
      AndHalves(a, b);
      AndMultiple(a / 2, b / 2, k - 1);
      SumHalf(And(a, b) % 2, And(a, b) / 2, Pow2(k - 1));
    }
  }

  lemma LowerMultiple(c: nat, k: nat, n: nat)
    requires k <= n && c % Pow2(k) == 0
    ensures c % Pow2(n) % Pow2(k) == 0
  {
    hide Pow2;
    Pow2Add(k, n - k);
    DivMod(c, Pow2(n));
    var q, r := c / Pow2(n), c % Pow2(n);
    DivMod(c, Pow2(k));
    var p := c / Pow2(k) - Pow2(n - k) * q;
    assert r == Pow2(k) * p by {
      assert Pow2(n) * q == Pow2(k) * (Pow2(n - k) * q);
      assert Pow2(k) * p == Pow2(k) * (c / Pow2(k)) - Pow2(k) * (Pow2(n - k) * q);
    }
    NonNegativeFactor(Pow2(k), p);
    DivUnique(r, Pow2(k), p, 0);
  }

  lemma NonNegativeFactor(a: nat, p: int)
    requires a > 0 && a * p >= 0
    ensures p >= 0
  {
    if p < 0 { MulLe(1, -p, a); }
  }

  lemma BitsClear(y: bv32)
    requires !Bit(y, 0x1) && !Bit(y, 0x2) && !Bit(y, 0x4) && !Bit(y, 0x8) && !Bit(y, 0x10) && !Bit(y, 0x20) && !Bit(y, 0x40) && !Bit(y, 0x80)
    requires !Bit(y, 0x100) && !Bit(y, 0x200) && !Bit(y, 0x400) && !Bit(y, 0x800) && !Bit(y, 0x1000) && !Bit(y, 0x2000) && !Bit(y, 0x4000) && !Bit(y, 0x8000)
    requires !Bit(y, 0x10000) && !Bit(y, 0x20000) && !Bit(y, 0x40000) && !Bit(y, 0x80000) && !Bit(y, 0x100000) && !Bit(y, 0x200000) && !Bit(y, 0x400000) && !Bit(y, 0x800000)
    requires !Bit(y, 0x1000000) && !Bit(y, 0x2000000) && !Bit(y, 0x4000000) && !Bit(y, 0x8000000) && !Bit(y, 0x10000000) && !Bit(y, 0x20000000) && !Bit(y, 0x40000000) && !Bit(y, 0x80000000)
    ensures y == 0
  {}

  lemma {:induction false} NoBit(y: bv32, n: nat, k: nat)
    requires 1 <= k <= n <= 32 && Top(y, n) == 0
    ensures !Bit(y, Place(k))
    decreases n
  {
    hide *;
    TopNext(y, n);
    OneIs(y, Place(n));
    if k < n { NoBit(y, n - 1, k); }
  }

  lemma NoBits(y: bv32)
    requires Value(y) == 0
    ensures y == 0
  {
    hide *;
    ValueTop(y);
    forall k | 1 <= k <= 32
      ensures !Bit(y, Place(k))
    {
      NoBit(y, 32, k);
    }
    Places();
    BitsClear(y);
  }

  lemma SumZero(x: bv32, y: bv32, s: bv32)
    requires Sums(x, y, s) && y == 0
    ensures s == x
  {}

  /** A word whose k lowest places are clear is added to another in 32 - k rounds of carries. */
  lemma {:induction false} SumRounds(x: bv32, y: bv32, s: bv32, k: nat)
    requires k <= 32 && Value(y) % Pow2(k) == 0 && Sums(x, y, s)
    ensures Value(s) == (Value(x) + Value(y)) % TWO32
    decreases 32 - k
  {
    hide *;
    WordSize();
    ValueRange(x);
    ValueRange(y);
    if k == 32 {
      ModSmall(Value(y), Pow2(k));
      ModSmall(Value(x), TWO32);
      NoBits(y);
      SumZero(x, y, s);
    } else {
      var c, u := SumCarries(x, y, s);
      BitValues(x, y);
      XorAnd(Value(x), Value(y));
      AndMultiple(Value(x), Value(y), k);
      UpMultiple(c, k);
      SumRounds(XorWord(x, y), u, s, k + 1);
      SumMod(Value(x), Value(y), Value(XorWord(x, y)), Value(c), Value(u));
    }
  }

  lemma UpMultiple(c: bv32, k: nat)
    requires k < 32 && Value(c) % Pow2(k) == 0
    ensures Value(Up(c)) % Pow2(k + 1) == 0 && Value(Up(c)) == 2 * Value(c) % TWO32
  {
    hide *;
    UpValue(c);
    LowerMultiple(Value(c), k, 31);
    PowHalf(k + 1);
    SumHalf(0, Value(c) % Pow2(31), Pow2(k));
  }

  lemma SumMod(x: nat, y: nat, a: nat, c: nat, u: nat)
    requires x + y == a + 2 * c && u == 2 * c % TWO32
    ensures (a + u) % TWO32 == (x + y) % TWO32
  {}

  lemma SumHalf(b: nat, t: nat, p: nat)
    requires b <= 3 && p > 0
    ensures (2 * t + b) % (2 * p) == b % 2 + 2 * ((t + if b >= 2 then 1 else 0) % p)
  {
    var q, r := (t + if b >= 2 then 1 else 0) / p, (t + if b >= 2 then 1 else 0) % p;
    DivMod(t + if b >= 2 then 1 else 0, p);
    MulTwo(q, p);
    assert 2 * p * q == 2 * (p * q);
    DivUnique(2 * t + b, 2 * p, q, b % 2 + 2 * r);
  }

  // ---- The operations

  lemma ValueRange(x: bv32)
    ensures Value(x) < TWO32
  {
    hide *;
    WordSize();
    ValueTop(x);
    NotTop(x, 32);
  }

  /** Complement and the bitwise operations. */
  lemma BitValues(x: bv32, y: bv32)
    ensures Value(XorWord(x, y)) == Xor(Value(x), Value(y)) && Value(AndWord(x, y)) == And(Value(x), Value(y))
    ensures Value(OrWord(x, y)) == Or(Value(x), Value(y)) && Value(NotWord(x)) == TWO32 - 1 - Value(x)
  {
    hide *;
    WordSize();
    ValueTop(x);
    ValueTop(y);
    ValueTop(XorWord(x, y));
    ValueTop(AndWord(x, y));
    ValueTop(OrWord(x, y));
    ValueTop(NotWord(x));
    XorTop(x, y, 32);
    AndTop(x, y, 32);
    OrTop(x, y, 32);
    NotTop(x, 32);
  }

  lemma SumValue(x: bv32, y: bv32)
    ensures Value(x + y) == (Value(x) + Value(y)) % TWO32
  {
    hide *;
    PowHalf(0);
    SumsItself(x, y);
    SumRounds(x, y, x + y, 0);
  }

  lemma SumsItself(x: bv32, y: bv32)
    ensures Sums(x, y, x + y)
  {}

  // ---- Shifts

  /** Every bit one place down. */
  function Down(w: bv32): bv32 { w >> 1 }

  lemma DownBit(w: bv32, m: bv32)
    requires OneBit(m) && m != 0x80000000
    ensures Bit(Down(w), m) <==> Bit(w, Up(m))
  {}

  lemma DownHighest(w: bv32)
    ensures !Bit(Down(w), 0x80000000)
  {}

  lemma PlaceHighest()
    ensures Place(1) == 0x80000000
  {
    Places();
    hide Place;
  }

  lemma {:induction false} DownTop(w: bv32, n: nat)
    requires 1 <= n <= 32
    ensures Top(Down(w), n) == Top(w, n - 1)
  {
    hide *;
    TopNext(Down(w), n);
    OneIs(Down(w), Place(n));
    PlaceIs(n);
    if n > 1 {
      DownTop(w, n - 1);
      DownBit(w, Place(n));
      OneIs(w, Place(n - 1));
      TopNext(w, n - 1);
    } else {
      PlaceHighest();
      DownHighest(w);
      TopNone(Down(w));
      TopNone(w);
    }
  }

  lemma DownValue(w: bv32)
    ensures Value(Down(w)) == Value(w) / 2 && (Bit(w, 1) <==> Value(w) % 2 == 1)
  {
    hide *;
    ValueTop(w);
    ValueTop(Down(w));
    DownTop(w, 32);
    TopNext(w, 32);
    OneIs(w, 1);
    PlaceLowest();
  }

  // ---- Rotation

  /** Rotated left by one place. */
  function Turn(w: bv32): bv32 { (w << 1) | (w >> 31) }

  lemma TurnBit(w: bv32, m: bv32)
    requires OneBit(m) && m != 0x80000000
    ensures Bit(Turn(w), Up(m)) <==> Bit(w, m)
  {}

  lemma TurnLowest(w: bv32)
    ensures Bit(Turn(w), 1) <==> Bit(w, 0x80000000)
  {}

  lemma {:induction false} TurnTop(w: bv32, n: nat)
    requires n < 32
    ensures Top(Turn(w), n) == Top(w, n + 1) % Pow2(n)
  {
    hide *;
    TopNone(Turn(w));
    PowHalf(n);
    if n > 0 {
      TurnTop(w, n - 1);
      PlaceIs(n + 1);
      TurnBit(w, Place(n + 1));
      OneIs(w, Place(n + 1));
      OneIs(Turn(w), Place(n));
      TopNext(Turn(w), n);
      TopNext(w, n + 1);
      SumHalf(One(w, Place(n + 1)), Top(w, n), Pow2(n - 1));
    }
  }

  lemma {:induction false} Highest(w: bv32, n: nat)
    requires 1 <= n <= 32
    ensures Top(w, n) / Pow2(n - 1) == One(w, Place(1))
  {
    hide *;
    TopNext(w, n);
    TopNone(w);
    OneIs(w, Place(n));
    PowHalf(n - 1);
    if n > 1 {
      Highest(w, n - 1);
      DivTwice(One(w, Place(n)), Top(w, n - 1), Pow2(n - 2));
    }
  }

  lemma DivTwice(b: nat, t: nat, p: nat)
    requires b <= 1 && p > 0
    ensures (b + 2 * t) / (2 * p) == t / p
  {
    DivMod(t, p);
    MulTwo(p, t / p);
    assert 2 * p * (t / p) == 2 * (p * (t / p));
    DivUnique(b + 2 * t, 2 * p, t / p, b + 2 * (t % p));
  }

  lemma TurnValue(w: bv32)
    ensures Value(Turn(w)) == Value(w) / Pow2(31) + 2 * (Value(w) % Pow2(31))
  {
    hide *;
    ValueTop(w);
    ValueTop(Turn(w));
    TurnTop(w, 31);
    TopNext(Turn(w), 32);
    PlaceLowest();
    PlaceHighest();
    OneIs(Turn(w), 1);
    OneIs(w, 0x80000000);
    TurnLowest(w);
    Highest(w, 32);
  }
}
