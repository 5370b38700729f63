/** Check values: those of single files, and the one that a file has when its own check value is at its end. */
module CrcValues {
  import opened Bits
  import opened MachineWords
  import opened Crc

  // ---- The register as a machine word

  function ShiftWord(c: bv32): bv32 { if Bit(c, 1) then XorWord(Down(c), 0xedb88320) else Down(c) }

  function EightShifts(c: bv32): bv32 {
    ShiftWord(ShiftWord(ShiftWord(ShiftWord(ShiftWord(ShiftWord(ShiftWord(ShiftWord(c))))))))
  }

  lemma PatternValue()
    ensures Value(0xedb88320) == PATTERN
  {}

  lemma ShiftValue(c: bv32)
    ensures Value(ShiftWord(c)) == Shift(Value(c))
  {
    hide *;
    ShiftIs(Value(c));
    DownValue(c);
    PatternValue();
    BitValues(Down(c), 0xedb88320);
    ShiftWordIs(c);
  }

  lemma ShiftWordIs(c: bv32)
    ensures ShiftWord(c) == if Bit(c, 1) then XorWord(Down(c), 0xedb88320) else Down(c)
  {}

  lemma ShiftsNext(c: nat, n: nat)
    requires n > 0
    ensures Shifts(c, n) == Shifts(Shift(c), n - 1)
  {}

  lemma {:induction false} ShiftsAdd(c: nat, m: nat, n: nat)
    ensures Shifts(c, m + n) == Shifts(Shifts(c, m), n)
    decreases m
  {
    hide Shift;
    if m > 0 { ShiftsAdd(Shift(c), m - 1, n); }
  }

  lemma EightValue(c: bv32)
    ensures Value(EightShifts(c)) == Shifts(Value(c), 8)
  {
    hide *;
    var c1 := ShiftWord(c);
    var c2 := ShiftWord(c1);
    var c3 := ShiftWord(c2);
    var c4 := ShiftWord(c3);
    var c5 := ShiftWord(c4);
    var c6 := ShiftWord(c5);
    var c7 := ShiftWord(c6);
    ShiftValue(c);
    ShiftValue(c1);
    ShiftValue(c2);
    ShiftValue(c3);
    ShiftValue(c4);
    ShiftValue(c5);
    ShiftValue(c6);
    ShiftValue(c7);
    ShiftsNext(Value(c), 8);
    ShiftsNext(Value(c1), 7);
    ShiftsNext(Value(c2), 6);
    ShiftsNext(Value(c3), 5);
    ShiftsNext(Value(c4), 4);
    ShiftsNext(Value(c5), 3);
    ShiftsNext(Value(c6), 2);
    ShiftsNext(Value(c7), 1);
    ShiftsNone(Value(ShiftWord(c7)));
    EightIs(c);
  }

  lemma EightIs(c: bv32)
    ensures EightShifts(c) == ShiftWord(ShiftWord(ShiftWord(ShiftWord(ShiftWord(ShiftWord(ShiftWord(ShiftWord(c))))))))
  {
    hide ShiftWord;
  }

  /** The register of ones after eight, and after 32 shifts. */
  lemma OnesShifted()
    ensures EightShifts(0xffffffff) == 0x2dfd1072 && EightShifts(0x2dfd1072) == 0xbe26ed00
    ensures EightShifts(0xbe26ed00) == 0x00be26ed && EightShifts(0x00be26ed) == 0xdebb20e3
  {}

  lemma OnesValues()
    ensures Value(0xffffffff) == ONES == 0xffffffff && Value(0xdebb20e3) == 0xdebb20e3 && Value(0x2144df1c) == 0x2144df1c
    ensures Value(0x2dfd1072) == 0x2dfd1072 && Value(0xd202ef8d) == 0xd202ef8d && ONES < TWO32
  {}

  lemma Complements()
    ensures XorWord(0xdebb20e3, 0xffffffff) == 0x2144df1c && XorWord(0x2dfd1072, 0xffffffff) == 0xd202ef8d
  {}

  lemma OnesAfter()
    ensures Shifts(ONES, 8) == 0x2dfd1072 && Shifts(ONES, 32) == 0xdebb20e3
    ensures Xor(0xdebb20e3, ONES) == 0x2144df1c && Xor(0x2dfd1072, ONES) == 0xd202ef8d
  {
    hide *;
    OnesValues();
    OnesShifted();
    Complements();
    EightValue(0xffffffff);
    EightValue(0x2dfd1072);
    EightValue(0xbe26ed00);
    EightValue(0x00be26ed);
    ShiftsAdd(ONES, 8, 24);
    ShiftsAdd(Shifts(ONES, 8), 8, 16);
    ShiftsAdd(Shifts(Shifts(ONES, 8), 8), 8, 8);
    BitValues(0xdebb20e3, 0xffffffff);
    BitValues(0x2dfd1072, 0xffffffff);
  }

  /** The register starts with ones and is complemented at the end: a single zero byte has the check value of eight shifts. */
  lemma ZeroByte()
    ensures Check([0]) == 0xd202ef8d
  {
    hide *;
    OnesAfter();
    XorZeros(ONES);
    CheckIs([0]);
    RegisterFirst(ONES, [0]);
    RegisterEmpty(Shifts(Xor(ONES, 0), 8), [0]);
  }

  lemma CheckIs(s: seq<byte>)
    ensures Check(s) == Xor(Register(ONES, s), ONES)
  {}

  lemma RegisterFirst(c: nat, s: seq<byte>)
    requires s != []
    ensures Register(c, s) == Register(Shifts(Xor(c, s[0]), 8), s[1..])
  {}

  lemma RegisterEmpty(c: nat, s: seq<byte>)
    requires |s| == 1
    ensures Register(c, s[1..]) == c
  {}

  // ---- A file with its own check value at its end

  /** The n bytes of v, low byte first. */
  function LowBytes(v: nat, n: nat): (s: seq<byte>)
    ensures |s| == n
  {
    if n == 0 then [] else [v % 256] + LowBytes(v / 256, n - 1)
  }

  lemma LowBytesNext(v: nat, n: nat)
    requires n > 0
    ensures LowBytes(v, n) != [] && LowBytes(v, n)[0] == v % 256 && LowBytes(v, n)[1..] == LowBytes(v / 256, n - 1)
  {}

  /** Feeding the bytes of a word is adding the word and shifting it through. */
  lemma {:induction false} FeedBytes(c: nat, v: nat, n: nat)
    requires v < Pow2(8 * n)
    ensures Register(c, LowBytes(v, n)) == Shifts(Xor(c, v), 8 * n)
    decreases n
  {
    hide *;
    if n == 0 {
      XorZeros(c);
      NoBytes(c, v);
    } else {
      LowBytesNext(v, n);
      RegisterFirst(c, LowBytes(v, n));
      HighByte(v, n);
      FeedBytes(Shifts(Xor(c, v % 256), 8), v / 256, n - 1);
      WholeWord(c, v);
      ShiftsAdd(Xor(c, v), 8, 8 * (n - 1));
    }
  }

  lemma NoBytes(c: nat, v: nat)
    ensures Register(c, LowBytes(v, 0)) == c && Shifts(c, 8 * 0) == c && (v < Pow2(8 * 0) ==> v == 0)
  {}

  lemma HighByte(v: nat, n: nat)
    requires n > 0 && v < Pow2(8 * n)
    ensures v / 256 < Pow2(8 * (n - 1))
  {
    Pow2Add(8, 8 * (n - 1));
    Pow2Values();
    hide Pow2;
  }

  /** The bytes above the lowest only move down while that one is shifted out. */
  lemma WholeWord(c: nat, v: nat)
    ensures Xor(Shifts(Xor(c, v % 256), 8), v / 256) == Shifts(Xor(c, v), 8)
  {
    hide *;
    ByteSplit(v);
    XorDisjoint(v % 256, v / 256, 8);
    XorAssociates(c, v % 256, Shl(v / 256, 8));
    ShiftsLinear(Xor(c, v % 256), Shl(v / 256, 8), 8);
    ShiftsOut(v / 256, 8);
  }

  // ---- The register stays a word

  lemma {:induction false} XorRange(a: nat, b: nat, n: nat)
    requires a < Pow2(n) && b < Pow2(n)
    ensures Xor(a, b) < Pow2(n)
    decreases n
  {
    hide Xor;
    XorZeros(a);
    if n > 0 {
      XorStep(a, b);
      XorRange(a / 2, b / 2, n - 1);
    }
  }

  lemma ShiftRange(c: nat)
    requires c < TWO32
    ensures Shift(c) < TWO32
  {
    hide *;
    WordSize();
    ShiftIs(c);
    PatternRange();
    XorRange(c / 2, PATTERN, 32);
  }

  lemma PatternRange()
    ensures PATTERN < TWO32
  {}

  lemma {:induction false} ShiftsRange(c: nat, n: nat)
    requires c < TWO32
    ensures Shifts(c, n) < TWO32
    decreases n
  {
    hide Shift;
    if n > 0 {
      ShiftRange(c);
      ShiftsRange(Shift(c), n - 1);
    }
  }

  lemma {:induction false} RegisterRange(c: nat, s: seq<byte>)
    requires c < TWO32
    ensures Register(c, s) < TWO32
    decreases |s|
  {
    hide Shifts, Xor, Pow2;
    if s != [] {
      WordSize();
      XorRange(c, s[0], 32);
      ShiftsRange(Xor(c, s[0]), 8);
      RegisterRange(Shifts(Xor(c, s[0]), 8), s[1..]);
    }
  }

  /** Any byte string, followed by its own check value with the low byte first, has this check value. */
  lemma Residue(s: seq<byte>)
    ensures Check(s) < TWO32 && Check(s + LowBytes(Check(s), 4)) == 0x2144df1c
  {
    hide *;
    WordSize();
    OnesValues();
    OnesAfter();
    CheckIs(s);
    var c, v := Register(ONES, s), Check(s);
    RegisterRange(ONES, s);
    XorRange(c, ONES, 32);
    CheckIs(s + LowBytes(v, 4));
    RegisterConcat(ONES, s, LowBytes(v, 4));
    FeedBytes(c, v, 4);
    XorAssociates(c, c, ONES);
    XorSelf(c);
    XorZeros(ONES);
  }
}
