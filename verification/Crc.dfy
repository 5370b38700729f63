/** updcrc: the cyclic redundancy check of section 8 of RFC 1952, by table and by shift register. */
module Crc {
  import opened Bits

  /** The polynomial's exclusive-or pattern, and a register of ones. */
  const PATTERN: nat := 0xedb88320
  const ONES: nat := 0xffffffff

  // ---- The shift register

  /** One shift. */
  function Shift(c: nat): nat {
    if And(c, 1) != 0 then Xor(c / 2, PATTERN) else c / 2
  }

  function Shifts(c: nat, n: nat): nat
    decreases n
  {
    if n == 0 then c else Shifts(Shift(c), n - 1)
  }

  /** The register after the bytes of s. */
  function Register(c: nat, s: seq<byte>): nat
    decreases |s|
  {
    if s == [] then c else Register(Shifts(Xor(c, s[0]), 8), s[1..])
  }

  /** The check value of a byte string. */
  function Check(s: seq<byte>): nat { Xor(Register(ONES, s), ONES) }

  // ---- Exclusive or

  lemma {:induction false} XorCommutes(a: nat, b: nat)
    ensures Xor(a, b) == Xor(b, a)
    decreases a + b
  {
    if a > 0 && b > 0 { XorCommutes(a / 2, b / 2); }
  }

  lemma {:induction false} XorSelf(a: nat)
    ensures Xor(a, a) == 0
  {
    if a > 0 { XorSelf(a / 2); }
  }

  lemma {:induction false} XorAssociates(a: nat, b: nat, c: nat)
    ensures Xor(Xor(a, b), c) == Xor(a, Xor(b, c))
    decreases a + b + c
  {
    if a > 0 && b > 0 && c > 0 {
      XorAssociates(a / 2, b / 2, c / 2);
      XorHalves(a, b);
      XorHalves(b, c);
      XorStep(Xor(a, b), c);
      XorStep(a, Xor(b, c));
      hide Xor;
    }
  }

  /** Two terms with a common part: it cancels. */
  lemma XorCancels(a: nat, b: nat, e: nat)
    ensures Xor(Xor(a, e), Xor(b, e)) == Xor(a, b)
  {
    XorCommutes(b, e);
    XorAssociates(a, e, Xor(e, b));
    XorAssociates(e, e, b);
    XorSelf(e);
    XorZeros(b);
    hide Xor;
  }

  lemma XorMoves(a: nat, b: nat, e: nat)
    ensures Xor(Xor(a, e), b) == Xor(Xor(a, b), e) && Xor(a, Xor(b, e)) == Xor(Xor(a, b), e)
  {
    XorAssociates(a, e, b);
    XorCommutes(e, b);
    XorAssociates(a, b, e);
    hide Xor;
  }

  // ---- Linearity

  lemma ShiftIs(c: nat)
    ensures Shift(c) == if c % 2 == 1 then Xor(c / 2, PATTERN) else c / 2
  {
    Pow2Values();
    AndMask(c, 1);
    hide Xor, And;
  }

  lemma ShiftLinear(a: nat, b: nat)
    ensures Shift(Xor(a, b)) == Xor(Shift(a), Shift(b))
  {
    hide *;
    ShiftIs(a);
    ShiftIs(b);
    ShiftIs(Xor(a, b));
    XorHalves(a, b);
    XorCancels(a / 2, b / 2, PATTERN);
    XorMoves(a / 2, b / 2, PATTERN);
  }

  lemma {:induction false} ShiftsLinear(a: nat, b: nat, n: nat)
    ensures Shifts(Xor(a, b), n) == Xor(Shifts(a, n), Shifts(b, n))
    decreases n
  {
    hide Shift, Xor;
    if n > 0 {
      ShiftLinear(a, b);
      ShiftsLinear(Shift(a), Shift(b), n - 1);
    }
  }

  lemma {:induction false} ShiftsOut(h: nat, n: nat)
    ensures Shifts(Shl(h, n), n) == h
  {
    if n > 0 {
      ShiftIs(Shl(h, n));
      assert Shl(h, n) == 2 * Shl(h, n - 1) by { MulTwo(h, Pow2(n - 1)); }
      ShiftsOut(h, n - 1);
      hide Shift, Shl;
    } else {
      assert Shl(h, 0) == h;
    }
  }

  lemma {:induction false} XorDisjoint(a: nat, b: nat, k: nat)
    requires a < Pow2(k)
    ensures Xor(a, Shl(b, k)) == a + Shl(b, k)
    decreases k
  {
    if a != 0 && b != 0 {
      assert k > 0;
      assert Shl(b, k) == 2 * Shl(b, k - 1) by { MulTwo(b, Pow2(k - 1)); }
      XorDisjoint(a / 2, b, k - 1);
      XorStep(a, Shl(b, k));
      hide Xor, Shl;
    } else {
      XorZeros(a);
      if b == 0 { assert Shl(b, k) == 0; }
    }
  }

  /** Eight shifts: the low byte goes through the table, the rest moves down. */
  lemma TableStep(c: nat)
    ensures Shifts(c, 8) == Xor(Shifts(c % 256, 8), c / 256)
  {
    hide *;
    ByteSplit(c);
    XorDisjoint(c % 256, c / 256, 8);
    ShiftsLinear(c % 256, Shl(c / 256, 8), 8);
    ShiftsOut(c / 256, 8);
  }

  lemma ByteSplit(c: nat)
    ensures c % 256 < Pow2(8) && c == c % 256 + Shl(c / 256, 8)
  {
    Pow2Values();
    hide Pow2;
  }

  lemma {:induction false} HighPart(c: nat, b: byte, n: nat)
    requires n <= 8
    ensures Shr(Xor(c, b), n) == Xor(Shr(c, n), Shr(b, n))
  {
    if n > 0 {
      ShrNext(c, n - 1);
      ShrNext(b, n - 1);
      ShrNext(Xor(c, b), n - 1);
      HighPart(c, b, n - 1);
      XorHalves(Shr(c, n - 1), Shr(b, n - 1));
      hide Xor, Shr;
    }
  }

  /** One byte by table: crc_32_tab[(c ^ b) & 0xff] ^ (c >> 8). */
  lemma ByTable(c: nat, b: byte)
    ensures Xor(Shifts(And(Xor(c, b), 255), 8), Shr(c, 8)) == Shifts(Xor(c, b), 8)
    ensures And(Xor(c, b), 255) < 256
  {
    Pow2Values();
    AndMask(Xor(c, b), 8);
    ShrDiv(Xor(c, b), 8);
    ShrDiv(b, 8);
    HighPart(c, b, 8);
    XorZeros(Shr(c, 8));
    TableStep(Xor(c, b));
    hide Shifts, Xor, And, Shr, Pow2;
  }

  // ---- Chunks

  /** The register does not depend on how the bytes are cut into pieces. */
  lemma {:induction false} RegisterConcat(c: nat, a: seq<byte>, b: seq<byte>)
    ensures Register(c, a + b) == Register(Register(c, a), b)
    decreases |a|
  {
    hide Shifts, Xor;
    if a == [] {
      assert a + b == b;
    } else {
      RegisterConcat(Shifts(Xor(c, a[0]), 8), a[1..], b);
      assert (a + b)[0] == a[0] && (a + b)[1..] == a[1..] + b;
    }
  }

  // ---- The exclusive-or pattern

  /** The terms of the polynomial, except x^32. */
  const TERMS: seq<nat> := [0, 1, 2, 4, 5, 7, 8, 10, 11, 12, 16, 22, 23, 26]

  /** The sum of the first n terms as bits of the pattern. */
  function TermSum(n: nat): nat
    requires n <= |TERMS|
  {
    if n == 0 then 0 else TermSum(n - 1) + Pow2(31 - TERMS[n - 1])
  }

  lemma TermOrder()
    ensures |TERMS| == 14 && forall i :: 0 <= i < 14 ==> TERMS[i] <= 31
    ensures forall i :: 0 <= i < 13 ==> TERMS[i] < TERMS[i + 1]
  {}

  /** The terms so far are multiples of a higher power of two than the next one. */
  lemma {:induction false} TermSumHigh(n: nat) returns (q: nat)
    requires 1 <= n <= |TERMS|
    ensures TermSum(n) == Shl(q, 31 - TERMS[n - 1])
  {
    hide *;
    TermOrder();
    TermStep(n);
    if n == 1 {
      q := 1;
      NoTerms(0);
    } else {
      var p := TermSumHigh(n - 1);
      var k: nat, b: nat := TERMS[n - 1] - TERMS[n - 2], 31 - TERMS[n - 1];
      Pow2Add(k, b);
      q := p * Pow2(k) + 1;
      assert k + b == 31 - TERMS[n - 2];
      ShlIs(p, k + b);
      ShiftMore(p, Pow2(k), Pow2(b));
    }
    ShlIs(q, 31 - TERMS[n - 1]);
  }

  lemma TermStep(n: nat)
    requires 1 <= n <= |TERMS|
    ensures TERMS[n - 1] <= 31 && TermSum(n) == TermSum(n - 1) + Pow2(31 - TERMS[n - 1])
  {
    TermOrder();
  }

  lemma ShiftMore(p: nat, a: nat, b: nat)
    ensures (p * a + 1) * b == p * (a * b) + b
  {
    assert (p * a) * b == p * (a * b);
  }

  lemma TermAdded(n: nat)
    requires n < |TERMS|
    ensures TERMS[n] <= 31 && Or(TermSum(n), Pow2(31 - TERMS[n])) == TermSum(n + 1)
  {
    hide Or, Pow2, TermSum;
    TermOrder();
    TermStep(n + 1);
    var b: nat := 31 - TERMS[n];
    if n > 0 {
      var q := TermSumHigh(n);
      var a: nat := 31 - TERMS[n - 1];
      Pow2Strict(b, a);
      OrDisjoint(Pow2(b), q, a);
      OrCommutes(TermSum(n), Pow2(b));
    } else {
      NoTerms(Pow2(b));
    }
  }

  lemma NoTerms(a: nat)
    ensures TermSum(0) == 0 && Or(0, a) == a
  {}

  lemma TermTotal()
    ensures TermSum(14) == PATTERN
  {
    hide Pow2;
    Pow2High();
    assert TermSum(4) == Pow2(31) + Pow2(30) + Pow2(29) + Pow2(27);
    assert TermSum(8) == TermSum(4) + Pow2(26) + Pow2(24) + Pow2(23) + Pow2(21);
    assert TermSum(12) == TermSum(8) + Pow2(20) + Pow2(19) + Pow2(15) + Pow2(9);
  }

  lemma Pow2High()
    ensures Pow2(31) == 0x80000000 && Pow2(30) == 0x40000000 && Pow2(29) == 0x20000000 && Pow2(27) == 0x8000000
    ensures Pow2(26) == 0x4000000 && Pow2(24) == 0x1000000 && Pow2(23) == 0x800000 && Pow2(21) == 0x200000
    ensures Pow2(20) == 0x100000 && Pow2(19) == 0x80000 && Pow2(15) == 0x8000 && Pow2(9) == 0x200
    ensures Pow2(8) == 0x100 && Pow2(5) == 0x20
  {
    Pow2Values();
    assert Pow2(20) == 0x100000 && Pow2(24) == 0x1000000;
    assert Pow2(28) == 0x10000000;
  }

  // ---- updcrc

  class Checker {
    /** Shift register contents. */
    var crc: nat
    var table: seq<nat>

    ghost predicate Valid()
      reads this
    {
      |table| == 256 && forall i :: 0 <= i < 256 ==> table[i] == Shifts(i, 8)
    }

    constructor ()
      ensures Valid() && crc == ONES
    {
      crc := ONES;
      new;
      MakeTable();
    }

    /** The pattern from the polynomial, and the table of the register after each byte. */
    method MakeTable()
      modifies this`table
      ensures Valid()
    {
      hide Shifts, Shift, Xor, Or, And, Pow2;
      var e: nat, i: nat := 0, 0;
      TermOrder();
      while i < |TERMS|
        invariant 0 <= i <= |TERMS| && e == TermSum(i)
      {
        TermAdded(i);
        e := Or(e, Pow2(31 - TERMS[i]));
        i := i + 1;
      }
      TermTotal();
      table := seq(256, _ => 0);
      ZeroShifts(8);
      i := 1;
      while i < 256
        invariant 1 <= i <= 256 && |table| == 256 && forall j :: 0 <= j < i ==> table[j] == Shifts(j, 8)
      {
        var c: nat, k: nat := i, 8;
        while k > 0
          invariant 0 <= k <= 8 && Shifts(c, k) == Shifts(i, 8) && e == PATTERN
          invariant |table| == 256 && forall j :: 0 <= j < i ==> table[j] == Shifts(j, 8)
        {
          ShiftsFirst(c, k);
          c := if And(c, 1) != 0 then Xor(c / 2, e) else c / 2;
          k := k - 1;
        }
        ShiftsNone(c);
        table := table[i := c];
        i := i + 1;
      }
    }

    /** Run the bytes through the register, or reset it when there are none to run (None). */
    method UpdCrc(s: seq<byte>, reset: bool) returns (r: nat)
      requires Valid()
      modifies this`crc
      ensures Valid() && crc == (if reset then ONES else Register(old(crc), s)) && r == Xor(crc, ONES)
    {
      hide Shifts, Xor, And, Shr;
      var c := ONES;
      if !reset {
        c := crc;
        var n: nat := 0;
        assert s[0..] == s;
        while n < |s|
          invariant 0 <= n <= |s| && Register(c, s[n..]) == Register(crc, s)
          invariant Valid() && crc == old(crc)
        {
          ByTable(c, s[n]);
          RegisterNext(c, s, n);
          c := Xor(table[And(Xor(c, s[n]), 255)], Shr(c, 8));
          n := n + 1;
        }
        RegisterDone(c, s);
      }
      crc := c;
      r := Xor(c, ONES);
    }
  }

  lemma {:induction false} ZeroShifts(n: nat)
    ensures Shifts(0, n) == 0
  {
    if n > 0 {
      assert And(0, 1) == 0;
      ZeroShifts(n - 1);
    }
  }

  lemma ShiftsFirst(c: nat, k: nat)
    requires k > 0
    ensures Shifts(c, k) == Shifts(if And(c, 1) != 0 then Xor(c / 2, PATTERN) else c / 2, k - 1)
  {
    hide And, Xor;
  }

  lemma ShiftsNone(c: nat)
    ensures Shifts(c, 0) == c
  {}

  lemma RegisterNext(c: nat, s: seq<byte>, n: nat)
    requires n < |s|
    ensures Register(c, s[n..]) == Register(Shifts(Xor(c, s[n]), 8), s[n + 1..])
  {
    assert s[n..][1..] == s[n + 1..] && s[n..][0] == s[n];
    hide Shifts, Xor;
  }

  lemma RegisterDone(c: nat, s: seq<byte>)
    ensures Register(c, s[|s|..]) == c
  {}

  /** The check value of a file fed in pieces is that of the whole file. */
  method CheckPieces(pieces: seq<seq<byte>>) returns (r: nat)
    ensures r == Check(Joined(pieces, |pieces|))
  {
    hide Register, Xor;
    var crc := new Checker();
    r := crc.UpdCrc([], true);
    ghost var none: seq<byte> := [];
    RegisterDone(ONES, none);
    assert none[0..] == none;
    var i: nat := 0;
    while i < |pieces|
      invariant 0 <= i <= |pieces| && crc.Valid() && crc.crc == Register(ONES, Joined(pieces, i)) && r == Xor(crc.crc, ONES)
    {
      RegisterConcat(ONES, Joined(pieces, i), pieces[i]);
      r := crc.UpdCrc(pieces[i], false);
      i := i + 1;
    }
  }
}
