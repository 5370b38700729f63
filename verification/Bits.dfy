/** Bit strings and the machine operations the codec applies to them.
    A stream of bytes is a stream of bits taken least significant bit first. */
module Bits {
  type byte = x: int | 0 <= x < 256

  function Pow2(n: nat): (r: nat)
    ensures r >= 1
  {
    if n == 0 then 1 else 2 * Pow2(n - 1)
  }

  /** v & ((1 << n) - 1). */
  function LowBits(v: nat, n: nat): nat { v % Pow2(n) }

  /** The n low bits of v, least significant first. */
  function ToBits(v: nat, n: nat): (s: seq<bool>)
    ensures |s| == n
  {
    if n == 0 then [] else [v % 2 == 1] + ToBits(v / 2, n - 1)
  }

  /** The number whose bits, least significant first, are s. */
  function Val(s: seq<bool>): nat {
    if s == [] then 0 else (if s[0] then 1 else 0) + 2 * Val(s[1..])
  }

  /** The number whose bits, most significant first, are s: how RFC 1951 reads a codeword. */
  function MsbVal(s: seq<bool>): nat {
    if s == [] then 0 else 2 * MsbVal(s[..|s| - 1]) + (if s[|s| - 1] then 1 else 0)
  }

  /** The n low bits of v, most significant first. */
  function MsbBits(v: nat, n: nat): (s: seq<bool>)
    ensures |s| == n
  {
    if n == 0 then [] else MsbBits(v / 2, n - 1) + [v % 2 == 1]
  }

  function Zeros(n: nat): (s: seq<bool>)
    ensures |s| == n
    ensures forall i :: 0 <= i < n ==> !s[i]
  {
    seq(n, _ => false)
  }

  /** Bitwise or and and of unsigned integers. */
  function Or(a: nat, b: nat): nat
    decreases a + b
  {
    if a == 0 then b else if b == 0 then a
    else (if a % 2 == 1 || b % 2 == 1 then 1 else 0) + 2 * Or(a / 2, b / 2)
  }

  function And(a: nat, b: nat): nat {
    if a == 0 || b == 0 then 0
    else (if a % 2 == 1 && b % 2 == 1 then 1 else 0) + 2 * And(a / 2, b / 2)
  }

  function Xor(a: nat, b: nat): nat
    decreases a + b
  {
    if a == 0 then b else if b == 0 then a
    else (if (a % 2 == 1) != (b % 2 == 1) then 1 else 0) + 2 * Xor(a / 2, b / 2)
  }

  function Shl(a: nat, n: nat): nat { a * Pow2(n) }

  function Shr(a: nat, n: nat): nat {
    if n == 0 then a else Shr(a / 2, n - 1)
  }

  function BytesToBits(s: seq<byte>): (t: seq<bool>)
    ensures |t| == 8 * |s|
  {
    if s == [] then [] else ToBits(s[0], 8) + BytesToBits(s[1..])
  }

  /** The first n pieces, one after the other. */
  function Joined(pieces: seq<seq<byte>>, n: nat): seq<byte>
    requires n <= |pieces|
  {
    if n == 0 then [] else Joined(pieces, n - 1) + pieces[n - 1]
  }

  lemma Assoc<T>(a: seq<T>, b: seq<T>, c: seq<T>)
    ensures (a + b) + c == a + (b + c)
  {}

  // ---- Powers of two

  lemma {:induction false} Pow2Add(a: nat, b: nat)
    ensures Pow2(a + b) == Pow2(a) * Pow2(b)
  {
    if a > 0 {
      Pow2Add(a - 1, b);
      calc {
        Pow2(a + b);
        2 * Pow2(a - 1 + b);
        2 * (Pow2(a - 1) * Pow2(b));
        (2 * Pow2(a - 1)) * Pow2(b);
      }
    }
  }

  lemma {:induction false} Pow2Monotone(a: nat, b: nat)
    requires a <= b
    ensures Pow2(a) <= Pow2(b)
    decreases b - a
  {
    if a < b { Pow2Monotone(a + 1, b); }
  }

  lemma {:induction false} Pow2Strict(a: nat, b: nat)
    requires a < b
    ensures 2 * Pow2(a) <= Pow2(b)
  {
    Pow2Monotone(a + 1, b);
  }

  lemma Pow2Values()
    ensures Pow2(1) == 2 && Pow2(2) == 4 && Pow2(3) == 8 && Pow2(4) == 16 && Pow2(5) == 32 && Pow2(6) == 64
    ensures Pow2(7) == 128 && Pow2(8) == 256 && Pow2(9) == 512 && Pow2(13) == 8192
    ensures Pow2(14) == 16384 && Pow2(15) == 32768 && Pow2(16) == 65536
  {
    assert Pow2(4) == 16 && Pow2(8) == 256 && Pow2(12) == 4096;
  }

  // ---- Division by a power of two, stated once so that callers need no nonlinear reasoning

  lemma DivMod(a: nat, m: nat)
    requires m > 0
    ensures a == m * (a / m) + a % m && 0 <= a % m < m && a / m >= 0
  {}

  lemma MulLt(a: nat, b: nat, c: nat)
    ensures a < b ==> a * c + c <= b * c
  {
    if a < b {
      var d: nat := b - a - 1;
      assert b == a + 1 + d;
      assert (a + 1 + d) * c == a * c + c + d * c;
      assert d * c >= 0;
    }
  }

  lemma MulLe(a: nat, b: nat, c: nat)
    requires a <= b
    ensures a * c <= b * c
  {}

  lemma ModSmall(a: nat, b: nat)
    requires a < b
    ensures a % b == a
  {}

  lemma DivUnique(a: nat, m: nat, q: nat, r: nat)
    requires a == m * q + r && r < m
    ensures a / m == q && a % m == r
  {
    DivMod(a, m);
    MulLt(a / m, q, m);
    MulLt(q, a / m, m);
  }

  lemma DivDiv(a: nat, m: nat, n: nat)
    requires m > 0 && n > 0
    ensures m * n > 0 && a / m / n == a / (m * n) && a % (m * n) == a % m + m * (a / m % n)
  {
    DivMod(a, m);
    DivMod(a / m, n);
    var q, r := a / m / n, a % m + m * (a / m % n);
    assert a == (m * n) * q + r by {
      calc {
        a;
        m * (a / m) + a % m;
        m * (n * q + a / m % n) + a % m;
        m * (n * q) + m * (a / m % n) + a % m;
        (m * n) * q + r;
      }
    }
    assert r < m * n by {
      assert m * (a / m % n) <= m * (n - 1);
    }
    DivUnique(a, m * n, q, r);
  }


  // ---- Values of bit strings

  lemma {:induction false} ValBound(s: seq<bool>)
    ensures Val(s) < Pow2(|s|)
  {
    if s != [] { ValBound(s[1..]); }
  }

  lemma {:induction false} ValToBits(v: nat, n: nat)
    ensures Val(ToBits(v, n)) == v % Pow2(n)
  {
    if n > 0 {
      ValToBits(v / 2, n - 1);
      assert ToBits(v, n)[1..] == ToBits(v / 2, n - 1);
      DivDiv(v, 2, Pow2(n - 1));
    }
  }

  lemma {:induction false} ToBitsVal(s: seq<bool>)
    ensures ToBits(Val(s), |s|) == s
  {
    if s != [] {
      ToBitsVal(s[1..]);
      assert Val(s) / 2 == Val(s[1..]);
      assert s == [s[0]] + s[1..];
    }
  }

  lemma {:induction false} ValConcat(s: seq<bool>, t: seq<bool>)
    ensures Val(s + t) == Val(s) + Pow2(|s|) * Val(t)
  {
    if s == [] {
      assert s + t == t;
    } else {
      ValConcat(s[1..], t);
      assert (s + t)[1..] == s[1..] + t;
      DoubleTerm(Pow2(|s| - 1), Val(t));
    }
  }

  lemma DoubleTerm(p: nat, v: nat)
    ensures 2 * (p * v) == (2 * p) * v
  {}

  /** Cutting a bit string at n is dividing its value by 2^n. */
  lemma ValSplit(s: seq<bool>, n: nat)
    requires n <= |s|
    ensures Val(s[..n]) == Val(s) % Pow2(n) && Val(s[n..]) == Val(s) / Pow2(n)
  {
    ValConcat(s[..n], s[n..]);
    assert s == s[..n] + s[n..];
    ValBound(s[..n]);
    DivUnique(Val(s), Pow2(n), Val(s[n..]), Val(s[..n]));
  }

  lemma {:induction false} ShrDiv(a: nat, n: nat)
    ensures Shr(a, n) == a / Pow2(n)
  {
    if n > 0 {
      ShrDiv(a / 2, n - 1);
      DivDiv(a, 2, Pow2(n - 1));
    }
  }

  lemma {:induction false} ShrNext(v: nat, n: nat)
    ensures Shr(v, n + 1) == Shr(v, n) / 2
  {
    if n > 0 { ShrNext(v / 2, n - 1); }
  }

  lemma {:induction false} ToBitsSplit(v: nat, m: nat, n: nat)
    ensures ToBits(v, m + n) == ToBits(v, m) + ToBits(Shr(v, m), n)
  {
    if m > 0 {
      ToBitsSplit(v / 2, m - 1, n);
    }
  }

  lemma ToBitsMod(v: nat, n: nat)
    ensures ToBits(v % Pow2(n), n) == ToBits(v, n)
  {
    ValToBits(v, n);
    ToBitsVal(ToBits(v, n));
  }

  /** Equal values of equal length are equal strings. */
  lemma ValInjective(s: seq<bool>, t: seq<bool>)
    requires |s| == |t| && Val(s) == Val(t)
    ensures s == t
  {
    ToBitsVal(s);
    ToBitsVal(t);
  }

  lemma {:induction false} ValZeros(n: nat)
    ensures Val(Zeros(n)) == 0
  {
    if n > 0 {
      ValZeros(n - 1);
      assert Zeros(n)[1..] == Zeros(n - 1);
    }
  }

  lemma {:induction false} MsbBound(s: seq<bool>)
    ensures MsbVal(s) < Pow2(|s|)
  {
    if s != [] { MsbBound(s[..|s| - 1]); }
  }

  lemma {:induction false} MsbConcat(s: seq<bool>, t: seq<bool>)
    ensures MsbVal(s + t) == MsbVal(s) * Pow2(|t|) + MsbVal(t)
  {
    if t == [] {
      assert s + t == s;
    } else {
      var u := t[..|t| - 1];
      MsbConcat(s, u);
      assert (s + t)[..|s + t| - 1] == s + u;
      calc {
        MsbVal(s + t);
        2 * MsbVal(s + u) + (if t[|t| - 1] then 1 else 0);
        2 * (MsbVal(s) * Pow2(|u|)) + 2 * MsbVal(u) + (if t[|t| - 1] then 1 else 0);
        { assert 2 * (MsbVal(s) * Pow2(|u|)) == MsbVal(s) * (2 * Pow2(|u|)); }
        MsbVal(s) * Pow2(|t|) + MsbVal(t);
      }
    }
  }

  lemma {:induction false} MsbOfBits(v: nat, n: nat)
    ensures MsbVal(MsbBits(v, n)) == v % Pow2(n)
  {
    if n > 0 {
      MsbOfBits(v / 2, n - 1);
      assert MsbBits(v, n)[..n - 1] == MsbBits(v / 2, n - 1);
      DivDiv(v, 2, Pow2(n - 1));
    }
  }

  lemma {:induction false} MsbBitsOfVal(s: seq<bool>)
    ensures MsbBits(MsbVal(s), |s|) == s
  {
    if s != [] {
      var u := s[..|s| - 1];
      MsbBitsOfVal(u);
      assert MsbVal(s) / 2 == MsbVal(u);
      assert s == u + [s[|s| - 1]];
    }
  }

  lemma MsbInjective(s: seq<bool>, t: seq<bool>)
    requires |s| == |t| && MsbVal(s) == MsbVal(t)
    ensures s == t
  {
    MsbBitsOfVal(s);
    MsbBitsOfVal(t);
  }

  // ---- Bitwise operations on disjoint or masked operands

  lemma {:induction false} OrCommutes(a: nat, b: nat)
    ensures Or(a, b) == Or(b, a)
    decreases a + b
  {
    if a > 0 && b > 0 { OrCommutes(a / 2, b / 2); }
  }

  lemma {:induction false} OrDisjoint(a: nat, b: nat, k: nat)
    requires a < Pow2(k)
    ensures Or(a, Shl(b, k)) == a + Shl(b, k)
    decreases k
  {
    if a != 0 && b != 0 {
      var b' := Shl(b, k);
      assert b' > 0;
      assert k > 0;
      assert b' == 2 * Shl(b, k - 1) by {
        assert b * (2 * Pow2(k - 1)) == 2 * (b * Pow2(k - 1));
      }
      OrDisjoint(a / 2, b, k - 1);
    }
  }

  lemma {:induction false} AndMask(a: nat, k: nat)
    ensures And(a, Pow2(k) - 1) == a % Pow2(k)
    decreases k
  {
    if k == 0 {
    } else if a == 0 {
    } else {
      var m := Pow2(k) - 1;
      assert m == 2 * (Pow2(k - 1) - 1) + 1;
      AndMask(a / 2, k - 1);
      DivDiv(a, 2, Pow2(k - 1));
    }
  }

  lemma AndOne(a: nat)
    ensures And(a, 1) == a % 2
  {
    Pow2Values();
    AndMask(a, 1);
  }

  /** Testing and flipping bit t. */
  lemma {:induction false} AndBit(s: seq<bool>, t: nat)
    requires t < |s|
    ensures And(Val(s), Pow2(t)) != 0 <==> s[t]
  {
    if t == 0 {
      assert And(Val(s) / 2, 0) == 0;
    } else {
      AndBit(s[1..], t - 1);
      assert Val(s) / 2 == Val(s[1..]);
    }
  }

  lemma {:induction false} XorBit(s: seq<bool>, t: nat)
    requires t < |s|
    ensures Xor(Val(s), Pow2(t)) == Val(s[t := !s[t]])
  {
    hide Xor, Pow2;
    var s' := s[t := !s[t]];
    XorStep(Val(s), Pow2(t));
    PowHalf(t);
    if t == 0 {
      assert s'[1..] == s[1..];
      XorZeros(Val(s) / 2);
    } else {
      XorBit(s[1..], t - 1);
      assert s'[1..] == s[1..][t - 1 := !s[1..][t - 1]];
    }
  }

  lemma Distribute(a: int, b: int, c: int)
    ensures (a + b) * c == a * c + b * c
  {}

  lemma MulOrder(a: nat, b: nat)
    ensures a * b == b * a
  {}

  lemma MulSum(a: nat, x: nat, y: nat)
    ensures a * (x + y) == a * x + a * y
  {}

  lemma MulTwo(a: nat, q: nat)
    ensures a * (2 * q) == 2 * (a * q)
  {}

  lemma XorZeros(a: nat)
    ensures Xor(a, 0) == a && Xor(0, a) == a
  {}

  lemma PowHalf(t: nat)
    ensures if t == 0 then Pow2(t) == 1 else Pow2(t) == 2 * Pow2(t - 1)
  {}

  lemma XorStep(a: nat, b: nat)
    ensures Xor(a, b) == (if (a % 2 == 1) != (b % 2 == 1) then 1 else 0) + 2 * Xor(a / 2, b / 2)
  {
    if a == 0 && b > 0 {
      assert Xor(0, b / 2) == b / 2;
    } else if b == 0 && a > 0 {
      assert Xor(a / 2, 0) == a / 2;
    }
  }

  lemma AndHalves(a: nat, b: nat)
    ensures And(a, b) / 2 == And(a / 2, b / 2) && (And(a, b) % 2 == 1 <==> a % 2 == 1 && b % 2 == 1)
  {}

  lemma OrHalves(a: nat, b: nat)
    ensures Or(a, b) / 2 == Or(a / 2, b / 2) && (Or(a, b) % 2 == 1 <==> a % 2 == 1 || b % 2 == 1)
  {}

  lemma XorHalves(a: nat, b: nat)
    ensures Xor(a, b) / 2 == Xor(a / 2, b / 2)
    ensures Xor(a, b) % 2 == 1 <==> (a % 2 == 1) != (b % 2 == 1)
  {
    XorStep(a, b);
    hide Xor;
  }

  /** Setting bit t of a string read most significant bit first. */
  lemma {:induction false} MsbSet(s: seq<bool>, t: nat)
    requires t < |s|
    ensures MsbVal(s[t := true]) == MsbVal(s[t := false]) + Pow2(|s| - 1 - t)
  {
    var n := |s| - 1;
    var a, b := s[t := true], s[t := false];
    if t == n {
      assert a[..n] == b[..n];
    } else {
      MsbSet(s[..n], t);
      assert a[..n] == s[..n][t := true] && b[..n] == s[..n][t := false];
    }
  }

  // ---- Byte strings as bit strings

  lemma {:induction false} BytesConcat(a: seq<byte>, b: seq<byte>)
    ensures BytesToBits(a + b) == BytesToBits(a) + BytesToBits(b)
  {
    if a == [] {
      assert a + b == b;
    } else {
      BytesConcat(a[1..], b);
      assert (a + b)[1..] == a[1..] + b && (a + b)[0] == a[0];
      Assoc(ToBits(a[0], 8), BytesToBits(a[1..]), BytesToBits(b));
      hide ToBits;
    }
  }

  lemma BytesAppend(a: seq<byte>, c: byte)
    ensures BytesToBits(a + [c]) == BytesToBits(a) + ToBits(c, 8)
  {
    BytesConcat(a, [c]);
    assert BytesToBits([c]) == ToBits(c, 8) + BytesToBits([]);
  }

  /** Byte i of a stream is its bits 8i to 8i+7. */
  lemma {:induction false} ByteAt(s: seq<byte>, i: nat)
    requires i < |s|
    ensures BytesToBits(s)[8 * i..8 * i + 8] == ToBits(s[i], 8)
  {
    var t := BytesToBits(s);
    assert t == ToBits(s[0], 8) + BytesToBits(s[1..]);
    if i == 0 {
      assert t[..8] == ToBits(s[0], 8);
    } else {
      ByteAt(s[1..], i - 1);
      assert t[8..] == BytesToBits(s[1..]);
      assert t[8 * i..8 * i + 8] == t[8..][8 * (i - 1)..8 * (i - 1) + 8];
    }
  }

  /** Appending `length` bits of `value` above the `k` bits of `buf`. */
  lemma AppendBits(buf: nat, k: nat, value: nat, length: nat)
    requires buf < Pow2(k)
    ensures ToBits(buf + Shl(value, k), k + length) == ToBits(buf, k) + ToBits(value, length)
  {
    var t := buf + Shl(value, k);
    DivUnique(t, Pow2(k), value, buf);
    ShrDiv(t, k);
    ToBitsSplit(t, k, length);
    ToBitsMod(t, k);
  }

  lemma ShlIs(a: nat, n: nat)
    ensures Shl(a, n) == a * Pow2(n)
  {}

  /** Bit i of a word of n bits. */
  predicate HasBit(a: nat, n: nat, i: nat)
    requires i < n
  {
    ToBits(a, n)[i]
  }

  lemma HasBitNext(a: nat, n: nat, i: nat)
    requires i < n
    ensures HasBit(a, n, i) <==> if i == 0 then a % 2 == 1 else HasBit(a / 2, n - 1, i - 1)
  {}

  lemma {:induction false} OpBits(a: nat, b: nat, n: nat, i: nat)
    requires i < n
    ensures HasBit(Xor(a, b), n, i) <==> HasBit(a, n, i) != HasBit(b, n, i)
    ensures HasBit(And(a, b), n, i) <==> HasBit(a, n, i) && HasBit(b, n, i)
    ensures HasBit(Or(a, b), n, i) <==> HasBit(a, n, i) || HasBit(b, n, i)
    decreases n
  {
    hide *;
    XorHalves(a, b);
    AndHalves(a, b);
    OrHalves(a, b);
    HasBitNext(a, n, i);
    HasBitNext(b, n, i);
    HasBitNext(Xor(a, b), n, i);
    HasBitNext(And(a, b), n, i);
    HasBitNext(Or(a, b), n, i);
    if i > 0 { OpBits(a / 2, b / 2, n - 1, i - 1); }
  }

  const TWO32: nat := 0x1_0000_0000

  lemma WordSize()
    ensures Pow2(32) == TWO32
  {
    Pow2Values();
    Pow2Add(16, 16);
  }
}
