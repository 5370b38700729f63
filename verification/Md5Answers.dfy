/** MD5 in 32-bit machine words, and the digest that section A.5 of RFC 1321 gives for the letters of the alphabet. */
module Md5Answers {
  import opened Bits
  import opened MachineWords
  import opened Md5
  import opened Md5Bits

  // ---- The operations on machine words

  datatype Quad = Quad(a: bv32, b: bv32, c: bv32, d: bv32)

  function StateOf(q: Quad): State { State(Value(q.a), Value(q.b), Value(q.c), Value(q.d)) }

  function Mixed(r: nat, x: bv32, y: bv32, z: bv32): bv32 {
    if r == 0 then OrWord(AndWord(x, y), AndWord(NotWord(x), z))
    else if r == 1 then OrWord(AndWord(x, z), AndWord(y, NotWord(z)))
    else if r == 2 then XorWord(XorWord(x, y), z)
    else XorWord(y, OrWord(x, NotWord(z)))
  }

  function Turn2(w: bv32): bv32 { (w << 2) | (w >> 30) }

  function Turn4(w: bv32): bv32 { (w << 4) | (w >> 28) }

  function Turn8(w: bv32): bv32 { (w << 8) | (w >> 24) }

  function Turn16(w: bv32): bv32 { (w << 16) | (w >> 16) }

  /** Rotated left by n places. */
  function Rotated(w: bv32, n: nat): bv32
    requires n < 32
  {
    var w1 := if n % 2 == 1 then Turn(w) else w;
    var w2 := if n / 2 % 2 == 1 then Turn2(w1) else w1;
    var w4 := if n / 4 % 2 == 1 then Turn4(w2) else w2;
    var w8 := if n / 8 % 2 == 1 then Turn8(w4) else w4;
    if n / 16 == 1 then Turn16(w8) else w8
  }

  function Plus(x: bv32, y: bv32): bv32 { x + y }

  lemma PlusValue(x: bv32, y: bv32)
    ensures Value(Plus(x, y)) == (Value(x) + Value(y)) % TWO32
  {
    SumValue(x, y);
    hide Value;
  }

  /** One operation, with the word x, the constant t and rotation by n. */
  function Op(q: Quad, r: nat, x: bv32, n: nat, t: bv32): Quad
    requires n < 32
  {
    Quad(q.d, Plus(q.b, Rotated(Plus(Plus(Plus(q.a, Mixed(r, q.b, q.c, q.d)), x), t), n)), q.b, q.c)
  }

  lemma ValueWord(w: bv32)
    ensures Word(Value(w))
  {
    ValueRange(w);
    hide Value;
  }

  lemma MixedValue(r: nat, x: bv32, y: bv32, z: bv32)
    ensures Value(Mixed(r, x, y, z)) == RoundFunction(r, Value(x), Value(y), Value(z))
  {
    hide *;
    MixedIs(r, x, y, z);
    RoundFunctionIs(r, Value(x), Value(y), Value(z));
    ValueRange(x);
    ValueRange(z);
    NotIs(Value(x));
    NotIs(Value(z));
    BitValues(x, y);
    BitValues(x, z);
    BitValues(z, z);
    if r == 0 {
      BitValues(NotWord(x), z);
      BitValues(AndWord(x, y), AndWord(NotWord(x), z));
    } else if r == 1 {
      BitValues(y, NotWord(z));
      BitValues(AndWord(x, z), AndWord(y, NotWord(z)));
    } else if r == 2 {
      BitValues(XorWord(x, y), z);
    } else {
      BitValues(x, NotWord(z));
      BitValues(y, OrWord(x, NotWord(z)));
    }
  }

  lemma MixedIs(r: nat, x: bv32, y: bv32, z: bv32)
    ensures Mixed(r, x, y, z)
            == if r == 0 then OrWord(AndWord(x, y), AndWord(NotWord(x), z))
               else if r == 1 then OrWord(AndWord(x, z), AndWord(y, NotWord(z)))
               else if r == 2 then XorWord(XorWord(x, y), z)
               else XorWord(y, OrWord(x, NotWord(z)))
  {
    hide XorWord, AndWord, OrWord, NotWord;
  }

  lemma RoundFunctionIs(r: nat, x: nat, y: nat, z: nat)
    ensures RoundFunction(r, x, y, z)
            == if r == 0 then Or(And(x, y), And(Not(x), z))
               else if r == 1 then Or(And(x, z), And(y, Not(z)))
               else if r == 2 then Xor(Xor(x, y), z)
               else Xor(y, Or(x, Not(z)))
  {
    hide And, Or, Xor, Not;
  }

  lemma NotIs(a: nat)
    ensures a < TWO32 ==> Not(a) == TWO32 - 1 - a
  {}

  lemma TurnRotates(w: bv32)
    ensures Value(Turn(w)) == RotateLeft(Value(w), 1)
  {
    hide *;
    TurnValue(w);
    ValueWord(w);
    RotateSum(Value(w), 1);
    ShlIs(Value(w) % Pow2(31), 1);
    PowHalf(1);
    PowHalf(0);
  }

  lemma TurnsRotate(w: bv32)
    ensures Value(Turn2(w)) == RotateLeft(Value(w), 2) && Value(Turn4(w)) == RotateLeft(Value(w), 4)
  {
    hide *;
    TurnsAre(w);
    TurnsAre(Turn2(w));
    ValueWord(w);
    TurnRotates(w);
    TurnRotates(Turn(w));
    RotateTwice(Value(w), 1, 1);
    TurnRotates(Turn2(w));
    TurnRotates(Turn(Turn2(w)));
    ValueWord(Turn2(w));
    RotateTwice(Value(Turn2(w)), 1, 1);
    RotateTwice(Value(w), 2, 2);
  }

  lemma TurnsMore(w: bv32)
    ensures Value(Turn8(w)) == RotateLeft(Value(w), 8) && Value(Turn16(w)) == RotateLeft(Value(w), 16)
  {
    hide *;
    TurnsAre(w);
    TurnsAre(Turn8(w));
    ValueWord(w);
    TurnsRotate(w);
    TurnsRotate(Turn4(w));
    RotateTwice(Value(w), 4, 4);
    TurnsRotate(Turn8(w));
    TurnsRotate(Turn4(Turn8(w)));
    ValueWord(Turn8(w));
    RotateTwice(Value(Turn8(w)), 4, 4);
    RotateTwice(Value(w), 8, 8);
  }

  lemma Turn2Is(w: bv32)
    ensures Turn2(w) == Turn(Turn(w))
  {}

  lemma Turn4Is(w: bv32)
    ensures Turn4(w) == Turn2(Turn2(w))
  {}

  lemma Turn8Is(w: bv32)
    ensures Turn8(w) == Turn4(Turn4(w))
  {}

  lemma Turn16Is(w: bv32)
    ensures Turn16(w) == Turn8(Turn8(w))
  {}

  lemma TurnsAre(w: bv32)
    ensures Turn2(w) == Turn(Turn(w)) && Turn4(w) == Turn2(Turn2(w)) && Turn8(w) == Turn4(Turn4(w)) && Turn16(w) == Turn8(Turn8(w))
  {
    hide *;
    Turn2Is(w);
    Turn4Is(w);
    Turn8Is(w);
    Turn16Is(w);
  }

  /** Rotated by m, and then by d if the bit of n says so. */
  lemma RotateOn(w: bv32, v: bv32, u: bv32, m: nat, d: nat, more: bool)
    requires m + d <= 32 && Value(v) == RotateLeft(Value(w), m)
    requires Value(u) == if more then RotateLeft(Value(v), d) else Value(v)
    ensures Value(u) == RotateLeft(Value(w), if more then m + d else m)
  {
    hide *;
    ValueWord(w);
    RotateTwice(Value(w), m, d);
  }

  lemma RotatedValue(w: bv32, n: nat)
    requires n < 32
    ensures Value(Rotated(w, n)) == RotateLeft(Value(w), n)
  {
    hide *;
    RotatedIs(w, n);
    var w1 := if n % 2 == 1 then Turn(w) else w;
    var w2 := if n / 2 % 2 == 1 then Turn2(w1) else w1;
    var w4 := if n / 4 % 2 == 1 then Turn4(w2) else w2;
    var w8 := if n / 8 % 2 == 1 then Turn8(w4) else w4;
    Binary(n);
    ValueWord(w);
    RotateTwice(Value(w), 32, 0);
    TurnRotates(w);
    TurnsRotate(w1);
    TurnsRotate(w2);
    TurnsMore(w4);
    TurnsMore(w8);
    RotateOn(w, w1, w2, n % 2, 2, n / 2 % 2 == 1);
    RotateOn(w, w2, w4, n % 4, 4, n / 4 % 2 == 1);
    RotateOn(w, w4, w8, n % 8, 8, n / 8 % 2 == 1);
    RotateOn(w, w8, Rotated(w, n), n % 16, 16, n / 16 == 1);
  }

  lemma Binary(n: nat)
    requires n < 32
    ensures n % 4 == (if n / 2 % 2 == 1 then n % 2 + 2 else n % 2) && n % 8 == (if n / 4 % 2 == 1 then n % 4 + 4 else n % 4)
    ensures n % 16 == (if n / 8 % 2 == 1 then n % 8 + 8 else n % 8) && n == (if n / 16 == 1 then n % 16 + 16 else n % 16)
    ensures n % 2 <= 1 && n % 4 <= 3 && n % 8 <= 7 && n % 16 <= 15
  {
    Halves(n);
    Halves(n / 2);
    Halves(n / 4);
    Halves(n / 8);
    Quarters(n);
  }

  lemma Halves(n: nat)
    ensures n == 2 * (n / 2) + n % 2 && n % 2 <= 1
  {}

  lemma Quarters(n: nat)
    ensures n / 2 / 2 == n / 4 && n / 4 / 2 == n / 8 && n / 8 / 2 == n / 16
    ensures n == 4 * (n / 4) + n % 4 && n % 4 <= 3 && n == 8 * (n / 8) + n % 8 && n % 8 <= 7 && n == 16 * (n / 16) + n % 16 && n % 16 <= 15
  {}

  lemma RotatedIs(w: bv32, n: nat)
    requires n < 32
    ensures var w1 := if n % 2 == 1 then Turn(w) else w;
            var w2 := if n / 2 % 2 == 1 then Turn2(w1) else w1;
            var w4 := if n / 4 % 2 == 1 then Turn4(w2) else w2;
            var w8 := if n / 8 % 2 == 1 then Turn8(w4) else w4;
            Rotated(w, n) == if n / 16 == 1 then Turn16(w8) else w8
  {
    hide Turn, Turn2, Turn4, Turn8, Turn16;
  }

  lemma RotationRange(r: nat, i: nat)
    ensures Rotation(r, i) < 32
  {}

  /** What operation i of round r uses. */
  predicate Uses(X: seq<nat>, r: nat, i: nat, x: bv32, n: nat, t: bv32) {
    |X| == 16 && i < 16 && X[WordIndex(r, i)] == Value(x) && Rotation(r, i) == n && Sine(r, i) == Value(t)
  }

  /** One operation on words is that of the standard on the numbers they stand for. */
  lemma OpValue(q: Quad, X: seq<nat>, r: nat, i: nat, x: bv32, n: nat, t: bv32)
    requires Uses(X, r, i, x, n, t)
    ensures |X| == 16 && i < 16 && n < 32 && Operation(StateOf(q), X, r, i) == StateOf(Op(q, r, x, n, t))
  {
    hide *;
    UsesIs(X, r, i, x, n, t);
    var u := Plus(q.a, Mixed(r, q.b, q.c, q.d));
    var v := Plus(u, x);
    var w := Plus(v, t);
    MixedValue(r, q.b, q.c, q.d);
    PlusValue(q.a, Mixed(r, q.b, q.c, q.d));
    PlusValue(u, x);
    PlusValue(v, t);
    RotationRange(r, i);
    RotatedValue(w, n);
    PlusValue(q.b, Rotated(w, n));
    OpIs(q, r, x, n, t);
    StateOfIs(q);
    OpSum(StateOf(q), X, r, i, Value(u), Value(v), Value(w));
    StateOfIs(Op(q, r, x, n, t));
  }

  /** The operation, from the sums on its way. */
  lemma OpSum(s: State, X: seq<nat>, r: nat, i: nat, u: nat, v: nat, w: nat)
    requires |X| == 16 && i < 16 && Rotation(r, i) <= 32
    requires u == (s.a + RoundFunction(r, s.b, s.c, s.d)) % TWO32 && v == (u + X[WordIndex(r, i)]) % TWO32 && w == (v + Sine(r, i)) % TWO32
    ensures Operation(s, X, r, i) == State(s.d, (s.b + RotateLeft(w, Rotation(r, i))) % TWO32, s.b, s.c)
  {
    hide RotateLeft, RoundFunction, WordIndex, Rotation, Sine;
  }

  lemma UsesIs(X: seq<nat>, r: nat, i: nat, x: bv32, n: nat, t: bv32)
    ensures Uses(X, r, i, x, n, t)
            <==> |X| == 16 && i < 16 && X[WordIndex(r, i)] == Value(x) && Rotation(r, i) == n && Sine(r, i) == Value(t)
  {}

  lemma StateOfIs(q: Quad)
    ensures StateOf(q) == State(Value(q.a), Value(q.b), Value(q.c), Value(q.d))
  {}

  lemma OpIs(q: Quad, r: nat, x: bv32, n: nat, t: bv32)
    requires n < 32
    ensures Op(q, r, x, n, t) == Quad(q.d, Plus(q.b, Rotated(Plus(Plus(Plus(q.a, Mixed(r, q.b, q.c, q.d)), x), t), n)), q.b, q.c)
  {
    hide Plus, Rotated, Mixed;
  }

  // ---- One message: the letters of the alphabet

  /** The words of the padded message. */
  function LetterWords(): (X: seq<nat>)
    ensures |X| == 16
  {
    [0x64636261, 0x68676665, 0x6c6b6a69, 0x706f6e6d, 0x74737271, 0x78777675, 0x807a79, 0, 0, 0, 0, 0, 0, 0, 208, 0]
  }

  lemma Listing1a()
    ensures Uses(LetterWords(), 0, 0, 0x64636261, 7, 0xd76aa478)
    ensures Uses(LetterWords(), 0, 1, 0x68676665, 12, 0xe8c7b756)
    ensures Uses(LetterWords(), 0, 2, 0x6c6b6a69, 17, 0x242070db)
    ensures Uses(LetterWords(), 0, 3, 0x706f6e6d, 22, 0xc1bdceee)
  {}

  lemma Listing1b()
    ensures Uses(LetterWords(), 0, 4, 0x74737271, 7, 0xf57c0faf)
    ensures Uses(LetterWords(), 0, 5, 0x78777675, 12, 0x4787c62a)
    ensures Uses(LetterWords(), 0, 6, 0x00807a79, 17, 0xa8304613)
    ensures Uses(LetterWords(), 0, 7, 0x00000000, 22, 0xfd469501)
  {}

  lemma Listing1c()
    ensures Uses(LetterWords(), 0, 8, 0x00000000, 7, 0x698098d8)
    ensures Uses(LetterWords(), 0, 9, 0x00000000, 12, 0x8b44f7af)
    ensures Uses(LetterWords(), 0, 10, 0x00000000, 17, 0xffff5bb1)
    ensures Uses(LetterWords(), 0, 11, 0x00000000, 22, 0x895cd7be)
  {}

  lemma Listing1d()
    ensures Uses(LetterWords(), 0, 12, 0x00000000, 7, 0x6b901122)
    ensures Uses(LetterWords(), 0, 13, 0x00000000, 12, 0xfd987193)
    ensures Uses(LetterWords(), 0, 14, 0x000000d0, 17, 0xa679438e)
    ensures Uses(LetterWords(), 0, 15, 0x00000000, 22, 0x49b40821)
  {}

  lemma Trace1a()
    ensures Op(Quad(0x67452301, 0xefcdab89, 0x98badcfe, 0x10325476), 0, 0x64636261, 7, 0xd76aa478)
            == Quad(0x10325476, 0xd6d117a6, 0xefcdab89, 0x98badcfe)
    ensures Op(Quad(0x10325476, 0xd6d117a6, 0xefcdab89, 0x98badcfe), 0, 0x68676665, 12, 0xe8c7b756)
            == Quad(0x98badcfe, 0xaab1aaaa, 0xd6d117a6, 0xefcdab89)
    ensures Op(Quad(0x98badcfe, 0xaab1aaaa, 0xd6d117a6, 0xefcdab89), 0, 0x6c6b6a69, 17, 0x242070db)
            == Quad(0xefcdab89, 0x227d8cf1, 0xaab1aaaa, 0xd6d117a6)
    ensures Op(Quad(0xefcdab89, 0x227d8cf1, 0xaab1aaaa, 0xd6d117a6), 0, 0x706f6e6d, 22, 0xc1bdceee)
            == Quad(0xd6d117a6, 0x4503b812, 0x227d8cf1, 0xaab1aaaa)
  {}

  lemma Trace1b()
    ensures Op(Quad(0xd6d117a6, 0x4503b812, 0x227d8cf1, 0xaab1aaaa), 0, 0x74737271, 7, 0xf57c0faf)
            == Quad(0xaab1aaaa, 0xfe15f787, 0x4503b812, 0x227d8cf1)
    ensures Op(Quad(0xaab1aaaa, 0xfe15f787, 0x4503b812, 0x227d8cf1), 0, 0x78777675, 12, 0x4787c62a)
            == Quad(0x227d8cf1, 0xa811b278, 0xfe15f787, 0x4503b812)
    ensures Op(Quad(0x227d8cf1, 0xa811b278, 0xfe15f787, 0x4503b812), 0, 0x00807a79, 17, 0xa8304613)
            == Quad(0x4503b812, 0xb71122fc, 0xa811b278, 0xfe15f787)
    ensures Op(Quad(0x4503b812, 0xb71122fc, 0xa811b278, 0xfe15f787), 0, 0x00000000, 22, 0xfd469501)
            == Quad(0xfe15f787, 0xda9bbb0d, 0xb71122fc, 0xa811b278)
  {}

  lemma Trace1c()
    ensures Op(Quad(0xfe15f787, 0xda9bbb0d, 0xb71122fc, 0xa811b278), 0, 0x00000000, 7, 0x698098d8)
            == Quad(0xa811b278, 0xae752899, 0xda9bbb0d, 0xb71122fc)
    ensures Op(Quad(0xa811b278, 0xae752899, 0xda9bbb0d, 0xb71122fc), 0, 0x00000000, 12, 0x8b44f7af)
            == Quad(0xb71122fc, 0x2bbe757f, 0xae752899, 0xda9bbb0d)
    ensures Op(Quad(0xb71122fc, 0x2bbe757f, 0xae752899, 0xda9bbb0d), 0, 0x00000000, 17, 0xffff5bb1)
            == Quad(0xda9bbb0d, 0x7d4bd80b, 0x2bbe757f, 0xae752899)
    ensures Op(Quad(0xda9bbb0d, 0x7d4bd80b, 0x2bbe757f, 0xae752899), 0, 0x00000000, 22, 0x895cd7be)
            == Quad(0xae752899, 0x56cfa5cb, 0x7d4bd80b, 0x2bbe757f)
  {}

  lemma Trace1d()
    ensures Op(Quad(0xae752899, 0x56cfa5cb, 0x7d4bd80b, 0x2bbe757f), 0, 0x00000000, 7, 0x6b901122)
            == Quad(0x2bbe757f, 0x1754a316, 0x56cfa5cb, 0x7d4bd80b)
    ensures Op(Quad(0x2bbe757f, 0x1754a316, 0x56cfa5cb, 0x7d4bd80b), 0, 0x00000000, 12, 0xfd987193)
            == Quad(0x7d4bd80b, 0x85567d90, 0x1754a316, 0x56cfa5cb)
    ensures Op(Quad(0x7d4bd80b, 0x85567d90, 0x1754a316, 0x56cfa5cb), 0, 0x000000d0, 17, 0xa679438e)
            == Quad(0x56cfa5cb, 0x00df74d5, 0x85567d90, 0x1754a316)
    ensures Op(Quad(0x56cfa5cb, 0x00df74d5, 0x85567d90, 0x1754a316), 0, 0x00000000, 22, 0x49b40821)
            == Quad(0x1754a316, 0x608d6b7e, 0x00df74d5, 0x85567d90)
  {}

  lemma Listing2a()
    ensures Uses(LetterWords(), 1, 0, 0x68676665, 5, 0xf61e2562)
    ensures Uses(LetterWords(), 1, 1, 0x00807a79, 9, 0xc040b340)
    ensures Uses(LetterWords(), 1, 2, 0x00000000, 14, 0x265e5a51)
    ensures Uses(LetterWords(), 1, 3, 0x64636261, 20, 0xe9b6c7aa)
  {}

  lemma Listing2b()
    ensures Uses(LetterWords(), 1, 4, 0x78777675, 5, 0xd62f105d)
    ensures Uses(LetterWords(), 1, 5, 0x00000000, 9, 0x02441453)
    ensures Uses(LetterWords(), 1, 6, 0x00000000, 14, 0xd8a1e681)
    ensures Uses(LetterWords(), 1, 7, 0x74737271, 20, 0xe7d3fbc8)
  {}

  lemma Listing2c()
    ensures Uses(LetterWords(), 1, 8, 0x00000000, 5, 0x21e1cde6)
    ensures Uses(LetterWords(), 1, 9, 0x000000d0, 9, 0xc33707d6)
    ensures Uses(LetterWords(), 1, 10, 0x706f6e6d, 14, 0xf4d50d87)
    ensures Uses(LetterWords(), 1, 11, 0x00000000, 20, 0x455a14ed)
  {}

  lemma Listing2d()
    ensures Uses(LetterWords(), 1, 12, 0x00000000, 5, 0xa9e3e905)
    ensures Uses(LetterWords(), 1, 13, 0x6c6b6a69, 9, 0xfcefa3f8)
    ensures Uses(LetterWords(), 1, 14, 0x00000000, 14, 0x676f02d9)
    ensures Uses(LetterWords(), 1, 15, 0x00000000, 20, 0x8d2a4c8a)
  {}

  lemma Trace2a()
    ensures Op(Quad(0x1754a316, 0x608d6b7e, 0x00df74d5, 0x85567d90), 1, 0x68676665, 5, 0xf61e2562)
            == Quad(0x85567d90, 0x2d8071cc, 0x608d6b7e, 0x00df74d5)
    ensures Op(Quad(0x85567d90, 0x2d8071cc, 0x608d6b7e, 0x00df74d5), 1, 0x00807a79, 9, 0xc040b340)
            == Quad(0x00df74d5, 0x5dcee119, 0x2d8071cc, 0x608d6b7e)
    ensures Op(Quad(0x00df74d5, 0x5dcee119, 0x2d8071cc, 0x608d6b7e), 1, 0x00000000, 14, 0x265e5a51)
            == Quad(0x608d6b7e, 0xedfe7e4b, 0x5dcee119, 0x2d8071cc)
    ensures Op(Quad(0x608d6b7e, 0xedfe7e4b, 0x5dcee119, 0x2d8071cc), 1, 0x64636261, 20, 0xe9b6c7aa)
            == Quad(0x2d8071cc, 0x4c2145b3, 0xedfe7e4b, 0x5dcee119)
  {}

  lemma Trace2b()
    ensures Op(Quad(0x2d8071cc, 0x4c2145b3, 0xedfe7e4b, 0x5dcee119), 1, 0x78777675, 5, 0xd62f105d)
            == Quad(0x5dcee119, 0x570c43e0, 0x4c2145b3, 0xedfe7e4b)
    ensures Op(Quad(0x5dcee119, 0x570c43e0, 0x4c2145b3, 0xedfe7e4b), 1, 0x00000000, 9, 0x02441453)
            == Quad(0xedfe7e4b, 0x977efd2a, 0x570c43e0, 0x4c2145b3)
    ensures Op(Quad(0xedfe7e4b, 0x977efd2a, 0x570c43e0, 0x4c2145b3), 1, 0x00000000, 14, 0xd8a1e681)
            == Quad(0x4c2145b3, 0xc28ab49d, 0x977efd2a, 0x570c43e0)
    ensures Op(Quad(0x4c2145b3, 0xc28ab49d, 0x977efd2a, 0x570c43e0), 1, 0x74737271, 20, 0xe7d3fbc8)
            == Quad(0x570c43e0, 0xc9f162d4, 0xc28ab49d, 0x977efd2a)
  {}

  lemma Trace2c()
    ensures Op(Quad(0x570c43e0, 0xc9f162d4, 0xc28ab49d, 0x977efd2a), 1, 0x00000000, 5, 0x21e1cde6)
            == Quad(0x977efd2a, 0x25bfae3b, 0xc9f162d4, 0xc28ab49d)
    ensures Op(Quad(0x977efd2a, 0x25bfae3b, 0xc9f162d4, 0xc28ab49d), 1, 0x000000d0, 9, 0xc33707d6)
            == Quad(0xc28ab49d, 0x89980104, 0x25bfae3b, 0xc9f162d4)
    ensures Op(Quad(0xc28ab49d, 0x89980104, 0x25bfae3b, 0xc9f162d4), 1, 0x706f6e6d, 14, 0xf4d50d87)
            == Quad(0xc9f162d4, 0xf8c8365f, 0x89980104, 0x25bfae3b)
    ensures Op(Quad(0xc9f162d4, 0xf8c8365f, 0x89980104, 0x25bfae3b), 1, 0x00000000, 20, 0x455a14ed)
            == Quad(0x25bfae3b, 0xe6d3b398, 0xf8c8365f, 0x89980104)
  {}

  lemma Trace2d()
    ensures Op(Quad(0x25bfae3b, 0xe6d3b398, 0xf8c8365f, 0x89980104), 1, 0x00000000, 5, 0xa9e3e905)
            == Quad(0x89980104, 0xf54d8710, 0xe6d3b398, 0xf8c8365f)
    ensures Op(Quad(0x89980104, 0xf54d8710, 0xe6d3b398, 0xf8c8365f), 1, 0x6c6b6a69, 9, 0xfcefa3f8)
            == Quad(0xf8c8365f, 0x927b72e2, 0xf54d8710, 0xe6d3b398)
    ensures Op(Quad(0xf8c8365f, 0x927b72e2, 0xf54d8710, 0xe6d3b398), 1, 0x00000000, 14, 0x676f02d9)
            == Quad(0xe6d3b398, 0x2e69afc7, 0x927b72e2, 0xf54d8710)
    ensures Op(Quad(0xe6d3b398, 0x2e69afc7, 0x927b72e2, 0xf54d8710), 1, 0x00000000, 20, 0x8d2a4c8a)
            == Quad(0xf54d8710, 0xaeb35766, 0x2e69afc7, 0x927b72e2)
  {}

  lemma Listing3a()
    ensures Uses(LetterWords(), 2, 0, 0x78777675, 4, 0xfffa3942)
    ensures Uses(LetterWords(), 2, 1, 0x00000000, 11, 0x8771f681)
    ensures Uses(LetterWords(), 2, 2, 0x00000000, 16, 0x6d9d6122)
    ensures Uses(LetterWords(), 2, 3, 0x000000d0, 23, 0xfde5380c)
  {}

  lemma Listing3b()
    ensures Uses(LetterWords(), 2, 4, 0x68676665, 4, 0xa4beea44)
    ensures Uses(LetterWords(), 2, 5, 0x74737271, 11, 0x4bdecfa9)
    ensures Uses(LetterWords(), 2, 6, 0x00000000, 16, 0xf6bb4b60)
    ensures Uses(LetterWords(), 2, 7, 0x00000000, 23, 0xbebfbc70)
  {}

  lemma Listing3c()
    ensures Uses(LetterWords(), 2, 8, 0x00000000, 4, 0x289b7ec6)
    ensures Uses(LetterWords(), 2, 9, 0x64636261, 11, 0xeaa127fa)
    ensures Uses(LetterWords(), 2, 10, 0x706f6e6d, 16, 0xd4ef3085)
    ensures Uses(LetterWords(), 2, 11, 0x00807a79, 23, 0x04881d05)
  {}

  lemma Listing3d()
    ensures Uses(LetterWords(), 2, 12, 0x00000000, 4, 0xd9d4d039)
    ensures Uses(LetterWords(), 2, 13, 0x00000000, 11, 0xe6db99e5)
    ensures Uses(LetterWords(), 2, 14, 0x00000000, 16, 0x1fa27cf8)
    ensures Uses(LetterWords(), 2, 15, 0x6c6b6a69, 23, 0xc4ac5665)
  {}

  lemma Trace3a()
    ensures Op(Quad(0xf54d8710, 0xaeb35766, 0x2e69afc7, 0x927b72e2), 2, 0x78777675, 4, 0xfffa3942)
            == Quad(0x927b72e2, 0xb4bf680e, 0xaeb35766, 0x2e69afc7)
    ensures Op(Quad(0x927b72e2, 0xb4bf680e, 0xaeb35766, 0x2e69afc7), 2, 0x00000000, 11, 0x8771f681)
            == Quad(0x2e69afc7, 0x4c8ffa80, 0xb4bf680e, 0xaeb35766)
    ensures Op(Quad(0x2e69afc7, 0x4c8ffa80, 0xb4bf680e, 0xaeb35766), 2, 0x00000000, 16, 0x6d9d6122)
            == Quad(0xaeb35766, 0x2361ed0a, 0x4c8ffa80, 0xb4bf680e)
    ensures Op(Quad(0xaeb35766, 0x2361ed0a, 0x4c8ffa80, 0xb4bf680e), 2, 0x000000d0, 23, 0xfde5380c)
            == Quad(0xb4bf680e, 0x06a5e211, 0x2361ed0a, 0x4c8ffa80)
  {}

  lemma Trace3b()
    ensures Op(Quad(0xb4bf680e, 0x06a5e211, 0x2361ed0a, 0x4c8ffa80), 2, 0x68676665, 4, 0xa4beea44)
            == Quad(0x4c8ffa80, 0xb9c0c733, 0x06a5e211, 0x2361ed0a)
    ensures Op(Quad(0x4c8ffa80, 0xb9c0c733, 0x06a5e211, 0x2361ed0a), 2, 0x74737271, 11, 0x4bdecfa9)
            == Quad(0x2361ed0a, 0xf1e6dc7a, 0xb9c0c733, 0x06a5e211)
    ensures Op(Quad(0x2361ed0a, 0xf1e6dc7a, 0xb9c0c733, 0x06a5e211), 2, 0x00000000, 16, 0xf6bb4b60)
            == Quad(0x06a5e211, 0x23a9451b, 0xf1e6dc7a, 0xb9c0c733)
    ensures Op(Quad(0x06a5e211, 0x23a9451b, 0xf1e6dc7a, 0xb9c0c733), 2, 0x00000000, 23, 0xbebfbc70)
            == Quad(0xb9c0c733, 0x8d41bf99, 0x23a9451b, 0xf1e6dc7a)
  {}

  lemma Trace3c()
    ensures Op(Quad(0xb9c0c733, 0x8d41bf99, 0x23a9451b, 0xf1e6dc7a), 2, 0x00000000, 4, 0x289b7ec6)
            == Quad(0xf1e6dc7a, 0xa3e88ead, 0x8d41bf99, 0x23a9451b)
    ensures Op(Quad(0xf1e6dc7a, 0xa3e88ead, 0x8d41bf99, 0x23a9451b), 2, 0x64636261, 11, 0xeaa127fa)
            == Quad(0x23a9451b, 0x02c0b11c, 0xa3e88ead, 0x8d41bf99)
    ensures Op(Quad(0x23a9451b, 0x02c0b11c, 0xa3e88ead, 0x8d41bf99), 2, 0x706f6e6d, 16, 0xd4ef3085)
            == Quad(0x8d41bf99, 0x66f6468d, 0x02c0b11c, 0xa3e88ead)
    ensures Op(Quad(0x8d41bf99, 0x66f6468d, 0x02c0b11c, 0xa3e88ead), 2, 0x00807a79, 23, 0x04881d05)
            == Quad(0xa3e88ead, 0x90a35af5, 0x66f6468d, 0x02c0b11c)
  {}

  lemma Trace3d()
    ensures Op(Quad(0xa3e88ead, 0x90a35af5, 0x66f6468d, 0x02c0b11c), 2, 0x00000000, 4, 0xd9d4d039)
            == Quad(0x02c0b11c, 0xb5d41f9c, 0x90a35af5, 0x66f6468d)
    ensures Op(Quad(0x02c0b11c, 0xb5d41f9c, 0x90a35af5, 0x66f6468d), 2, 0x00000000, 11, 0xe6db99e5)
            == Quad(0x66f6468d, 0xa04b4904, 0xb5d41f9c, 0x90a35af5)
    ensures Op(Quad(0x66f6468d, 0xa04b4904, 0xb5d41f9c, 0x90a35af5), 2, 0x00000000, 16, 0x1fa27cf8)
            == Quad(0x90a35af5, 0x703d54d8, 0xa04b4904, 0xb5d41f9c)
    ensures Op(Quad(0x90a35af5, 0x703d54d8, 0xa04b4904, 0xb5d41f9c), 2, 0x6c6b6a69, 23, 0xc4ac5665)
            == Quad(0xb5d41f9c, 0x71d10367, 0x703d54d8, 0xa04b4904)
  {}

  lemma Listing4a()
    ensures Uses(LetterWords(), 3, 0, 0x64636261, 6, 0xf4292244)
    ensures Uses(LetterWords(), 3, 1, 0x00000000, 10, 0x432aff97)
    ensures Uses(LetterWords(), 3, 2, 0x000000d0, 15, 0xab9423a7)
    ensures Uses(LetterWords(), 3, 3, 0x78777675, 21, 0xfc93a039)
  {}

  lemma Listing4b()
    ensures Uses(LetterWords(), 3, 4, 0x00000000, 6, 0x655b59c3)
    ensures Uses(LetterWords(), 3, 5, 0x706f6e6d, 10, 0x8f0ccc92)
    ensures Uses(LetterWords(), 3, 6, 0x00000000, 15, 0xffeff47d)
    ensures Uses(LetterWords(), 3, 7, 0x68676665, 21, 0x85845dd1)
  {}

  lemma Listing4c()
    ensures Uses(LetterWords(), 3, 8, 0x00000000, 6, 0x6fa87e4f)
    ensures Uses(LetterWords(), 3, 9, 0x00000000, 10, 0xfe2ce6e0)
    ensures Uses(LetterWords(), 3, 10, 0x00807a79, 15, 0xa3014314)
    ensures Uses(LetterWords(), 3, 11, 0x00000000, 21, 0x4e0811a1)
  {}

  lemma Listing4d()
    ensures Uses(LetterWords(), 3, 12, 0x74737271, 6, 0xf7537e82)
    ensures Uses(LetterWords(), 3, 13, 0x00000000, 10, 0xbd3af235)
    ensures Uses(LetterWords(), 3, 14, 0x6c6b6a69, 15, 0x2ad7d2bb)
    ensures Uses(LetterWords(), 3, 15, 0x00000000, 21, 0xeb86d391)
  {}

  lemma Trace4a()
    ensures Op(Quad(0xb5d41f9c, 0x71d10367, 0x703d54d8, 0xa04b4904), 3, 0x64636261, 6, 0xf4292244)
            == Quad(0xa04b4904, 0xfc32dd6e, 0x71d10367, 0x703d54d8)
    ensures Op(Quad(0xa04b4904, 0xfc32dd6e, 0x71d10367, 0x703d54d8), 3, 0x00000000, 10, 0x432aff97)
            == Quad(0x703d54d8, 0x65456b34, 0xfc32dd6e, 0x71d10367)
    ensures Op(Quad(0x703d54d8, 0x65456b34, 0xfc32dd6e, 0x71d10367), 3, 0x000000d0, 15, 0xab9423a7)
            == Quad(0x71d10367, 0xb35602cb, 0x65456b34, 0xfc32dd6e)
    ensures Op(Quad(0x71d10367, 0xb35602cb, 0x65456b34, 0xfc32dd6e), 3, 0x78777675, 21, 0xfc93a039)
            == Quad(0xfc32dd6e, 0x33edb197, 0xb35602cb, 0x65456b34)
  {}

  lemma Trace4b()
    ensures Op(Quad(0xfc32dd6e, 0x33edb197, 0xb35602cb, 0x65456b34), 3, 0x00000000, 6, 0x655b59c3)
            == Quad(0x65456b34, 0xc1e942f1, 0x33edb197, 0xb35602cb)
    ensures Op(Quad(0x65456b34, 0xc1e942f1, 0x33edb197, 0xb35602cb), 3, 0x706f6e6d, 10, 0x8f0ccc92)
            == Quad(0xb35602cb, 0xd9bb987c, 0xc1e942f1, 0x33edb197)
    ensures Op(Quad(0xb35602cb, 0xd9bb987c, 0xc1e942f1, 0x33edb197), 3, 0x00000000, 15, 0xffeff47d)
            == Quad(0x33edb197, 0x23a68048, 0xd9bb987c, 0xc1e942f1)
    ensures Op(Quad(0x33edb197, 0x23a68048, 0xd9bb987c, 0xc1e942f1), 3, 0x68676665, 21, 0x85845dd1)
            == Quad(0xc1e942f1, 0x83877d1b, 0x23a68048, 0xd9bb987c)
  {}

  lemma Trace4c()
    ensures Op(Quad(0xc1e942f1, 0x83877d1b, 0x23a68048, 0xd9bb987c), 3, 0x00000000, 6, 0x6fa87e4f)
            == Quad(0xd9bb987c, 0x0077c208, 0x83877d1b, 0x23a68048)
    ensures Op(Quad(0xd9bb987c, 0x0077c208, 0x83877d1b, 0x23a68048), 3, 0x00000000, 10, 0xfe2ce6e0)
            == Quad(0x23a68048, 0x847fc2e7, 0x0077c208, 0x83877d1b)
    ensures Op(Quad(0x23a68048, 0x847fc2e7, 0x0077c208, 0x83877d1b), 3, 0x00807a79, 15, 0xa3014314)
            == Quad(0x83877d1b, 0xa3e2247f, 0x847fc2e7, 0x0077c208)
    ensures Op(Quad(0x83877d1b, 0xa3e2247f, 0x847fc2e7, 0x0077c208), 3, 0x00000000, 21, 0x4e0811a1)
            == Quad(0x0077c208, 0x5e6bc930, 0xa3e2247f, 0x847fc2e7)
  {}

  lemma Trace4d()
    ensures Op(Quad(0x0077c208, 0x5e6bc930, 0xa3e2247f, 0x847fc2e7), 3, 0x74737271, 6, 0xf7537e82)
            == Quad(0x847fc2e7, 0x708ed9c2, 0x5e6bc930, 0xa3e2247f)
    ensures Op(Quad(0x847fc2e7, 0x708ed9c2, 0x5e6bc930, 0xa3e2247f), 3, 0x00000000, 10, 0xbd3af235)
            == Quad(0xa3e2247f, 0x2baf1354, 0x708ed9c2, 0x5e6bc930)
    ensures Op(Quad(0xa3e2247f, 0x2baf1354, 0x708ed9c2, 0x5e6bc930), 3, 0x6c6b6a69, 15, 0x2ad7d2bb)
            == Quad(0x5e6bc930, 0xd38f1e7f, 0x2baf1354, 0x708ed9c2)
    ensures Op(Quad(0x5e6bc930, 0xd38f1e7f, 0x2baf1354, 0x708ed9c2), 3, 0x00000000, 21, 0xeb86d391)
            == Quad(0x708ed9c2, 0x1116e6d8, 0xd38f1e7f, 0x2baf1354)
  {}

  // ---- The rounds

  /** One more operation of a round that began at s. */
  lemma Advance(s: State, q: Quad, X: seq<nat>, r: nat, i: nat, x: bv32, n: nat, t: bv32)
    requires Uses(X, r, i, x, n, t) && |X| == 16 && i < 16 && n < 32 && Operations(s, X, r, i) == StateOf(q)
    ensures Operations(s, X, r, i + 1) == StateOf(Op(q, r, x, n, t))
  {
    OpValue(q, X, r, i, x, n, t);
    hide Operation, Op, StateOf;
  }

  lemma NoOperations(s: State, X: seq<nat>, r: nat)
    requires |X| == 16
    ensures Operations(s, X, r, 0) == s
  {}

  lemma Round1()
    ensures Operations(StateOf(Quad(0x67452301, 0xefcdab89, 0x98badcfe, 0x10325476)), LetterWords(), 0, 16)
            == StateOf(Quad(0x1754a316, 0x608d6b7e, 0x00df74d5, 0x85567d90))
  {
    hide *;
    var s := StateOf(Quad(0x67452301, 0xefcdab89, 0x98badcfe, 0x10325476));
    NoOperations(s, LetterWords(), 0);
    Listing1a();
    Listing1b();
    Listing1c();
    Listing1d();
    Trace1a();
    Trace1b();
    Trace1c();
    Trace1d();
    Advance(s, Quad(0x67452301, 0xefcdab89, 0x98badcfe, 0x10325476), LetterWords(), 0, 0, 0x64636261, 7, 0xd76aa478);
    Advance(s, Quad(0x10325476, 0xd6d117a6, 0xefcdab89, 0x98badcfe), LetterWords(), 0, 1, 0x68676665, 12, 0xe8c7b756);
    Advance(s, Quad(0x98badcfe, 0xaab1aaaa, 0xd6d117a6, 0xefcdab89), LetterWords(), 0, 2, 0x6c6b6a69, 17, 0x242070db);
    Advance(s, Quad(0xefcdab89, 0x227d8cf1, 0xaab1aaaa, 0xd6d117a6), LetterWords(), 0, 3, 0x706f6e6d, 22, 0xc1bdceee);
    Advance(s, Quad(0xd6d117a6, 0x4503b812, 0x227d8cf1, 0xaab1aaaa), LetterWords(), 0, 4, 0x74737271, 7, 0xf57c0faf);
    Advance(s, Quad(0xaab1aaaa, 0xfe15f787, 0x4503b812, 0x227d8cf1), LetterWords(), 0, 5, 0x78777675, 12, 0x4787c62a);
    Advance(s, Quad(0x227d8cf1, 0xa811b278, 0xfe15f787, 0x4503b812), LetterWords(), 0, 6, 0x00807a79, 17, 0xa8304613);
    Advance(s, Quad(0x4503b812, 0xb71122fc, 0xa811b278, 0xfe15f787), LetterWords(), 0, 7, 0x00000000, 22, 0xfd469501);
    Advance(s, Quad(0xfe15f787, 0xda9bbb0d, 0xb71122fc, 0xa811b278), LetterWords(), 0, 8, 0x00000000, 7, 0x698098d8);
    Advance(s, Quad(0xa811b278, 0xae752899, 0xda9bbb0d, 0xb71122fc), LetterWords(), 0, 9, 0x00000000, 12, 0x8b44f7af);
    Advance(s, Quad(0xb71122fc, 0x2bbe757f, 0xae752899, 0xda9bbb0d), LetterWords(), 0, 10, 0x00000000, 17, 0xffff5bb1);
    Advance(s, Quad(0xda9bbb0d, 0x7d4bd80b, 0x2bbe757f, 0xae752899), LetterWords(), 0, 11, 0x00000000, 22, 0x895cd7be);
    Advance(s, Quad(0xae752899, 0x56cfa5cb, 0x7d4bd80b, 0x2bbe757f), LetterWords(), 0, 12, 0x00000000, 7, 0x6b901122);
    Advance(s, Quad(0x2bbe757f, 0x1754a316, 0x56cfa5cb, 0x7d4bd80b), LetterWords(), 0, 13, 0x00000000, 12, 0xfd987193);
    Advance(s, Quad(0x7d4bd80b, 0x85567d90, 0x1754a316, 0x56cfa5cb), LetterWords(), 0, 14, 0x000000d0, 17, 0xa679438e);
    Advance(s, Quad(0x56cfa5cb, 0x00df74d5, 0x85567d90, 0x1754a316), LetterWords(), 0, 15, 0x00000000, 22, 0x49b40821);
  }

  lemma Round2()
    ensures Operations(StateOf(Quad(0x1754a316, 0x608d6b7e, 0x00df74d5, 0x85567d90)), LetterWords(), 1, 16)
            == StateOf(Quad(0xf54d8710, 0xaeb35766, 0x2e69afc7, 0x927b72e2))
  {
    hide *;
    var s := StateOf(Quad(0x1754a316, 0x608d6b7e, 0x00df74d5, 0x85567d90));
    NoOperations(s, LetterWords(), 1);
    Listing2a();
    Listing2b();
    Listing2c();
    Listing2d();
    Trace2a();
    Trace2b();
    Trace2c();
    Trace2d();
    Advance(s, Quad(0x1754a316, 0x608d6b7e, 0x00df74d5, 0x85567d90), LetterWords(), 1, 0, 0x68676665, 5, 0xf61e2562);
    Advance(s, Quad(0x85567d90, 0x2d8071cc, 0x608d6b7e, 0x00df74d5), LetterWords(), 1, 1, 0x00807a79, 9, 0xc040b340);
    Advance(s, Quad(0x00df74d5, 0x5dcee119, 0x2d8071cc, 0x608d6b7e), LetterWords(), 1, 2, 0x00000000, 14, 0x265e5a51);
    Advance(s, Quad(0x608d6b7e, 0xedfe7e4b, 0x5dcee119, 0x2d8071cc), LetterWords(), 1, 3, 0x64636261, 20, 0xe9b6c7aa);
    Advance(s, Quad(0x2d8071cc, 0x4c2145b3, 0xedfe7e4b, 0x5dcee119), LetterWords(), 1, 4, 0x78777675, 5, 0xd62f105d);
    Advance(s, Quad(0x5dcee119, 0x570c43e0, 0x4c2145b3, 0xedfe7e4b), LetterWords(), 1, 5, 0x00000000, 9, 0x02441453);
    Advance(s, Quad(0xedfe7e4b, 0x977efd2a, 0x570c43e0, 0x4c2145b3), LetterWords(), 1, 6, 0x00000000, 14, 0xd8a1e681);
    Advance(s, Quad(0x4c2145b3, 0xc28ab49d, 0x977efd2a, 0x570c43e0), LetterWords(), 1, 7, 0x74737271, 20, 0xe7d3fbc8);
    Advance(s, Quad(0x570c43e0, 0xc9f162d4, 0xc28ab49d, 0x977efd2a), LetterWords(), 1, 8, 0x00000000, 5, 0x21e1cde6);
    Advance(s, Quad(0x977efd2a, 0x25bfae3b, 0xc9f162d4, 0xc28ab49d), LetterWords(), 1, 9, 0x000000d0, 9, 0xc33707d6);
    Advance(s, Quad(0xc28ab49d, 0x89980104, 0x25bfae3b, 0xc9f162d4), LetterWords(), 1, 10, 0x706f6e6d, 14, 0xf4d50d87);
    Advance(s, Quad(0xc9f162d4, 0xf8c8365f, 0x89980104, 0x25bfae3b), LetterWords(), 1, 11, 0x00000000, 20, 0x455a14ed);
    Advance(s, Quad(0x25bfae3b, 0xe6d3b398, 0xf8c8365f, 0x89980104), LetterWords(), 1, 12, 0x00000000, 5, 0xa9e3e905);
    Advance(s, Quad(0x89980104, 0xf54d8710, 0xe6d3b398, 0xf8c8365f), LetterWords(), 1, 13, 0x6c6b6a69, 9, 0xfcefa3f8);
    Advance(s, Quad(0xf8c8365f, 0x927b72e2, 0xf54d8710, 0xe6d3b398), LetterWords(), 1, 14, 0x00000000, 14, 0x676f02d9);
    Advance(s, Quad(0xe6d3b398, 0x2e69afc7, 0x927b72e2, 0xf54d8710), LetterWords(), 1, 15, 0x00000000, 20, 0x8d2a4c8a);
  }

  lemma Round3()
    ensures Operations(StateOf(Quad(0xf54d8710, 0xaeb35766, 0x2e69afc7, 0x927b72e2)), LetterWords(), 2, 16)
            == StateOf(Quad(0xb5d41f9c, 0x71d10367, 0x703d54d8, 0xa04b4904))
  {
    hide *;
    var s := StateOf(Quad(0xf54d8710, 0xaeb35766, 0x2e69afc7, 0x927b72e2));
    NoOperations(s, LetterWords(), 2);
    Listing3a();
    Listing3b();
    Listing3c();
    Listing3d();
    Trace3a();
    Trace3b();
    Trace3c();
    Trace3d();
    Advance(s, Quad(0xf54d8710, 0xaeb35766, 0x2e69afc7, 0x927b72e2), LetterWords(), 2, 0, 0x78777675, 4, 0xfffa3942);
    Advance(s, Quad(0x927b72e2, 0xb4bf680e, 0xaeb35766, 0x2e69afc7), LetterWords(), 2, 1, 0x00000000, 11, 0x8771f681);
    Advance(s, Quad(0x2e69afc7, 0x4c8ffa80, 0xb4bf680e, 0xaeb35766), LetterWords(), 2, 2, 0x00000000, 16, 0x6d9d6122);
    Advance(s, Quad(0xaeb35766, 0x2361ed0a, 0x4c8ffa80, 0xb4bf680e), LetterWords(), 2, 3, 0x000000d0, 23, 0xfde5380c);
    Advance(s, Quad(0xb4bf680e, 0x06a5e211, 0x2361ed0a, 0x4c8ffa80), LetterWords(), 2, 4, 0x68676665, 4, 0xa4beea44);
    Advance(s, Quad(0x4c8ffa80, 0xb9c0c733, 0x06a5e211, 0x2361ed0a), LetterWords(), 2, 5, 0x74737271, 11, 0x4bdecfa9);
    Advance(s, Quad(0x2361ed0a, 0xf1e6dc7a, 0xb9c0c733, 0x06a5e211), LetterWords(), 2, 6, 0x00000000, 16, 0xf6bb4b60);
    Advance(s, Quad(0x06a5e211, 0x23a9451b, 0xf1e6dc7a, 0xb9c0c733), LetterWords(), 2, 7, 0x00000000, 23, 0xbebfbc70);
    Advance(s, Quad(0xb9c0c733, 0x8d41bf99, 0x23a9451b, 0xf1e6dc7a), LetterWords(), 2, 8, 0x00000000, 4, 0x289b7ec6);
    Advance(s, Quad(0xf1e6dc7a, 0xa3e88ead, 0x8d41bf99, 0x23a9451b), LetterWords(), 2, 9, 0x64636261, 11, 0xeaa127fa);
    Advance(s, Quad(0x23a9451b, 0x02c0b11c, 0xa3e88ead, 0x8d41bf99), LetterWords(), 2, 10, 0x706f6e6d, 16, 0xd4ef3085);
    Advance(s, Quad(0x8d41bf99, 0x66f6468d, 0x02c0b11c, 0xa3e88ead), LetterWords(), 2, 11, 0x00807a79, 23, 0x04881d05);
    Advance(s, Quad(0xa3e88ead, 0x90a35af5, 0x66f6468d, 0x02c0b11c), LetterWords(), 2, 12, 0x00000000, 4, 0xd9d4d039);
    Advance(s, Quad(0x02c0b11c, 0xb5d41f9c, 0x90a35af5, 0x66f6468d), LetterWords(), 2, 13, 0x00000000, 11, 0xe6db99e5);
    Advance(s, Quad(0x66f6468d, 0xa04b4904, 0xb5d41f9c, 0x90a35af5), LetterWords(), 2, 14, 0x00000000, 16, 0x1fa27cf8);
    Advance(s, Quad(0x90a35af5, 0x703d54d8, 0xa04b4904, 0xb5d41f9c), LetterWords(), 2, 15, 0x6c6b6a69, 23, 0xc4ac5665);
  }

  lemma Round4()
    ensures Operations(StateOf(Quad(0xb5d41f9c, 0x71d10367, 0x703d54d8, 0xa04b4904)), LetterWords(), 3, 16)
            == StateOf(Quad(0x708ed9c2, 0x1116e6d8, 0xd38f1e7f, 0x2baf1354))
  {
    hide *;
    var s := StateOf(Quad(0xb5d41f9c, 0x71d10367, 0x703d54d8, 0xa04b4904));
    NoOperations(s, LetterWords(), 3);
    Listing4a();
    Listing4b();
    Listing4c();
    Listing4d();
    Trace4a();
    Trace4b();
    Trace4c();
    Trace4d();
    Advance(s, Quad(0xb5d41f9c, 0x71d10367, 0x703d54d8, 0xa04b4904), LetterWords(), 3, 0, 0x64636261, 6, 0xf4292244);
    Advance(s, Quad(0xa04b4904, 0xfc32dd6e, 0x71d10367, 0x703d54d8), LetterWords(), 3, 1, 0x00000000, 10, 0x432aff97);
    Advance(s, Quad(0x703d54d8, 0x65456b34, 0xfc32dd6e, 0x71d10367), LetterWords(), 3, 2, 0x000000d0, 15, 0xab9423a7);
    Advance(s, Quad(0x71d10367, 0xb35602cb, 0x65456b34, 0xfc32dd6e), LetterWords(), 3, 3, 0x78777675, 21, 0xfc93a039);
    Advance(s, Quad(0xfc32dd6e, 0x33edb197, 0xb35602cb, 0x65456b34), LetterWords(), 3, 4, 0x00000000, 6, 0x655b59c3);
    Advance(s, Quad(0x65456b34, 0xc1e942f1, 0x33edb197, 0xb35602cb), LetterWords(), 3, 5, 0x706f6e6d, 10, 0x8f0ccc92);
    Advance(s, Quad(0xb35602cb, 0xd9bb987c, 0xc1e942f1, 0x33edb197), LetterWords(), 3, 6, 0x00000000, 15, 0xffeff47d);
    Advance(s, Quad(0x33edb197, 0x23a68048, 0xd9bb987c, 0xc1e942f1), LetterWords(), 3, 7, 0x68676665, 21, 0x85845dd1);
    Advance(s, Quad(0xc1e942f1, 0x83877d1b, 0x23a68048, 0xd9bb987c), LetterWords(), 3, 8, 0x00000000, 6, 0x6fa87e4f);
    Advance(s, Quad(0xd9bb987c, 0x0077c208, 0x83877d1b, 0x23a68048), LetterWords(), 3, 9, 0x00000000, 10, 0xfe2ce6e0);
    Advance(s, Quad(0x23a68048, 0x847fc2e7, 0x0077c208, 0x83877d1b), LetterWords(), 3, 10, 0x00807a79, 15, 0xa3014314);
    Advance(s, Quad(0x83877d1b, 0xa3e2247f, 0x847fc2e7, 0x0077c208), LetterWords(), 3, 11, 0x00000000, 21, 0x4e0811a1);
    Advance(s, Quad(0x0077c208, 0x5e6bc930, 0xa3e2247f, 0x847fc2e7), LetterWords(), 3, 12, 0x74737271, 6, 0xf7537e82);
    Advance(s, Quad(0x847fc2e7, 0x708ed9c2, 0x5e6bc930, 0xa3e2247f), LetterWords(), 3, 13, 0x00000000, 10, 0xbd3af235);
    Advance(s, Quad(0xa3e2247f, 0x2baf1354, 0x708ed9c2, 0x5e6bc930), LetterWords(), 3, 14, 0x6c6b6a69, 15, 0x2ad7d2bb);
    Advance(s, Quad(0x5e6bc930, 0xd38f1e7f, 0x2baf1354, 0x708ed9c2), LetterWords(), 3, 15, 0x00000000, 21, 0xeb86d391);
  }

  const LETTERS: seq<byte> :=
    [97, 98, 99, 100, 101, 102, 103, 104, 105, 106, 107, 108, 109,
     110, 111, 112, 113, 114, 115, 116, 117, 118, 119, 120, 121, 122]

  lemma PaddedBytes()
    ensures |LETTERS + Padding(26)| == 64
    ensures forall i :: 0 <= i < 64 ==> (LETTERS + Padding(26))[i]
                                        == if i < 26 then 97 + i else if i == 26 then 0x80 else if i == 56 then 208 else 0
  {
    assert forall i :: 0 <= i < 26 ==> LETTERS[i] == 97 + i;
    hide LETTERS;
  }

  lemma LettersPadded()
    ensures |LETTERS + Padding(26)| == 64 && Words(LETTERS + Padding(26)) == LetterWords()
  {
    PaddedBytes();
    hide Padding, LETTERS;
    var m := LETTERS + Padding(26);
    forall k | 0 <= k < 16
      ensures Words(m)[k] == LetterWords()[k]
    {
      LetterAt(m, k);
    }
  }

  lemma LetterAt(m: seq<byte>, k: nat)
    requires |m| == 64 && k < 16
    requires forall i :: 0 <= i < 64 ==> m[i] == if i < 26 then 97 + i else if i == 26 then 0x80 else if i == 56 then 208 else 0
    ensures WordAt(m, 4 * k) == LetterWords()[k]
  {}

  lemma OneBlock(s: State, m: seq<byte>)
    requires |m| == 64
    ensures Blocks(s, m) == Block(s, m)
  {
    assert m[..64] == m && m[64..] == [];
    hide Block;
  }

  lemma RoundsUp(s: State, X: seq<nat>)
    requires |X| == 16
    ensures Rounds(s, X, 4) == Operations(Operations(Operations(Operations(s, X, 0, 16), X, 1, 16), X, 2, 16), X, 3, 16)
  {
    hide Operations;
    RoundNext(s, X, 1);
    RoundNext(s, X, 2);
    RoundNext(s, X, 3);
    RoundNext(s, X, 4);
  }

  lemma RoundNext(s: State, X: seq<nat>, n: nat)
    requires |X| == 16 && 1 <= n <= 4
    ensures Rounds(s, X, n) == Operations(Rounds(s, X, n - 1), X, n - 1, 16) && Rounds(s, X, 0) == s
  {
    hide Operations;
  }

  lemma LastState()
    ensures StateOf(Quad(0x67452301, 0xefcdab89, 0x98badcfe, 0x10325476)) == INIT
    ensures StateOf(Quad(0x708ed9c2, 0x1116e6d8, 0xd38f1e7f, 0x2baf1354)) == State(0x708ed9c2, 0x1116e6d8, 0xd38f1e7f, 0x2baf1354)
  {}

  /** Section A.5 of RFC 1321: the digest of "abcdefghijklmnopqrstuvwxyz". */
  lemma Alphabet()
    ensures var d := Digest(LETTERS);
            WordBytes(d.a) + WordBytes(d.b) + WordBytes(d.c) + WordBytes(d.d)
            == [0xc3, 0xfc, 0xd3, 0xd7, 0x61, 0x92, 0xe4, 0x00,
                0x7d, 0xfb, 0x49, 0x6c, 0xca, 0x67, 0xe1, 0x3b]
  {
    hide *;
    LettersPadded();
    OneBlock(INIT, LETTERS + Padding(26));
    RoundsUp(INIT, LetterWords());
    LastState();
    Round1();
    Round2();
    Round3();
    Round4();
    LettersDigest();
    DigestBytes();
  }

  lemma LettersDigest()
    requires |LETTERS + Padding(26)| == 64 && Blocks(INIT, LETTERS + Padding(26)) == Block(INIT, LETTERS + Padding(26))
    requires Rounds(INIT, Words(LETTERS + Padding(26)), 4) == State(0x708ed9c2, 0x1116e6d8, 0xd38f1e7f, 0x2baf1354)
    ensures Digest(LETTERS) == State(0xd7d3fcc3, 0x00e49261, 0x6c49fb7d, 0x3be167ca)
  {
    hide Rounds, Words, Padding, Blocks;
  }

  lemma DigestBytes()
    ensures WordBytes(0xd7d3fcc3) + WordBytes(0x00e49261) + WordBytes(0x6c49fb7d) + WordBytes(0x3be167ca)
            == [0xc3, 0xfc, 0xd3, 0xd7, 0x61, 0x92, 0xe4, 0x00,
                0x7d, 0xfb, 0x49, 0x6c, 0xca, 0x67, 0xe1, 0x3b]
  {}
}
