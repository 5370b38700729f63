/** MD5 over a stream of bytes: RFC 1321, and the context of md5sum that computes it piece by piece. */
module Md5 {
  import opened Bits

  // ---- RFC 1321, section 3.4: one block of 16 words

  /** The four words of the buffer of section 3.3. */
  datatype State = State(a: nat, b: nat, c: nat, d: nat)

  const INIT: State := State(0x67452301, 0xefcdab89, 0x98badcfe, 0x10325476)

  /** The 64 operations in the order they are written out: word, rotation and constant of each. */
  datatype Op = Op(k: nat, s: nat, t: nat)

  const ROUND1: seq<Op> :=
    [Op(0, 7, 0xd76aa478), Op(1, 12, 0xe8c7b756), Op(2, 17, 0x242070db), Op(3, 22, 0xc1bdceee),
     Op(4, 7, 0xf57c0faf), Op(5, 12, 0x4787c62a), Op(6, 17, 0xa8304613), Op(7, 22, 0xfd469501),
     Op(8, 7, 0x698098d8), Op(9, 12, 0x8b44f7af), Op(10, 17, 0xffff5bb1), Op(11, 22, 0x895cd7be),
     Op(12, 7, 0x6b901122), Op(13, 12, 0xfd987193), Op(14, 17, 0xa679438e), Op(15, 22, 0x49b40821)]
  const ROUND2: seq<Op> :=
    [Op(1, 5, 0xf61e2562), Op(6, 9, 0xc040b340), Op(11, 14, 0x265e5a51), Op(0, 20, 0xe9b6c7aa),
     Op(5, 5, 0xd62f105d), Op(10, 9, 0x02441453), Op(15, 14, 0xd8a1e681), Op(4, 20, 0xe7d3fbc8),
     Op(9, 5, 0x21e1cde6), Op(14, 9, 0xc33707d6), Op(3, 14, 0xf4d50d87), Op(8, 20, 0x455a14ed),
     Op(13, 5, 0xa9e3e905), Op(2, 9, 0xfcefa3f8), Op(7, 14, 0x676f02d9), Op(12, 20, 0x8d2a4c8a)]
  const ROUND3: seq<Op> :=
    [Op(5, 4, 0xfffa3942), Op(8, 11, 0x8771f681), Op(11, 16, 0x6d9d6122), Op(14, 23, 0xfde5380c),
     Op(1, 4, 0xa4beea44), Op(4, 11, 0x4bdecfa9), Op(7, 16, 0xf6bb4b60), Op(10, 23, 0xbebfbc70),
     Op(13, 4, 0x289b7ec6), Op(0, 11, 0xeaa127fa), Op(3, 16, 0xd4ef3085), Op(6, 23, 0x04881d05),
     Op(9, 4, 0xd9d4d039), Op(12, 11, 0xe6db99e5), Op(15, 16, 0x1fa27cf8), Op(2, 23, 0xc4ac5665)]
  const ROUND4: seq<Op> :=
    [Op(0, 6, 0xf4292244), Op(7, 10, 0x432aff97), Op(14, 15, 0xab9423a7), Op(5, 21, 0xfc93a039),
     Op(12, 6, 0x655b59c3), Op(3, 10, 0x8f0ccc92), Op(10, 15, 0xffeff47d), Op(1, 21, 0x85845dd1),
     Op(8, 6, 0x6fa87e4f), Op(15, 10, 0xfe2ce6e0), Op(6, 15, 0xa3014314), Op(13, 21, 0x4e0811a1),
     Op(4, 6, 0xf7537e82), Op(11, 10, 0xbd3af235), Op(2, 15, 0x2ad7d2bb), Op(9, 21, 0xeb86d391)]

  const TWO64: nat := 0x1_0000_0000_0000_0000

  /** Addition of 32-bit words. */
  function Add(a: nat, b: nat): nat { (a + b) % TWO32 }

  function Not(a: nat): nat { if a < TWO32 then TWO32 - 1 - a else 0 }

  function F(x: nat, y: nat, z: nat): nat { Or(And(x, y), And(Not(x), z)) }

  function G(x: nat, y: nat, z: nat): nat { Or(And(x, z), And(y, Not(z))) }

  function H(x: nat, y: nat, z: nat): nat { Xor(Xor(x, y), z) }

  function I(x: nat, y: nat, z: nat): nat { Xor(y, Or(x, Not(z))) }

  function RotateLeft(w: nat, s: nat): nat
    requires s <= 32
  {
    Or(Shl(w, s) % TWO32, Shr(w, 32 - s)) % TWO32
  }

  function RoundFunction(r: nat, x: nat, y: nat, z: nat): nat {
    if r == 0 then F(x, y, z) else if r == 1 then G(x, y, z) else if r == 2 then H(x, y, z) else I(x, y, z)
  }

  /** Which word operation i of round r adds, and by how much it rotates. */
  function WordIndex(r: nat, i: nat): (k: nat)
    requires i < 16
    ensures k < 16
  {
    if r == 0 then i else if r == 1 then (5 * i + 1) % 16 else if r == 2 then (3 * i + 5) % 16 else 7 * i % 16
  }

  function Rotation(r: nat, i: nat): (s: nat)
    ensures s <= 32
  {
    var q := i % 4;
    if r == 0 then (if q == 0 then 7 else if q == 1 then 12 else if q == 2 then 17 else 22)
    else if r == 1 then (if q == 0 then 5 else if q == 1 then 9 else if q == 2 then 14 else 20)
    else if r == 2 then (if q == 0 then 4 else if q == 1 then 11 else if q == 2 then 16 else 23)
    else (if q == 0 then 6 else if q == 1 then 10 else if q == 2 then 15 else 21)
  }

  function RoundOps(r: nat): (ops: seq<Op>)
    ensures |ops| == 16
  {
    if r == 0 then ROUND1 else if r == 1 then ROUND2 else if r == 2 then ROUND3 else ROUND4
  }

  /** The table of sines: T of round r, operation i. */
  function Sine(r: nat, i: nat): nat
    requires i < 16
  {
    RoundOps(r)[i].t
  }

  /** a = b + ((a + f(b,c,d) + X[k] + T[i]) <<< s), after which the four words change places. */
  function Operation(s: State, X: seq<nat>, r: nat, i: nat): State
    requires |X| == 16 && i < 16
  {
    var sum := Add(Add(Add(s.a, RoundFunction(r, s.b, s.c, s.d)), X[WordIndex(r, i)]), Sine(r, i));
    State(s.d, Add(s.b, RotateLeft(sum, Rotation(r, i))), s.b, s.c)
  }

  function Operations(s: State, X: seq<nat>, r: nat, n: nat): State
    requires |X| == 16 && n <= 16
  {
    if n == 0 then s else Operation(Operations(s, X, r, n - 1), X, r, n - 1)
  }

  /** Low-order byte first. */
  function WordAt(m: seq<byte>, i: nat): nat
    requires i + 4 <= |m|
  {
    var b0: nat, b1: nat, b2: nat, b3: nat := m[i], m[i + 1], m[i + 2], m[i + 3];
    b0 + 0x100 * b1 + 0x10000 * b2 + 0x1000000 * b3
  }

  function Words(m: seq<byte>): (X: seq<nat>)
    requires |m| == 64
    ensures |X| == 16
  {
    seq(16, i requires 0 <= i < 16 => WordAt(m, 4 * i))
  }

  function Rounds(s: State, X: seq<nat>, n: nat): State
    requires |X| == 16 && n <= 4
  {
    if n == 0 then s else Operations(Rounds(s, X, n - 1), X, n - 1, 16)
  }

  function Block(s: State, m: seq<byte>): State
    requires |m| == 64
  {
    var t := Rounds(s, Words(m), 4);
    State(Add(s.a, t.a), Add(s.b, t.b), Add(s.c, t.c), Add(s.d, t.d))
  }

  lemma LessSixtyFour(n: nat)
    requires n >= 64 && n % 64 == 0
    ensures (n - 64) % 64 == 0
  {}

  /** All blocks of m. */
  function Blocks(s: State, m: seq<byte>): State
    requires |m| % 64 == 0
    decreases |m|
  {
    if |m| < 64 then s
    else
      LessSixtyFour(|m|);
      Blocks(Block(s, m[..64]), m[64..])
  }

  // ---- Sections 3.1 and 3.2: padding and length

  function WordBytes(v: nat): (s: seq<byte>)
    ensures |s| == 4
  {
    [v % 256, v / 256 % 256, v / 65536 % 256, v / 16777216 % 256]
  }

  /** v as 64 bits, low-order word first. */
  function LengthBytes(v: nat): (s: seq<byte>)
    ensures |s| == 8
  {
    WordBytes(v % TWO32) + WordBytes(v / TWO32 % TWO32)
  }

  function ZeroBytes(n: nat): (s: seq<byte>)
    ensures |s| == n && forall i :: 0 <= i < n ==> s[i] == 0
  {
    seq(n, _ => 0)
  }

  /** A one bit, zero bits up to 448 mod 512, and the number of bits as two words. */
  function Padding(n: nat): (s: seq<byte>)
    ensures (n + |s|) % 64 == 0
  {
    PaddedLength(n);
    [0x80] + ZeroBytes((119 - n % 64) % 64) + LengthBytes(8 * n)
  }

  lemma PaddedLength(n: nat)
    ensures (n + 1 + (119 - n % 64) % 64 + 8) % 64 == 0
  {}

  /** The digest of a message, as the four words of the last state. */
  function Digest(m: seq<byte>): State { Blocks(INIT, m + Padding(|m|)) }

  lemma NoBlocks()
    ensures Blocks(INIT, []) == INIT
  {}

  lemma InitWords()
    ensures WordState(INIT)
  {}

  lemma {:induction false} BlocksConcat(s: State, a: seq<byte>, b: seq<byte>)
    requires |a| % 64 == 0 && |b| % 64 == 0
    ensures |a + b| % 64 == 0 && Blocks(s, a + b) == Blocks(Blocks(s, a), b)
    decreases |a|
  {
    hide Block;
    if a == [] {
      assert a + b == b;
    } else {
      assert (a + b)[..64] == a[..64] && (a + b)[64..] == a[64..] + b;
      BlocksConcat(Block(s, a[..64]), a[64..], b);
    }
  }

  // ---- The functions as md5_process_block writes them

  function FF(b: nat, c: nat, d: nat): nat { Xor(d, And(b, Xor(c, d))) }

  function FG(b: nat, c: nat, d: nat): nat { FF(d, b, c) }

  /** Complement of a word of n bits. */
  function NotOf(a: nat, n: nat): nat
    requires a < Pow2(n)
  {
    Pow2(n) - 1 - a
  }

  lemma NotHalves(a: nat, n: nat)
    requires a < Pow2(n) && n > 0
    ensures a / 2 < Pow2(n - 1) && NotOf(a, n) / 2 == NotOf(a / 2, n - 1) && (NotOf(a, n) % 2 == 1 <==> a % 2 == 0)
  {}

  /** Choosing bits of c or d by b, in the form of the macro and in that of the standard. */
  lemma {:induction false} Chooses(b: nat, c: nat, d: nat, n: nat)
    requires b < Pow2(n) && c < Pow2(n) && d < Pow2(n)
    ensures Xor(d, And(b, Xor(c, d))) == Or(And(b, c), And(NotOf(b, n), d))
    decreases n
  {
    hide And, Or, Xor, NotOf;
    if n == 0 {
      AllZero();
    } else {
      NotHalves(b, n);
      HalfOf(c, n);
      HalfOf(d, n);
      Chooses(b / 2, c / 2, d / 2, n - 1);
      ChoosesBit(b, c, d, n);
    }
  }

  lemma AllZero()
    ensures NotOf(0, 0) == 0 && Xor(0, And(0, Xor(0, 0))) == Or(And(0, 0), And(0, 0))
  {}

  lemma HalfOf(a: nat, n: nat)
    requires a < Pow2(n) && n > 0
    ensures a / 2 < Pow2(n - 1)
  {}

  lemma ChoosesBit(b: nat, c: nat, d: nat, n: nat)
    requires n > 0 && b < Pow2(n) && b / 2 < Pow2(n - 1)
    requires Xor(d / 2, And(b / 2, Xor(c / 2, d / 2))) == Or(And(b / 2, c / 2), And(NotOf(b / 2, n - 1), d / 2))
    ensures Xor(d, And(b, Xor(c, d))) == Or(And(b, c), And(NotOf(b, n), d))
  {
    hide And, Or, Xor, NotOf, Pow2;
    XorHalves(c, d);
    AndHalves(b, Xor(c, d));
    XorHalves(d, And(b, Xor(c, d)));
    NotHalves(b, n);
    AndHalves(b, c);
    AndHalves(NotOf(b, n), d);
    OrHalves(And(b, c), And(NotOf(b, n), d));
  }

  ghost predicate Word(a: nat) { a < TWO32 }

  lemma {:induction false} AndOrder(a: nat, b: nat)
    ensures And(a, b) == And(b, a)
    decreases a + b
  {
    if a > 0 && b > 0 { AndOrder(a / 2, b / 2); }
  }

  /** The optimized functions are those of the standard. */
  lemma FunctionsAgree(b: nat, c: nat, d: nat)
    requires Word(b) && Word(c) && Word(d)
    ensures FF(b, c, d) == F(b, c, d) && FG(b, c, d) == G(b, c, d)
  {
    hide And, Or, Xor, Pow2;
    WordSize();
    Chooses(b, c, d, 32);
    Chooses(d, b, c, 32);
    AndOrder(d, b);
    AndOrder(Not(d), c);
  }

  /** What md5_process_block uses in round r. */
  function Written(r: nat, b: nat, c: nat, d: nat): nat {
    if r == 0 then FF(b, c, d) else if r == 1 then FG(b, c, d) else if r == 2 then H(b, c, d) else I(b, c, d)
  }

  /** The operations written out are those of the standard's schedule. */
  lemma ScheduleAgrees(r: nat, i: nat)
    requires r < 4 && i < 16
    ensures RoundOps(r)[i].k == WordIndex(r, i) && RoundOps(r)[i].s == Rotation(r, i)
  {
    First(i);
    Second(i);
    Third(i);
    Fourth(i);
    hide ROUND1, ROUND2, ROUND3, ROUND4;
  }

  lemma First(i: nat)
    requires i < 16
    ensures |ROUND1| == 16 && ROUND1[i].k == WordIndex(0, i) && ROUND1[i].s == Rotation(0, i)
  {}

  lemma Second(i: nat)
    requires i < 16
    ensures |ROUND2| == 16 && ROUND2[i].k == WordIndex(1, i) && ROUND2[i].s == Rotation(1, i)
  {}

  lemma Third(i: nat)
    requires i < 16
    ensures |ROUND3| == 16 && ROUND3[i].k == WordIndex(2, i) && ROUND3[i].s == Rotation(2, i)
  {}

  lemma Fourth(i: nat)
    requires i < 16
    ensures |ROUND4| == 16 && ROUND4[i].k == WordIndex(3, i) && ROUND4[i].s == Rotation(3, i)
  {}

  ghost predicate WordState(s: State) { Word(s.a) && Word(s.b) && Word(s.c) && Word(s.d) }

  lemma OperationWords(s: State, X: seq<nat>, r: nat, i: nat)
    requires |X| == 16 && i < 16 && WordState(s)
    ensures WordState(Operation(s, X, r, i))
  {
    hide RotateLeft, RoundFunction, Sine, WordIndex, Rotation;
  }

  lemma {:induction false} OperationsWords(s: State, X: seq<nat>, r: nat, n: nat)
    requires |X| == 16 && n <= 16 && WordState(s)
    ensures WordState(Operations(s, X, r, n))
  {
    hide Operation, WordState;
    if n > 0 {
      OperationsWords(s, X, r, n - 1);
      OperationWords(Operations(s, X, r, n - 1), X, r, n - 1);
    }
  }

  lemma AddOrder(a: nat, f: nat, x: nat, t: nat)
    ensures Add(a, Add(Add(f, x), t)) == Add(Add(Add(a, f), x), t)
  {
    AddAdd(f + x, t);
    AddAdd(a + f, x);
    AddAdd(a + f + x, t);
    AddAdd(f + x + t, a);
  }

  lemma AddAdd(a: nat, b: nat)
    ensures (a % TWO32 + b) % TWO32 == (a + b) % TWO32 && (b + a % TWO32) % TWO32 == (a + b) % TWO32
  {
    DivMod(a, TWO32);
    DivMod(a % TWO32 + b, TWO32);
    DivUnique(a + b, TWO32, a / TWO32 + (a % TWO32 + b) / TWO32, (a % TWO32 + b) % TWO32);
  }

  /** One operation, as written. */
  lemma OperationWritten(s: State, X: seq<nat>, r: nat, i: nat)
    requires |X| == 16 && r < 4 && i < 16 && WordState(s)
    ensures RoundOps(r)[i].k < 16 && RoundOps(r)[i].s <= 32
    ensures var op := RoundOps(r)[i];
            Operation(s, X, r, i)
            == State(s.d, Add(RotateLeft(Add(s.a, Add(Add(Written(r, s.b, s.c, s.d), X[op.k]), op.t)), op.s), s.b), s.b, s.c)
  {
    hide *;
    ScheduleAgrees(r, i);
    StateWords(s);
    FunctionsAgree(s.b, s.c, s.d);
    WrittenIs(r, s.b, s.c, s.d);
    AddOrder(s.a, Written(r, s.b, s.c, s.d), X[RoundOps(r)[i].k], RoundOps(r)[i].t);
    OperationIs(s, X, r, i);
  }

  lemma StateWords(s: State)
    requires WordState(s)
    ensures Word(s.b) && Word(s.c) && Word(s.d)
  {}

  lemma WrittenIs(r: nat, b: nat, c: nat, d: nat)
    requires FF(b, c, d) == F(b, c, d) && FG(b, c, d) == G(b, c, d)
    ensures Written(r, b, c, d) == RoundFunction(r, b, c, d)
  {
    hide F, G, H, I, FF, FG;
  }

  lemma OperationIs(s: State, X: seq<nat>, r: nat, i: nat)
    requires |X| == 16 && i < 16
    ensures var sum := Add(Add(Add(s.a, RoundFunction(r, s.b, s.c, s.d)), X[WordIndex(r, i)]), RoundOps(r)[i].t);
            Operation(s, X, r, i) == State(s.d, Add(RotateLeft(sum, Rotation(r, i)), s.b), s.b, s.c)
  {
    hide RotateLeft, RoundFunction, WordIndex, Rotation, RoundOps;
  }

  // ---- The byte counter in two words

  lemma CountCarry(lo: nat, hi: nat, p: nat, len: nat)
    requires lo < TWO32 && hi < TWO32 && len < TWO32 && lo + TWO32 * hi == p % (TWO32 * TWO32)
    ensures var lo' := (lo + len) % TWO32;
            var hi' := if lo' < len then (hi + 1) % TWO32 else hi;
            lo' + TWO32 * hi' == (p + len) % (TWO32 * TWO32)
  {
    var w := TWO32 * TWO32;
    ModAdd(p, len, w);
    var v := lo + TWO32 * hi + len;
    if lo + len < TWO32 {
      assert v < w;
    } else if hi + 1 < TWO32 {
      assert (lo + len) % TWO32 == lo + len - TWO32 && v < w;
    } else {
      assert (lo + len) % TWO32 == lo + len - TWO32 && hi == TWO32 - 1;
      assert v == w + (lo + len - TWO32);
    }
  }

  /** For lengths of 2^32 and more the carry is 1 whatever the length, so the counter is right only up to a sum of 2^33. */
  lemma CountExact(lo: nat, hi: nat, p: nat, len: nat)
    requires lo < TWO32 && hi < TWO32 && len < TWO64 && lo + TWO32 * hi == p % (TWO32 * TWO32)
    ensures var lo' := (lo + len) % TWO32;
            var hi' := if lo' < len then (hi + 1) % TWO32 else hi;
            lo' + TWO32 * hi' == (p + len) % (TWO32 * TWO32) <==> lo + len < 2 * TWO32
  {
    if len < TWO32 {
      CountCarry(lo, hi, p, len);
    } else {
      var k, r := (lo + len) / TWO32, (lo + len) % TWO32;
      DivMod(lo + len, TWO32);
      ModAdd(p, len, TWO32 * TWO32);
      TwoWords(hi + k, r);
      TwoWords(hi + 1, r);
      CarryRight(hi, k);
    }
  }

  lemma TwoWords(h: nat, r: nat)
    requires r < TWO32
    ensures (r + TWO32 * h) % (TWO32 * TWO32) == r + TWO32 * (h % TWO32)
  {
    DivMod(h, TWO32);
    var q := h / TWO32;
    DivUnique(r + TWO32 * h, TWO32 * TWO32, q, r + TWO32 * (h % TWO32));
  }

  lemma CarryRight(hi: nat, k: nat)
    requires hi < TWO32 && 1 <= k <= TWO32
    ensures (hi + k) % TWO32 == (hi + 1) % TWO32 <==> k == 1
  {}

  lemma LowWord(lo: nat, hi: nat, p: nat)
    requires lo < TWO32 && lo + TWO32 * hi == p % (TWO32 * TWO32)
    ensures lo == p % TWO32
  {
    DivMod(p, TWO32 * TWO32);
    var q := p / (TWO32 * TWO32);
    assert p == TWO32 * (TWO32 * q + hi) + lo;
    DivUnique(p, TWO32, TWO32 * q + hi, lo);
  }

  /** One call with 2^33 bytes on a new context: both words carry, but the high word gets 1 for 2. */
  lemma CountWrong()
    ensures var len := 2 * TWO32;
            var lo := (0 + len) % TWO32;
            var hi := if lo < len then (0 + 1) % TWO32 else 0;
            lo == 0 && hi == 1 && len % (TWO32 * TWO32) == 2 * TWO32 != lo + TWO32 * hi && !Countable(0, 0, len)
  {}

  lemma ModAdd(p: nat, len: nat, w: nat)
    requires w > 0
    ensures (p + len) % w == (p % w + len) % w
  {
    DivMod(p, w);
    DivMod(p % w + len, w);
    var q := p / w + (p % w + len) / w;
    assert p + len == w * q + (p % w + len) % w by {
      MulSum(w, p / w, (p % w + len) / w);
    }
    DivUnique(p + len, w, q, (p % w + len) % w);
  }

  /** Shifting the two words left by 3 gives the number of bits. */
  lemma BitCount(lo: nat, hi: nat, n: nat)
    requires lo < TWO32 && hi < TWO32 && lo + TWO32 * hi == n % (TWO32 * TWO32)
    ensures lo * 8 % TWO32 == 8 * n % TWO32
    ensures (hi * 8 % TWO32 + lo / 0x2000_0000) % TWO32 == 8 * n / TWO32 % TWO32
    ensures hi * 8 % TWO32 + lo / 0x2000_0000 < TWO32
  {
    var q := n / (TWO32 * TWO32);
    DivMod(n, TWO32 * TWO32);
    assert n == TWO32 * (TWO32 * q + hi) + lo;
    var h := TWO32 * q + hi;
    var carry := lo / 0x2000_0000;
    assert 8 * lo == TWO32 * carry + 8 * (lo % 0x2000_0000);
    DivUnique(8 * n, TWO32, 8 * h + carry, 8 * (lo % 0x2000_0000));
    var e := hi / 0x2000_0000;
    assert 8 * hi == TWO32 * e + 8 * (hi % 0x2000_0000);
    assert 8 * h + carry == TWO32 * (8 * q + e) + (8 * (hi % 0x2000_0000) + carry);
    DivUnique(8 * h + carry, TWO32, 8 * q + e, 8 * (hi % 0x2000_0000) + carry);
    DivUnique(8 * hi, TWO32, e, 8 * (hi % 0x2000_0000));
    DivUnique(8 * lo, TWO32, carry, 8 * (lo % 0x2000_0000));
  }

  /** (total[1] << 3) | (total[0] >> 29). */
  lemma HighWord(hi: nat, lo: nat)
    requires lo < TWO32
    ensures lo / 0x2000_0000 < 8 && Or(lo / 0x2000_0000, hi * 8 % TWO32) == hi * 8 % TWO32 + lo / 0x2000_0000
  {
    hide Or, Pow2;
    Pow2Values();
    var t := hi * 8 % TWO32;
    MultipleOf8(hi);
    OrDisjoint(lo / 0x2000_0000, t / 8, 3);
    assert Shl(t / 8, 3) == t / 8 * 8;
  }

  lemma MultipleOf8(hi: nat)
    ensures hi * 8 % TWO32 % 8 == 0
  {
    DivMod(hi, 0x2000_0000);
    DivUnique(hi * 8, TWO32, hi / 0x2000_0000, hi % 0x2000_0000 * 8);
  }

  // ---- md5_ctx

  const BUFSIZE: nat := 128

  /** How many bytes go into a buffer that is not empty. */
  function Taken(buffered: nat, len: nat): nat {
    if buffered == 0 || buffered > BUFSIZE then 0 else if BUFSIZE - buffered > len then len else BUFSIZE - buffered
  }

  /** How many of so many bytes are processed: whole blocks, once there is more than one. */
  function Processed(n: nat): nat { if n > 64 then n / 64 * 64 else 0 }

  /** What is left in the buffer after len more bytes. */
  function BufferedAfter(buffered: nat, len: nat): nat {
    var add := Taken(buffered, len);
    if len > add then len - add - Processed(len - add) else buffered + add - Processed(buffered + add)
  }

  /** md5_process_bytes keeps the count right, when its low word is low: what is processed past the buffer must not take the
      low word to 2^33. */
  predicate Countable(low: nat, buffered: nat, len: nat) {
    var add := Taken(buffered, len);
    (low + Processed(buffered + add)) % TWO32 + Processed(len - add) < 2 * TWO32
  }

  lemma TakenIs(buffered: nat, len: nat)
    requires buffered <= 64
    ensures BUFSIZE == 128 && var add := Taken(buffered, len);
            add == (if buffered == 0 then 0 else if BUFSIZE - buffered > len then len else BUFSIZE - buffered)
            && Processed(buffered + add) == if buffered + add > 64 then (buffered + add) / 64 * 64 else 0
  {}

  class Md5Ctx {
    var A: nat
    var B: nat
    var C: nat
    var D: nat
    var total0: nat
    var total1: nat
    var buflen: nat
    const buffer: array<byte>
    /** Everything fed in so far. */
    ghost var msg: seq<byte>

    function Words4(): State
      reads this`A, this`B, this`C, this`D
    {
      State(A, B, C, D)
    }

    ghost predicate Words32()
      reads this`A, this`B, this`C, this`D
    {
      WordState(Words4())
    }

    /** Whole blocks have been processed and counted; the rest is in the buffer. */
    ghost predicate Valid()
      reads this, buffer
    {
      Folded() && CountedTo(|msg| - buflen)
    }

    /** The same, but for the count. */
    ghost predicate Folded()
      reads this`A, this`B, this`C, this`D, this`buflen, this`msg, buffer
    {
      buffer.Length == BUFSIZE && Words32() && buflen <= BUFSIZE && buflen <= |msg| && (|msg| - buflen) % 64 == 0
      && Words4() == Blocks(INIT, msg[..|msg| - buflen]) && buffer[..buflen] == msg[|msg| - buflen..]
    }

    ghost predicate CountedTo(p: nat)
      reads this`total0, this`total1
    {
      total0 < TWO32 && total1 < TWO32 && total0 + TWO32 * total1 == p % (TWO32 * TWO32)
    }

    /** md5_init_ctx. */
    constructor ()
      ensures Valid() && msg == [] && buflen == 0 && total0 == 0 && fresh(buffer)
    {
      A, B, C, D := 0x67452301, 0xefcdab89, 0x98badcfe, 0x10325476;
      total0, total1, buflen, msg := 0, 0, 0, [];
      buffer := new byte[BUFSIZE](_ => 0);
      new;
      hide Blocks, WordState;
      NoBlocks();
      InitWords();
      assert msg[..|msg| - buflen] == [];
      assert Folded();
    }

    /** One block: 64 operations, then the starting values are added. */
    method OneBlock(m: seq<byte>)
      requires |m| == 64 && Words32()
      modifies this`A, this`B, this`C, this`D
      ensures Words32() && Words4() == Block(old(Words4()), m)
    {
      hide Words, Rounds;
      var X := Words(m);
      ghost var s := Words4();
      var t := Words4();
      var r: nat := 0;
      NoRounds(s, X);
      while r < 4
        invariant 0 <= r <= 4 && t == Rounds(s, X, r) && WordState(t) && Words4() == s
      {
        t := Round(r, X, t);
        OneMoreRound(s, X, r);
        r := r + 1;
      }
      A, B, C, D := Add(A, t.a), Add(B, t.b), Add(C, t.c), Add(D, t.d);
    }

    /** The sixteen operations of one round. */
    method Round(r: nat, X: seq<nat>, s: State) returns (t: State)
      requires r < 4 && |X| == 16 && WordState(s)
      ensures t == Operations(s, X, r, 16) && WordState(t)
    {
      hide RotateLeft, Written, RoundOps, Operation, WordState, Add;
      var a, b, c, d := s.a, s.b, s.c, s.d;
      var i: nat := 0;
      while i < 16
        invariant 0 <= i <= 16 && State(a, b, c, d) == Operations(s, X, r, i)
      {
        OperationsWords(s, X, r, i);
        OperationWritten(Operations(s, X, r, i), X, r, i);
        var op := RoundOps(r)[i];
        a := Add(a, Add(Add(Written(r, b, c, d), X[op.k]), op.t));
        a := RotateLeft(a, op.s);
        a := Add(a, b);
        a, b, c, d := d, a, b, c;
        i := i + 1;
      }
      OperationsWords(s, X, r, 16);
      t := State(a, b, c, d);
    }

    /** The double word increment. */
    method AddTotal(len: nat)
      requires len < TWO64
      modifies this`total0, this`total1
      ensures total0 < TWO32 && (old(total1) < TWO32 ==> total1 < TWO32) && total0 == (old(total0) + len) % TWO32
      ensures forall p: nat :: old(CountedTo(p)) ==> (CountedTo(p + len) <==> old(total0) + len < 2 * TWO32)
    {
      ghost var lo, hi := total0, total1;
      total0 := (total0 + len) % TWO32;
      if total0 < len {
        total1 := (total1 + 1) % TWO32;
      }
      forall p: nat | old(CountedTo(p))
        ensures CountedTo(p + len) <==> lo + len < 2 * TWO32
      {
        CountExact(lo, hi, p, len);
      }
    }

    /** md5_process_block. */
    method ProcessBlock(buf: seq<byte>)
      requires |buf| % 64 == 0 && |buf| < TWO64 && Words32()
      modifies this`A, this`B, this`C, this`D, this`total0, this`total1
      ensures Words32() && Words4() == Blocks(old(Words4()), buf) && total0 == (old(total0) + |buf|) % TWO32
      ensures forall p: nat :: old(CountedTo(p)) ==> (CountedTo(p + |buf|) <==> old(total0) + |buf| < 2 * TWO32)
    {
      hide Block;
      AddTotal(|buf|);
      ghost var s := Words4();
      var i: nat := 0;
      while i < |buf|
        invariant 0 <= i <= |buf| && i % 64 == 0 && Words32() && Words4() == Blocks(s, buf[..i])
        invariant total0 == (old(total0) + |buf|) % TWO32
        invariant forall p: nat :: old(CountedTo(p)) ==> (CountedTo(p + |buf|) <==> old(total0) + |buf| < 2 * TWO32)
      {
        OneMoreBlock(s, buf, i);
        OneBlock(buf[i..i + 64]);
        i := i + 64;
      }
      assert buf[..i] == buf;
    }

    /** memcpy into the buffer. */
    method CopyIn(at: nat, src: seq<byte>)
      requires at + |src| <= buffer.Length
      modifies buffer
      ensures buffer[..at + |src|] == old(buffer[..at]) + src
      ensures forall i :: at + |src| <= i < buffer.Length ==> buffer[i] == old(buffer[i])
    {
      forall i | 0 <= i < |src| {
        buffer[at + i] := src[i];
      }
      assert forall i :: at <= i < at + |src| ==> buffer[i] == src[i - at];
    }

    /** Process the whole blocks in the buffer once it holds more than one. */
    method Drain()
      requires Folded() && buflen > 64
      modifies this`A, this`B, this`C, this`D, this`total0, this`total1, this`buflen, buffer
      ensures Folded() && buflen == old(buflen) % 64 && msg == old(msg)
      ensures total0 == (old(total0) + old(buflen) / 64 * 64) % TWO32
      ensures old(CountedTo(|msg| - buflen)) ==> CountedTo(|msg| - buflen)
    {
      hide *;
      FoldedFacts();
      var n := buflen / 64 * 64;
      ghost var p := |msg| - buflen;
      BlockSizes(buflen, total0, p);
      BufferCut(msg, p, buffer[..], buflen, n);
      BlocksConcat(INIT, msg[..p], msg[p..p + n]);
      ProcessBlock(buffer[..n]);
      var rest := buffer[n..buflen];
      CopyIn(0, rest);
      buflen := buflen % 64;
      assert |msg| - buflen == p + n;
      assert buffer[..buflen] == buffer[..0 + |rest|];
      FoldedMade();
    }

    lemma FoldedFacts()
      requires Folded()
      ensures buffer.Length == BUFSIZE == 128 && Words32() && buflen <= BUFSIZE && buflen <= |msg| && (|msg| - buflen) % 64 == 0
      ensures Words4() == Blocks(INIT, msg[..|msg| - buflen]) && buffer[..buflen] == msg[|msg| - buflen..]
      ensures CountedTo(|msg| - buflen) ==> total0 < TWO32
    {
      hide Blocks;
    }

    lemma FoldedMade()
      requires buffer.Length == BUFSIZE && Words32() && buflen <= BUFSIZE && buflen <= |msg| && (|msg| - buflen) % 64 == 0
      requires Words4() == Blocks(INIT, msg[..|msg| - buflen]) && buffer[..buflen] == msg[|msg| - buflen..]
      ensures Folded()
    {
      hide Blocks;
    }

    /** As much as fits goes into a buffer that is not empty. */
    method Append(src: seq<byte>)
      requires Folded() && buflen + |src| <= BUFSIZE
      modifies this`buflen, this`msg, buffer
      ensures Folded() && buflen == old(buflen) + |src| && msg == old(msg) + src
    {
      hide Blocks;
      ghost var m0, p := msg, |msg| - buflen;
      CopyIn(buflen, src);
      buflen := buflen + |src|;
      msg := msg + src;
      assert msg[..p] == m0[..p] && msg[p..] == m0[p..] + src;
    }

    /** A buffer of whole blocks, processed directly. */
    method WholeBlocks(buf: seq<byte>)
      requires Folded() && buflen == 0 && |buf| % 64 == 0 && |buf| < TWO64
      modifies this, buffer
      ensures Folded() && buflen == 0 && msg == old(msg) + buf
      ensures old(CountedTo(|msg|)) ==> (CountedTo(|msg|) <==> old(total0) + |buf| < 2 * TWO32)
    {
      hide Blocks;
      BlocksConcat(INIT, msg, buf);
      assert msg[..|msg|] == msg;
      ProcessBlock(buf);
      msg := msg + buf;
      assert msg[..|msg|] == msg && msg[|msg|..] == [];
    }

    /** md5_process_bytes. The count of the bytes stays right exactly as Countable says. */
    method ProcessBytes(input: seq<byte>)
      requires Folded() && buflen <= 64 && |input| < TWO64
      modifies this, buffer
      ensures Folded() && buflen == BufferedAfter(old(buflen), |input|) <= 64 && msg == old(msg) + input
      ensures old(CountedTo(|msg| - buflen)) ==> (CountedTo(|msg| - buflen) <==> Countable(old(total0), old(buflen), |input|))
    {
      hide Blocks, Md5Ctx.Folded, Md5Ctx.CountedTo;
      ghost var m0 := msg;
      var buf := FillUp(input);
      Joins(m0, input, |input| - |buf|);
      if |buf| > 64 {
        var n := |buf| / 64 * 64;
        assert buf == buf[..n] + buf[n..];
        Assoc(msg, buf[..n], buf[n..]);
        WholeBlocks(buf[..n]);
        buf := buf[n..];
      }
      if |buf| > 0 {
        assert buflen == 0;
        Append(buf);
      } else {
        assert msg + buf == msg;
      }
    }

    /** md5_process_bytes, for what can be counted. */
    method Feed(input: seq<byte>)
      requires Valid() && buflen <= 64 && |input| < TWO64 && Countable(total0, buflen, |input|)
      modifies this, buffer
      ensures Valid() && buflen == BufferedAfter(old(buflen), |input|) <= 64 && msg == old(msg) + input
    {
      hide *;
      ValidFacts();
      ProcessBytes(input);
      ValidMade();
    }

    /** A buffer that is not empty is filled first; the rest is returned. */
    method FillUp(input: seq<byte>) returns (buf: seq<byte>)
      requires Folded() && buflen <= 64
      modifies this, buffer
      ensures var add := Taken(old(buflen), |input|);
              Folded() && buf == input[add..] && buflen == old(buflen) + add - Processed(old(buflen) + add) <= 64
              && (buf != [] ==> buflen == 0) && msg == old(msg) + input[..add]
              && (old(CountedTo(|msg| - buflen))
                  ==> CountedTo(|msg| - buflen) && total0 == (old(total0) + Processed(old(buflen) + add)) % TWO32)
    {
      hide *;
      Sizes();
      TakenIs(buflen, |input|);
      LowRange();
      ghost var p := |msg| - buflen;
      buf := input;
      if buflen != 0 {
        var leftOver := buflen;
        var add := if BUFSIZE - leftOver > |buf| then |buf| else BUFSIZE - leftOver;
        Append(buf[..add]);
        assert |msg| - buflen == p;
        if leftOver + add > 64 {
          Drain();
        }
        buf := buf[add..];
      } else {
        assert input[..0] == [] && msg + [] == msg && input[0..] == input;
      }
    }

    lemma LowRange()
      requires Folded()
      ensures buflen <= |msg| && (CountedTo(|msg| - buflen) ==> total0 % TWO32 == total0)
    {
      hide Blocks;
    }

    /** md5_finish_ctx: the digest of everything fed in. */
    method FinishCtx() returns (digest: State)
      requires Valid() && buflen <= 64
      modifies this, buffer
      ensures digest == Digest(old(msg))
    {
      hide *;
      ValidFacts();
      ghost var m, p := msg, |msg| - buflen;
      var bytes := buflen;
      AddTotal(bytes);
      LengthWords(p + bytes);
      var n := WritePadding(bytes);
      PaddedBuffer(m, p, bytes, n - 8 - bytes);
      assert buffer[..n] == m[p..] + Padding(|m|);
      WholeMessage(m, p);
      ProcessBlock(buffer[..n]);
      digest := Words4();
    }

    lemma ValidFacts()
      requires Valid()
      ensures buffer.Length == BUFSIZE == 128 && TWO64 > TWO32 > 128 && Words32() && buflen <= |msg| && (|msg| - buflen) % 64 == 0
      ensures Words4() == Blocks(INIT, msg[..|msg| - buflen]) && buffer[..buflen] == msg[|msg| - buflen..]
      ensures CountedTo(|msg| - buflen) && total0 < TWO32 && Folded()
    {
      hide Blocks;
    }

    lemma LowCount()
      requires Valid()
      ensures total0 == (|msg| - buflen) % TWO32
    {
      hide Blocks;
      LowWord(total0, total1, |msg| - buflen);
    }

    lemma ValidMade()
      requires Folded() && CountedTo(|msg| - buflen)
      ensures Valid()
    {}

    lemma LengthWords(n: nat)
      requires CountedTo(n)
      ensures total0 * 8 % TWO32 == 8 * n % TWO32
      ensures Or(total0 / 0x2000_0000, total1 * 8 % TWO32) == 8 * n / TWO32 % TWO32
    {
      BitCount(total0, total1, n);
      HighWord(total1, total0);
      hide Or;
    }

    /** fillbuf and the two length words, after the first `bytes` of the buffer. */
    method WritePadding(bytes: nat) returns (n: nat)
      requires buffer.Length == BUFSIZE && bytes <= 64
      modifies buffer
      ensures n == (if bytes >= 56 then 120 - bytes else 56 - bytes) + bytes + 8 <= BUFSIZE
      ensures buffer[..n] == old(buffer[..bytes])
                             + ([0x80] + ZeroBytes(n - 9 - bytes)
                                + (WordBytes(total0 * 8 % TWO32) + WordBytes(Or(total0 / 0x2000_0000, total1 * 8 % TWO32))))
    {
      hide WordBytes, Or;
      var pad := if bytes >= 56 then 64 + 56 - bytes else 56 - bytes;
      ghost var start := buffer[..bytes];
      var lo, hi := WordBytes(total0 * 8 % TWO32), WordBytes(Or(total0 / 0x2000_0000, total1 * 8 % TWO32));
      CopyIn(bytes, [0x80] + ZeroBytes(pad - 1));
      CopyIn(bytes + pad, lo);
      CopyIn(bytes + pad + 4, hi);
      n := bytes + pad + 8;
      FourPieces(start, [0x80] + ZeroBytes(pad - 1), lo, hi);
    }
  }

  /** The n first bytes of the buffer, and the others, as parts of the message from p on. */
  lemma BufferCut(m: seq<byte>, p: nat, b: seq<byte>, k: nat, n: nat)
    requires p + k == |m| && n <= k <= |b| && b[..k] == m[p..]
    ensures m[..p] + m[p..p + n] == m[..p + n] && b[..n] == m[p..p + n] && b[n..k] == m[p + n..]
  {
    assert b[..n] == b[..k][..n];
    assert b[n..k] == b[..k][n..];
  }

  lemma FourPieces(a: seq<byte>, b: seq<byte>, c: seq<byte>, d: seq<byte>)
    ensures a + b + c + d == a + (b + (c + d))
  {}

  /** The blocks processed and those of the padded rest make up the padded message. */
  lemma WholeMessage(m: seq<byte>, p: nat)
    requires p <= |m| && p % 64 == 0
    ensures |m[p..] + Padding(|m|)| % 64 == 0
    ensures Blocks(Blocks(INIT, m[..p]), m[p..] + Padding(|m|)) == Digest(m)
  {
    hide Blocks, Padding;
    var last := m[p..] + Padding(|m|);
    assert m[..p] + last == m + Padding(|m|);
    RestLength(|m|, p, |Padding(|m|)|);
    BlocksConcat(INIT, m[..p], last);
  }

  lemma RestLength(n: nat, p: nat, k: nat)
    requires p <= n && p % 64 == 0 && (n + k) % 64 == 0
    ensures (n - p + k) % 64 == 0
  {}

  lemma NoRounds(s: State, X: seq<nat>)
    requires |X| == 16
    ensures Rounds(s, X, 0) == s
  {}

  lemma OneMoreRound(s: State, X: seq<nat>, r: nat)
    requires |X| == 16 && r < 4
    ensures Rounds(s, X, r + 1) == Operations(Rounds(s, X, r), X, r, 16)
  {}

  lemma OneMoreBlock(s: State, buf: seq<byte>, i: nat)
    requires i + 64 <= |buf| && i % 64 == 0
    ensures Blocks(s, buf[..i + 64]) == Block(Blocks(s, buf[..i]), buf[i..i + 64])
  {
    hide Block;
    var m := buf[i..i + 64];
    assert buf[..i + 64] == buf[..i] + m;
    BlocksConcat(s, buf[..i], m);
    assert m[..64] == m && m[64..] == [];
  }

  /** The padding that finishing writes is that of the standard. */
  lemma PaddedBuffer(m: seq<byte>, p: nat, bytes: nat, pad: nat)
    requires p + bytes == |m| && p % 64 == 0 && bytes <= 64 && pad == if bytes >= 56 then 120 - bytes else 56 - bytes
    ensures pad >= 1 && pad - 1 == (119 - |m| % 64) % 64
    ensures Padding(|m|) == [0x80] + ZeroBytes(pad - 1) + (WordBytes(8 * |m| % TWO32) + WordBytes(8 * |m| / TWO32 % TWO32))
  {
    hide *;
    PadLength(|m|, p, bytes);
    PaddingIs(|m|);
  }

  lemma PadLength(n: nat, p: nat, bytes: nat)
    requires p + bytes == n && p % 64 == 0 && bytes <= 64
    ensures (119 - n % 64) % 64 == (if bytes >= 56 then 120 - bytes else 56 - bytes) - 1
  {}

  lemma PaddingIs(n: nat)
    ensures Padding(n) == [0x80] + ZeroBytes((119 - n % 64) % 64) + (WordBytes(8 * n % TWO32) + WordBytes(8 * n / TWO32 % TWO32))
  {
    hide WordBytes, ZeroBytes;
  }

  lemma Sizes()
    ensures BLOCKSIZE == 4096 && TWO32 == 0x1_0000_0000 && TWO64 == 0x1_0000_0000_0000_0000
  {}

  // ---- md5_buffer, md5_stream, and any way of cutting a message into pieces

  /** A buffer below 2^33 bytes: the longest that a new context still counts right. */
  method Md5Buffer(input: seq<byte>) returns (digest: State)
    requires |input| < 2 * TWO32
    ensures digest == Digest(input)
  {
    hide *;
    var ctx := new Md5Ctx();
    NothingBefore(input);
    NewCountable(|input|);
    ctx.Feed(input);
    digest := ctx.FinishCtx();
  }

  lemma NothingBefore(input: seq<byte>)
    ensures [] + input == input
  {}

  lemma NewCountable(len: nat)
    ensures Countable(0, 0, len) <==> len < 2 * TWO32
    ensures len < 2 * TWO32 ==> len < TWO64
  {
    BlocksBelow(len, 2 * TWO32);
  }

  lemma BlocksBelow(n: nat, w: nat)
    requires w % 64 == 0
    ensures n / 64 * 64 < w <==> n < w
  {}

  lemma BlockSizes(n: nat, low: nat, p: nat)
    ensures n / 64 * 64 <= n && n / 64 * 64 % 64 == 0 && n - n / 64 * 64 == n % 64 < 64 && (p % 64 == 0 ==> (p + n / 64 * 64) % 64 == 0)
    ensures n <= 128 ==> n / 64 * 64 < TWO64 && (low < TWO32 ==> low + n / 64 * 64 < 2 * TWO32)
  {}

  lemma Joins(m: seq<byte>, s: seq<byte>, n: nat)
    requires n <= |s|
    ensures m + s == m + s[..n] + s[n..]
  {}

  lemma JoinedNone(pieces: seq<seq<byte>>)
    ensures Joined(pieces, 0) == [] && BufferedBy(pieces, 0) == 0
  {}

  lemma JoinedNext(pieces: seq<seq<byte>>, n: nat)
    requires n < |pieces|
    ensures Joined(pieces, n + 1) == Joined(pieces, n) + pieces[n]
  {}

  /** How much of the first n pieces is still in the buffer after them. */
  function BufferedBy(pieces: seq<seq<byte>>, n: nat): nat
    requires n <= |pieces|
  {
    if n == 0 then 0 else BufferedAfter(BufferedBy(pieces, n - 1), |pieces[n - 1]|)
  }

  /** Every piece can be counted when its turn comes. */
  predicate AllCountable(pieces: seq<seq<byte>>) {
    forall i | 0 <= i < |pieces| ::
      |pieces[i]| < TWO64
      && Countable((|Joined(pieces, i)| - BufferedBy(pieces, i)) % TWO32, BufferedBy(pieces, i), |pieces[i]|)
  }

  /** Pieces below 2^32 bytes can always be counted. */
  lemma ShortCountable(pieces: seq<seq<byte>>)
    requires forall i :: 0 <= i < |pieces| ==> |pieces[i]| < TWO32
    ensures AllCountable(pieces)
  {
    forall i | 0 <= i < |pieces|
      ensures Countable((|Joined(pieces, i)| - BufferedBy(pieces, i)) % TWO32, BufferedBy(pieces, i), |pieces[i]|)
    {
      ShortCounted((|Joined(pieces, i)| - BufferedBy(pieces, i)) % TWO32, BufferedBy(pieces, i), |pieces[i]|);
    }
    hide Countable, BufferedBy;
  }

  lemma ShortCounted(low: nat, buffered: nat, len: nat)
    requires len < TWO32
    ensures Countable(low, buffered, len) && len < TWO64
  {}

  /** The digest does not depend on how the message is split over calls of md5_process_bytes. */
  method Md5Pieces(pieces: seq<seq<byte>>) returns (digest: State)
    requires AllCountable(pieces)
    ensures digest == Digest(Joined(pieces, |pieces|))
  {
    hide *;
    Sizes();
    var ctx := new Md5Ctx();
    var i: nat := 0;
    JoinedNone(pieces);
    while i < |pieces|
      invariant 0 <= i <= |pieces| && ctx.Valid() && ctx.buflen == BufferedBy(pieces, i) <= 64 && ctx.msg == Joined(pieces, i)
      invariant fresh(ctx) && fresh(ctx.buffer)
    {
      JoinedNext(pieces, i);
      ctx.ValidFacts();
      ctx.LowCount();
      CountableAt(pieces, i);
      ctx.Feed(pieces[i]);
      i := i + 1;
    }
    digest := ctx.FinishCtx();
  }

  lemma CountableAt(pieces: seq<seq<byte>>, i: nat)
    requires AllCountable(pieces) && i < |pieces|
    ensures |pieces[i]| < TWO64
    ensures Countable((|Joined(pieces, i)| - BufferedBy(pieces, i)) % TWO32, BufferedBy(pieces, i), |pieces[i]|)
    ensures BufferedBy(pieces, i + 1) == BufferedAfter(BufferedBy(pieces, i), |pieces[i]|)
  {}

  const BLOCKSIZE: nat := 4096

  /** One block of md5_stream, by as many calls of fread as it takes; n is what the last of them gave. */
  method ReadBlock(input: seq<byte>, at0: nat, portions: seq<nat>) returns (buffer: seq<byte>, at: nat, n: nat, left: seq<nat>)
    requires at0 <= |input|
    ensures at0 <= at <= |input| && buffer == input[at0..at] && |buffer| <= BLOCKSIZE
    ensures if n == 0 then at == |input| && |buffer| < BLOCKSIZE else |buffer| == BLOCKSIZE
  {
    buffer, at, n, left := [], at0, 0, portions;
    while true
      invariant at0 <= at <= |input| && buffer == input[at0..at] && |buffer| < BLOCKSIZE
      decreases |input| - at
    {
      n := BLOCKSIZE - |buffer|;
      if left != [] {
        if 0 < left[0] < n {
          n := left[0];
        }
        left := left[1..];
      }
      if n > |input| - at {
        n := |input| - at;
      }
      buffer := buffer + input[at..at + n];
      at := at + n;
      if |buffer| >= BLOCKSIZE || n == 0 {
        break;
      }
    }
  }

  lemma ReadSoFar(input: seq<byte>, start: nat, at: nat)
    requires start <= at <= |input|
    ensures input[..start] + input[start..at] == input[..at] && input[..|input|] == input
    ensures start == at ==> input[..start] == input[..at] && input[start..at] == []
    ensures input[..0] == [] && input[..at] + [] == input[..at]
  {}

  /** The blocks of md5_stream that come out full; what is left over is returned. */
  method StreamBlocks(ctx: Md5Ctx, input: seq<byte>, portions: seq<nat>) returns (buffer: seq<byte>)
    requires ctx.Valid() && ctx.buflen == 0 && ctx.msg == []
    modifies ctx, ctx.buffer
    ensures ctx.Valid() && ctx.buflen == 0 && ctx.msg + buffer == input && |buffer| < BLOCKSIZE
  {
    hide *;
    Sizes();
    var at: nat, left, n := 0, portions, 0;
    ReadSoFar(input, 0, 0);
    while true
      invariant ctx.Valid() && ctx.buflen == 0 && at <= |input| && ctx.msg == input[..at]
      decreases |input| - at
    {
      ghost var start := at;
      buffer, at, n, left := ReadBlock(input, at, left);
      ReadSoFar(input, start, at);
      if n == 0 {
        return;
      }
      ctx.ValidFacts();
      ctx.WholeBlocks(buffer);
      ctx.ValidMade();
    }
  }

  /** md5_stream, when the calls of fread give at most as many bytes as the portions say. */
  method Md5Stream(input: seq<byte>, portions: seq<nat>) returns (digest: State)
    ensures digest == Digest(input)
  {
    hide *;
    Sizes();
    var ctx := new Md5Ctx();
    var buffer := StreamBlocks(ctx, input, portions);
    if |buffer| > 0 {
      ctx.ValidFacts();
      ShortCounted(ctx.total0, 0, |buffer|);
      ctx.Feed(buffer);
    } else {
      AddNone(ctx.msg, buffer);
    }
    digest := ctx.FinishCtx();
  }

  lemma AddNone(s: seq<byte>, t: seq<byte>)
    requires |t| == 0
    ensures s + t == s
  {}
}
