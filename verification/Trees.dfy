/** The compressor's code trees, once their code lengths are known: bi_reverse, gen_codes and send_code. */
module Trees {
  import opened Bits
  import opened BitWriting
  import opened PrefixCodes

  const MAX_BITS: nat := 15

  /** fc is a frequency, later a code; dl is a parent node, later a code length. */
  datatype CtData = CtData(fc: nat, dl: nat)

  /** The code lengths of the first n symbols. */
  function Lens(tree: seq<CtData>, n: nat): (s: seq<nat>)
    requires n <= |tree|
    ensures |s| == n && forall i :: 0 <= i < n ==> s[i] == tree[i].dl
  {
    seq(n, i requires 0 <= i < n => tree[i].dl)
  }

  /** Every symbol with a code has its canonical codeword, reversed for the bit writer. */
  ghost predicate Coded(tree: seq<CtData>, lens: seq<nat>) {
    |lens| <= |tree|
    && forall i :: 0 <= i < |lens| ==>
         tree[i].dl == lens[i] <= MAX_BITS
         && (lens[i] > 0 ==> tree[i].fc < Pow2(lens[i]) && ToBits(tree[i].fc, lens[i]) == Codeword(lens, i))
  }

  method SendCode(w: BitWriter, tree: array<CtData>, c: nat, ghost lens: seq<nat>)
    requires w.Valid() && Coded(tree[..], lens) && c < |lens| && lens[c] > 0
    modifies w
    ensures w.Valid() && w.Sent() == old(w.Sent()) + Codeword(lens, c)
    ensures old(w.out) <= w.out
  {
    hide ToBits, Pow2, Codeword;
    assert tree[c] == tree[..][c];
    w.SendBits(tree[c].fc, tree[c].dl);
  }

  // ---- bi_reverse

  /** Bit n of v goes in front of the n bits below it. */
  lemma {:induction false} MsbFront(v: nat, n: nat)
    ensures MsbBits(v, n + 1) == [Shr(v, n) % 2 == 1] + MsbBits(v, n)
  {
    if n > 0 {
      MsbFront(v / 2, n - 1);
      Assoc([Shr(v, n) % 2 == 1], MsbBits(v / 2, n - 1), [v % 2 == 1]);
    }
  }

  lemma ReverseStep(v: nat, n: nat, res: nat, code: nat)
    requires res == 2 * Val(MsbBits(v, n)) && code == Shr(v, n)
    ensures 2 * Or(And(code, 1), res) == 2 * Val(MsbBits(v, n + 1))
    ensures code / 2 == Shr(v, n + 1)
  {
    MsbFront(v, n);
    ShrNext(v, n);
    AndOne(code);
    OrLowBit(code % 2, Val(MsbBits(v, n)));
    assert MsbBits(v, n + 1)[1..] == MsbBits(v, n);
    hide And, Or, MsbBits, Shr;
  }

  lemma OrLowBit(b: nat, v: nat)
    requires b < 2
    ensures Or(b, 2 * v) == b + 2 * v
  {
    Pow2Values();
    OrDisjoint(b, v, 1);
  }

  /** Reverse the low len bits of code. */
  method BiReverse(code: nat, len: nat) returns (r: nat)
    requires len >= 1
    ensures r < Pow2(len) && ToBits(r, len) == MsbBits(code, len)
  {
    hide *;
    var res, c, n := 0, code, len;
    NoBits(code);
    while true
      invariant 1 <= n <= len && res == 2 * Val(MsbBits(code, len - n)) && c == Shr(code, len - n)
      decreases n
    {
      ReverseStep(code, len - n, res, c);
      res := Or(And(c, 1), res);
      c := c / 2;
      res := res * 2;
      n := n - 1;
      if n == 0 {
        break;
      }
    }
    ValBound(MsbBits(code, len));
    ToBitsVal(MsbBits(code, len));
    return res / 2;
  }

  lemma NoBits(v: nat)
    ensures Val(MsbBits(v, 0)) == 0 && Shr(v, 0) == v
  {}

  // ---- gen_codes

  /** Codes of length k end within the codes of k bits. */
  lemma CodesFit(lens: seq<nat>, k: nat)
    requires 1 <= k <= MAX_BITS && !Oversubscribed(lens)
    ensures NextCode(lens, k) + Count(lens, k) <= Pow2(k)
    ensures Pow2(k) <= 32768
  {
    hide *;
    Sizes();
    KraftHolds(lens);
    NextCodeFilled(lens, k);
    FilledMonotone(lens, k, M);
    Pow2Add(k, M - k);
    Pow2Monotone(k, MAX_BITS);
    FilledNext(lens, k);
    Distribute(NextCode(lens, k), Count(lens, k), Pow2(M - k));
    MulLt(Pow2(k), NextCode(lens, k) + Count(lens, k), Pow2(M - k));
  }

  lemma Sizes()
    ensures M == 16 && MAX_BITS == 15 && Pow2(MAX_BITS) == 32768
  {
    Pow2Values();
  }

  lemma KraftHolds(lens: seq<nat>)
    requires !Oversubscribed(lens)
    ensures Filled(lens, M) <= Pow2(M)
  {}

  /** The last code is all ones, as gen_codes asserts: the code of MAX_BITS bits that follows it would be 2^MAX_BITS. */
  lemma LastCodeAllOnes(lens: seq<nat>)
    requires Complete(lens) && forall i :: 0 <= i < |lens| ==> lens[i] <= MAX_BITS
    ensures NextCode(lens, MAX_BITS) + Count(lens, MAX_BITS) == Pow2(MAX_BITS)
  {
    NextCodeFilled(lens, MAX_BITS);
    FilledNext(lens, MAX_BITS);
    FilledNext(lens, M);
    NoneOf(lens, |lens|, M);
    Pow2Values();
    hide Filled, NextCode, CountTo;
    Distribute(NextCode(lens, MAX_BITS), Count(lens, MAX_BITS), Pow2(1));
  }

  lemma {:induction false} NoneOf(lens: seq<nat>, n: nat, k: nat)
    requires n <= |lens| && forall i :: 0 <= i < |lens| ==> lens[i] != k
    ensures CountTo(lens, n, k) == 0
  {
    if n > 0 { NoneOf(lens, n - 1, k); }
  }

  /** The codeword of the last symbol of the greatest length is all ones. */
  lemma LastCodeword(lens: seq<nat>, n: nat)
    requires Complete(lens) && n < |lens| && 1 <= lens[n] <= MAX_BITS
    requires forall i :: 0 <= i < |lens| ==> lens[i] <= lens[n]
    requires forall i :: n < i < |lens| ==> lens[i] != lens[n]
    ensures CodeVal(lens, n) == Pow2(lens[n]) - 1
    ensures forall j :: 0 <= j < lens[n] ==> Codeword(lens, n)[j]
  {
    hide *;
    var k := lens[n];
    LastEnds(lens, n);
    SameQuotient(CodeVal(lens, n), Pow2(k), Pow2(M - k));
    AllOnes(CodeVal(lens, n), k);
    CodewordIs(lens, n);
  }

  /** Its stretch ends at the end of the line. */
  lemma LastEnds(lens: seq<nat>, n: nat)
    requires Complete(lens) && n < |lens| && 1 <= lens[n] <= MAX_BITS
    requires forall i :: 0 <= i < |lens| ==> lens[i] <= lens[n]
    requires forall i :: n < i < |lens| ==> lens[i] != lens[n]
    ensures lens[n] <= M && var p := Pow2(M - lens[n]);
            p > 0 && CodeVal(lens, n) * p + p == Pow2(lens[n]) * p
  {
    var k := lens[n];
    StartIs(lens, n);
    RankLast(lens, n, |lens|);
    FilledNext(lens, k);
    NoLonger(lens, k, M);
    Pow2Add(k, M - k);
    Distribute(CountTo(lens, n, k), 1, Pow2(M - k));
    hide Filled, NextCode, CountTo, Pow2, Codeword;
  }

  lemma SameQuotient(v: nat, q: nat, p: nat)
    requires p > 0 && v * p + p == q * p
    ensures v + 1 == q
  {
    MulLt(v + 1, q, p);
    MulLt(q, v + 1, p);
    Distribute(v, 1, p);
  }

  lemma {:induction false} AllOnes(v: nat, k: nat)
    requires v + 1 == Pow2(k)
    ensures forall j :: 0 <= j < k ==> MsbBits(v, k)[j]
  {
    if k > 0 {
      AllOnes(v / 2, k - 1);
    }
  }

  lemma {:induction false} RankLast(lens: seq<nat>, n: nat, m: nat)
    requires n < m <= |lens| && forall i :: n < i < |lens| ==> lens[i] != lens[n]
    ensures CountTo(lens, m, lens[n]) == CountTo(lens, n, lens[n]) + 1
    decreases m
  {
    if m > n + 1 { RankLast(lens, n, m - 1); }
  }

  lemma {:induction false} NoLonger(lens: seq<nat>, k: nat, m: nat)
    requires k <= m <= M && forall i :: 0 <= i < |lens| ==> lens[i] <= k
    ensures Filled(lens, m) == Filled(lens, k)
    decreases m
  {
    if m > k {
      NoLonger(lens, k, m - 1);
      NoneOf(lens, |lens|, m);
    }
  }

  /** Where the next code of each length stands after the first n symbols. */
  ghost predicate CodesSoFar(next: seq<nat>, lens: seq<nat>, n: nat)
    requires n <= |lens|
  {
    |next| == MAX_BITS + 1
    && forall k :: 1 <= k <= MAX_BITS ==> next[k] == NextCode(lens, k) + CountTo(lens, n, k)
  }

  lemma CodesSoFarStep(next: seq<nat>, lens: seq<nat>, n: nat)
    requires n < |lens| && CodesSoFar(next, lens, n) && lens[n] <= MAX_BITS
    ensures lens[n] == 0 ==> CodesSoFar(next, lens, n + 1)
    ensures lens[n] > 0 ==> next[lens[n]] == CodeVal(lens, n) && CodesSoFar(next[lens[n] := next[lens[n]] + 1], lens, n + 1)
  {}

  lemma NextCodeStep(lens: seq<nat>, k: nat)
    requires k >= 1
    ensures NextCode(lens, k + 1) == 2 * (NextCode(lens, k) + Count(lens, k)) && NextCode(lens, 1) == 0
  {}

  /** The smallest code of each length, from the counts. */
  method FirstCodes(blCount: seq<nat>, ghost lens: seq<nat>) returns (next: seq<nat>)
    requires |blCount| == MAX_BITS + 1 && blCount[0] == 0 && !Oversubscribed(lens)
    requires forall k :: 1 <= k <= MAX_BITS ==> blCount[k] == Count(lens, k)
    ensures CodesSoFar(next, lens, 0)
  {
    hide *;
    next := seq(MAX_BITS + 1, _ => 0);
    var code, bits := 0, 1;
    NextCodeStep(lens, 1);
    while bits <= MAX_BITS
      invariant 1 <= bits <= MAX_BITS + 1 && |next| == MAX_BITS + 1
      invariant bits == 1 ==> code == 0
      invariant bits > 1 ==> code == NextCode(lens, bits - 1)
      invariant forall k :: 1 <= k < bits ==> next[k] == NextCode(lens, k)
    {
      if bits > 1 {
        NextCodeStep(lens, bits - 1);
        CodesFit(lens, bits);
        CodesFit(lens, bits - 1);
      }
      code := (code + blCount[bits - 1]) * 2 % 65536;
      next := next[bits := code];
      bits := bits + 1;
    }
    CodesStart(next, lens);
  }

  lemma CodesStart(next: seq<nat>, lens: seq<nat>)
    requires |next| == MAX_BITS + 1 && forall k :: 1 <= k <= MAX_BITS ==> next[k] == NextCode(lens, k)
    ensures CodesSoFar(next, lens, 0)
  {}

  /** The code values fit 16 bits, and so does the counter after them. */
  lemma CodeFits(lens: seq<nat>, n: nat)
    requires n < |lens| && 1 <= lens[n] <= MAX_BITS && !Oversubscribed(lens)
    ensures CodeVal(lens, n) + 1 <= 32768
  {
    RankBound(lens, n);
    CodesFit(lens, lens[n]);
    hide NextCode, CountTo;
  }

  lemma CodewordIs(lens: seq<nat>, n: nat)
    requires n < |lens|
    ensures Codeword(lens, n) == MsbBits(CodeVal(lens, n), lens[n])
  {}

  /** gen_codes: the canonical codes of section 3.2.2 of RFC 1951, reversed. */
  method GenCodes(tree: array<CtData>, maxCode: int, blCount: seq<nat>)
    requires -1 <= maxCode < tree.Length && |blCount| == MAX_BITS + 1 && blCount[0] == 0
    requires var lens := Lens(tree[..], maxCode + 1);
             (forall i :: 0 <= i < |lens| ==> lens[i] <= MAX_BITS) && !Oversubscribed(lens)
             && forall k :: 1 <= k <= MAX_BITS ==> blCount[k] == Count(lens, k)
    modifies tree
    ensures Coded(tree[..], Lens(old(tree[..]), maxCode + 1))
    ensures forall i :: 0 <= i < tree.Length ==> tree[i].dl == old(tree[i].dl)
    ensures forall i :: maxCode < i < tree.Length ==> tree[i] == old(tree[i])
    ensures forall i :: 0 <= i <= maxCode && old(tree[i].dl) == 0 ==> tree[i] == old(tree[i])
  {
    hide *;
    ghost var lens := Lens(tree[..], maxCode + 1);
    var next := FirstCodes(blCount, lens);
    CodesSize(next, lens, 0);
    var n := 0;
    while n <= maxCode
      invariant 0 <= n <= maxCode + 1 && CodesSoFar(next, lens, n) && |next| == MAX_BITS + 1
      invariant forall i :: 0 <= i < tree.Length ==> tree[i].dl == old(tree[i].dl)
      invariant forall i :: n <= i < tree.Length ==> tree[i] == old(tree[i])
      invariant forall i :: 0 <= i < n && old(tree[i].dl) == 0 ==> tree[i] == old(tree[i])
      invariant forall i :: 0 <= i < n && lens[i] > 0
                            ==> tree[i].fc < Pow2(lens[i]) && ToBits(tree[i].fc, lens[i]) == Codeword(lens, i)
    {
      var len := tree[n].dl;
      CodesSoFarStep(next, lens, n);
      if len != 0 {
        CodeFits(lens, n);
        CodewordIs(lens, n);
        var code := BiReverse(next[len], len);
        next := next[len := (next[len] + 1) % 65536];
        tree[n] := tree[n].(fc := code);
      }
      CodesSize(next, lens, n + 1);
      n := n + 1;
    }
    CodedIs(tree[..], lens);
  }

  lemma CodedIs(tree: seq<CtData>, lens: seq<nat>)
    requires |lens| <= |tree| && forall i :: 0 <= i < |lens| ==> tree[i].dl == lens[i] <= MAX_BITS
    requires forall i :: 0 <= i < |lens| && lens[i] > 0
                         ==> tree[i].fc < Pow2(lens[i]) && ToBits(tree[i].fc, lens[i]) == Codeword(lens, i)
    ensures Coded(tree, lens)
  {}

  lemma CodesSize(next: seq<nat>, lens: seq<nat>, n: nat)
    requires n <= |lens| && CodesSoFar(next, lens, n)
    ensures |next| == MAX_BITS + 1
  {}
}
