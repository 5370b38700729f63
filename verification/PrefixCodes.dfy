/** Canonical prefix codes: section 3.2.2 of RFC 1951, and what makes them decodable.
    A codeword of length k with value v is read as the interval of 16-bit patterns that start with it,
    [v * 2^(16-k), (v+1) * 2^(16-k)): codes are laid out one after the other on the line 0 .. 2^16. */
module PrefixCodes {
  import opened Options
  import opened Bits

  /** Longest code length any table may have (BMAX). */
  const M: nat := 16

  ghost predicate LensOk(lens: seq<nat>) {
    forall i :: 0 <= i < |lens| ==> lens[i] <= M
  }

  /** How many of the first n symbols have length k. */
  function CountTo(lens: seq<nat>, n: nat, k: nat): (c: nat)
    requires n <= |lens|
    ensures c <= n
  {
    if n == 0 then 0 else CountTo(lens, n - 1, k) + (if lens[n - 1] == k then 1 else 0)
  }

  function Count(lens: seq<nat>, k: nat): (c: nat)
    ensures c <= |lens|
  {
    CountTo(lens, |lens|, k)
  }

  /** Step 2 of section 3.2.2: the numerically smallest code of each length. */
  function NextCode(lens: seq<nat>, k: nat): nat {
    if k <= 1 then 0 else 2 * (NextCode(lens, k - 1) + Count(lens, k - 1))
  }

  /** Step 3 of section 3.2.2: consecutive values in symbol order for codes of one length. */
  function CodeVal(lens: seq<nat>, n: nat): nat
    requires n < |lens|
  {
    NextCode(lens, lens[n]) + CountTo(lens, n, lens[n])
  }

  function Codeword(lens: seq<nat>, n: nat): (s: seq<bool>)
    requires n < |lens|
    ensures |s| == lens[n]
  {
    MsbBits(CodeVal(lens, n), lens[n])
  }

  /** How much of the line the codes of length 1 .. k cover. */
  function Filled(lens: seq<nat>, k: nat): nat
    requires k <= M
  {
    if k == 0 then 0 else Filled(lens, k - 1) + Count(lens, k) * Pow2(M - k)
  }

  function Start(lens: seq<nat>, n: nat): nat
    requires n < |lens| && lens[n] <= M
  {
    CodeVal(lens, n) * Pow2(M - lens[n])
  }

  /** Kraft's inequality, its equality case, and neither. */
  predicate Oversubscribed(lens: seq<nat>) { Filled(lens, M) > Pow2(M) }

  predicate Complete(lens: seq<nat>) { Filled(lens, M) == Pow2(M) }

  // ---- Counting

  lemma {:induction false} CountMonotone(lens: seq<nat>, m: nat, n: nat, k: nat)
    requires m <= n <= |lens|
    ensures CountTo(lens, m, k) <= CountTo(lens, n, k)
    decreases n - m
  {
    if m < n { CountMonotone(lens, m + 1, n, k); }
  }

  lemma RankBound(lens: seq<nat>, n: nat)
    requires n < |lens|
    ensures CountTo(lens, n, lens[n]) < Count(lens, lens[n])
  {
    CountMonotone(lens, n + 1, |lens|, lens[n]);
  }

  lemma RankStrict(lens: seq<nat>, m: nat, n: nat)
    requires m < n < |lens| && lens[m] == lens[n]
    ensures CountTo(lens, m, lens[m]) < CountTo(lens, n, lens[n])
  {
    CountMonotone(lens, m + 1, n, lens[n]);
  }

  lemma MulNonNegative(a: nat, b: nat)
    ensures a * b >= 0
  {}

  lemma {:induction false} FilledMonotone(lens: seq<nat>, j: nat, k: nat)
    requires j <= k <= M
    ensures Filled(lens, j) <= Filled(lens, k)
    decreases k - j
  {
    if j < k {
      FilledMonotone(lens, j + 1, k);
      MulNonNegative(Count(lens, j + 1), Pow2(M - (j + 1)));
    }
  }

  lemma FilledNext(lens: seq<nat>, k: nat)
    requires 1 <= k <= M
    ensures Filled(lens, k) == Filled(lens, k - 1) + Count(lens, k) * Pow2(M - k)
  {}

  lemma CountIs(lens: seq<nat>, k: nat)
    ensures Count(lens, k) == CountTo(lens, |lens|, k)
  {}

  // ---- Codes on the line

  lemma {:induction false} NextCodeFilled(lens: seq<nat>, k: nat)
    requires 1 <= k <= M
    ensures NextCode(lens, k) * Pow2(M - k) == Filled(lens, k - 1)
  {
    if k > 1 {
      NextCodeFilled(lens, k - 1);
      DoubleDistribute(NextCode(lens, k - 1), Count(lens, k - 1), Pow2(M - k));
    }
  }

  /** A code starts where the shorter ones, and the earlier ones of its length, end. */
  lemma StartIs(lens: seq<nat>, n: nat)
    requires n < |lens| && 1 <= lens[n] <= M
    ensures var k := lens[n];
            Start(lens, n) == Filled(lens, k - 1) + CountTo(lens, n, k) * Pow2(M - k)
            && Start(lens, n) + Pow2(M - k) <= Filled(lens, k)
  {
    var k := lens[n];
    NextCodeFilled(lens, k);
    RankBound(lens, n);
    var r, c, p := CountTo(lens, n, k), Count(lens, k), Pow2(M - k);
    Distribute(NextCode(lens, k), r, p);
    MulLt(r, c, p);
  }

  lemma DoubleDistribute(a: nat, b: nat, p: nat)
    ensures (2 * (a + b)) * p == a * (2 * p) + b * (2 * p)
  {}

  lemma StartFits(lens: seq<nat>, n: nat)
    requires n < |lens| && 1 <= lens[n] <= M && !Oversubscribed(lens)
    ensures Start(lens, n) + Pow2(M - lens[n]) <= Pow2(M)
    ensures CodeVal(lens, n) < Pow2(lens[n])
  {
    var k := lens[n];
    StartIs(lens, n);
    FilledMonotone(lens, k, M);
    Pow2Add(k, M - k);
    var v, p, q := CodeVal(lens, n), Pow2(M - k), Pow2(k);
    if v >= q { MulLe(q, v, p); }
  }

  predicate Apart(a: nat, la: nat, b: nat, lb: nat)
    requires la <= M && lb <= M
  {
    a + Pow2(M - la) <= b || b + Pow2(M - lb) <= a
  }

  /** Different symbols own disjoint stretches of the line. */
  lemma CodesApart(lens: seq<nat>, m: nat, n: nat)
    requires m < |lens| && n < |lens| && m != n
    requires 1 <= lens[m] <= M && 1 <= lens[n] <= M
    ensures Apart(Start(lens, m), lens[m], Start(lens, n), lens[n])
  {
    hide *;
    StartIs(lens, m);
    StartIs(lens, n);
    MulNonNegative(CountTo(lens, m, lens[m]), Pow2(M - lens[m]));
    MulNonNegative(CountTo(lens, n, lens[n]), Pow2(M - lens[n]));
    if lens[m] < lens[n] {
      FilledMonotone(lens, lens[m], lens[n] - 1);
      ApartIf(Start(lens, m), lens[m], Start(lens, n), lens[n]);
    } else if lens[n] < lens[m] {
      FilledMonotone(lens, lens[n], lens[m] - 1);
      ApartIf(Start(lens, m), lens[m], Start(lens, n), lens[n]);
    } else {
      SameLengthApart(lens, m, n);
    }
  }

  lemma ApartIf(a: nat, la: nat, b: nat, lb: nat)
    requires la <= M && lb <= M && (a + Pow2(M - la) <= b || b + Pow2(M - lb) <= a)
    ensures Apart(a, la, b, lb)
  {}

  lemma SameLengthApart(lens: seq<nat>, m: nat, n: nat)
    requires m < |lens| && n < |lens| && m != n && lens[m] == lens[n]
    requires 1 <= lens[n] <= M
    ensures Apart(Start(lens, m), lens[m], Start(lens, n), lens[n])
  {
    StartIs(lens, m);
    StartIs(lens, n);
    var k := lens[n];
    var p := Pow2(M - k);
    if m < n {
      RankStrict(lens, m, n);
      MulLt(CountTo(lens, m, k), CountTo(lens, n, k), p);
    } else {
      RankStrict(lens, n, m);
      MulLt(CountTo(lens, n, k), CountTo(lens, m, k), p);
    }
  }

  // ---- Codewords as prefixes of bit strings

  /** Where on the line the patterns starting with s begin. */
  function Low(s: seq<bool>): nat
    requires |s| <= M
  {
    MsbVal(s) * Pow2(M - |s|)
  }

  lemma LowOfCode(lens: seq<nat>, n: nat)
    requires n < |lens| && 1 <= lens[n] <= M && !Oversubscribed(lens)
    ensures Low(Codeword(lens, n)) == Start(lens, n)
  {
    StartFits(lens, n);
    MsbOfBits(CodeVal(lens, n), lens[n]);
    ModSmall(CodeVal(lens, n), Pow2(lens[n]));
  }

  /** t continues s exactly when t's stretch lies inside that of s. */
  lemma PrefixIffInside(s: seq<bool>, t: seq<bool>)
    requires |s| <= |t| <= M
    ensures s <= t <==> Low(s) <= Low(t) < Low(s) + Pow2(M - |s|)
    ensures s <= t ==> Low(t) + Pow2(M - |t|) <= Low(s) + Pow2(M - |s|)
  {
    PrefixIffSame(s, t);
    PrefixLows(s, t);
    hide *;
  }

  lemma PrefixIffSame(s: seq<bool>, t: seq<bool>)
    requires |s| <= |t|
    ensures s <= t <==> MsbVal(s) == MsbVal(t[..|s|])
  {
    hide MsbVal;
    if s <= t {
      assert s == t[..|s|];
    }
    if MsbVal(s) == MsbVal(t[..|s|]) { MsbInjective(s, t[..|s|]); }
  }

  lemma PrefixLows(s: seq<bool>, t: seq<bool>)
    requires |s| <= |t| <= M
    ensures MsbVal(s) == MsbVal(t[..|s|]) <==> Low(s) <= Low(t) < Low(s) + Pow2(M - |s|)
    ensures MsbVal(s) == MsbVal(t[..|s|]) ==> Low(t) + Pow2(M - |t|) <= Low(s) + Pow2(M - |s|)
  {
    var head, tail := t[..|s|], t[|s|..];
    assert t == head + tail;
    hide *;
    ConcatLows(s, head, tail);
  }

  lemma ConcatLows(s: seq<bool>, head: seq<bool>, tail: seq<bool>)
    requires |s| == |head| && |head| + |tail| <= M
    ensures var t := head + tail;
            (MsbVal(s) == MsbVal(head) <==> Low(s) <= Low(t) < Low(s) + Pow2(M - |s|))
            && (MsbVal(s) == MsbVal(head) ==> Low(t) + Pow2(M - |t|) <= Low(s) + Pow2(M - |s|))
  {
    hide *;
    var p, q := Pow2(M - |s| - |tail|), Pow2(|tail|);
    LowOfConcat(head, tail);
    LowIs(s);
    MsbBound(tail);
    Pow2Add(|tail|, M - |s| - |tail|);
    LowsCompare(Low(s), Low(head + tail), MsbVal(s), MsbVal(head), MsbVal(tail), p, q);
  }

  lemma LowIs(s: seq<bool>)
    requires |s| <= M
    ensures Low(s) == MsbVal(s) * Pow2(M - |s|)
  {}

  lemma LowsCompare(ls: nat, lt: nat, a: nat, h: nat, b: nat, p: nat, q: nat)
    requires p > 0 && b < q
    requires ls == a * (q * p) && lt == (h * q + b) * p
    ensures a == h <==> ls <= lt < ls + q * p
    ensures a == h ==> lt + p <= ls + q * p
  {
    Inside(a, h, b, p, q);
  }

  lemma LowOfConcat(s: seq<bool>, t: seq<bool>)
    requires |s| + |t| <= M
    ensures Low(s + t) == (MsbVal(s) * Pow2(|t|) + MsbVal(t)) * Pow2(M - |s| - |t|)
  {
    hide MsbVal, Pow2;
    MsbConcat(s, t);
  }

  lemma Inside(a: nat, h: nat, b: nat, p: nat, q: nat)
    requires p > 0 && b < q
    ensures a == h <==> a * (q * p) <= (h * q + b) * p < a * (q * p) + q * p
    ensures a == h ==> (h * q + b) * p + p <= a * (q * p) + q * p
  {
    var u := q * p;
    Distribute(h * q, b, p);
    assert (h * q) * p == h * u by { MulAssoc(h, q, p); }
    MulLt(b, q, p);
    MulLt(a, h, u);
    MulLt(h, a, u);
    assert 0 <= b * p < u;
  }

  lemma MulAssoc(a: nat, b: nat, c: nat)
    ensures (a * b) * c == a * (b * c)
  {}

  /** No codeword is a prefix of another one. */
  lemma PrefixFree(lens: seq<nat>, m: nat, n: nat)
    requires m < |lens| && n < |lens| && 1 <= lens[m] <= M && 1 <= lens[n] <= M
    requires !Oversubscribed(lens)
    requires Codeword(lens, m) <= Codeword(lens, n)
    ensures m == n
  {
    PrefixIffInside(Codeword(lens, m), Codeword(lens, n));
    LowOfCode(lens, m);
    LowOfCode(lens, n);
    if m != n {
      CodesApart(lens, m, n);
    }
  }

  // ---- Decoding one symbol

  /** Symbol n's codeword is what the bits of S show at p. */
  ghost predicate CodeAt(lens: seq<nat>, S: seq<bool>, p: nat, n: nat) {
    n < |lens| && lens[n] > 0 && p + lens[n] <= |S| && S[p..p + lens[n]] == Codeword(lens, n)
  }

  lemma CodeAtUnique(lens: seq<nat>, S: seq<bool>, p: nat, m: nat, n: nat)
    requires LensOk(lens) && !Oversubscribed(lens)
    requires CodeAt(lens, S, p, m) && CodeAt(lens, S, p, n)
    ensures m == n
  {
    if lens[m] <= lens[n] {
      assert S[p..p + lens[m]] == S[p..p + lens[n]][..lens[m]];
      PrefixFree(lens, m, n);
    } else {
      assert S[p..p + lens[n]] == S[p..p + lens[m]][..lens[n]];
      PrefixFree(lens, n, m);
    }
  }

  /** The symbol at p and the position after its codeword. */
  ghost function Symbol(lens: seq<nat>, S: seq<bool>, p: nat): (r: Option<(nat, nat)>)
    ensures r.Some? ==> r.value.0 < |lens| && p < r.value.1 <= |S|
    ensures r.Some? ==> CodeAt(lens, S, p, r.value.0) && r.value.1 == p + lens[r.value.0]
    ensures r.None? ==> forall n: nat :: !CodeAt(lens, S, p, n)
  {
    if exists n: nat :: CodeAt(lens, S, p, n) then
      var n: nat :| CodeAt(lens, S, p, n);
      Some((n, p + lens[n]))
    else None
  }

  lemma SymbolIs(lens: seq<nat>, S: seq<bool>, p: nat, n: nat)
    requires LensOk(lens) && !Oversubscribed(lens) && CodeAt(lens, S, p, n)
    ensures Symbol(lens, S, p) == Some((n, p + lens[n]))
  {
    CodeAtUnique(lens, S, p, n, Symbol(lens, S, p).value.0);
  }
}
