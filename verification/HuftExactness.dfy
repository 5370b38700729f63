/** Exactly when huft_build's tables decode. A table of the second level or beyond is linked from cells of l bits,
    but gets more than l index bits when its prefix has codes of more than l further bits and none of fewer. */
module HuftExactness {
  import opened Options
  import opened Bits
  import opened PrefixCodes
  import opened HuftTables
  import opened HuftSteps
  import opened HuftWalk
  import opened HuftCounting
  import opened HuftSizing

  /** Some codeword that agrees with that of n in its first w bits has more than w and fewer than t. */
  predicate ShortBeside(b: seq<nat>, n: nat, w: nat, t: nat)
    requires n < |b| && w <= b[n]
  {
    exists m: nat | m < |b| :: w < b[m] < t && Codeword(b, m)[..w] == Codeword(b, n)[..w]
  }

  /** The code of n goes on for more than l bits where a table ends that is linked with w bits; its bit t, or any that may
      follow it there, is a one beyond those l; and no code beside it has fewer than t bits. */
  predicate Unread(b: seq<nat>, n: nat, w: nat, t: nat, l: nat) {
    n < |b| && 1 <= l <= w && w % l == 0 && w + l < b[n] && w + l <= t < Longest(b)
    && (t < b[n] ==> Codeword(b, n)[t]) && !ShortBeside(b, n, w, t)
  }

  /** The lengths for which tables of l bits decode every code. */
  predicate Straight(b: seq<nat>, l: nat)
    requires l >= 1
  {
    forall n: nat, w: nat, t: nat | n < |b| && l <= w < b[n] && w <= t < Longest(b) :: !Unread(b, n, w, t, l)
  }

  /** Codeword n goes on after the prefix s. */
  ghost predicate Under(b: seq<nat>, s: seq<bool>, n: nat) {
    n < |b| && |s| < b[n] && s <= Codeword(b, n)
  }

  /** What Unread says of the prefix s. */
  ghost predicate FlaggedAt(b: seq<nat>, l: nat, s: seq<bool>, n: nat, t: nat) {
    Under(b, s, n) && b[n] > |s| + l && |s| + l <= t < Longest(b) && (t < b[n] ==> Codeword(b, n)[t])
    && forall m: nat :: Under(b, s, m) ==> b[m] >= t
  }

  ghost predicate Flagged(b: seq<nat>, l: nat, s: seq<bool>) {
    exists n: nat, t: nat :: FlaggedAt(b, l, s, n, t)
  }

  /** Some code under the prefix s of more than l further bits shows a one at an index bit beyond those, in a table of
      j bits. */
  ghost predicate HitAt(b: seq<nat>, l: nat, s: seq<bool>, j: nat, n: nat, t: nat) {
    Under(b, s, n) && b[n] > |s| + l && |s| + l <= t < |s| + j && (t < b[n] ==> Codeword(b, n)[t])
  }

  ghost predicate Hit(b: seq<nat>, l: nat, s: seq<bool>, j: nat) {
    exists n: nat, t: nat :: HitAt(b, l, s, j, n, t)
  }

  lemma StraightFlags(b: seq<nat>, l: nat, s: seq<bool>)
    requires l >= 1 && Straight(b, l) && |s| >= l && |s| % l == 0
    ensures !Flagged(b, l, s)
  {
    hide Straight;
    forall n: nat, t: nat
      ensures !FlaggedAt(b, l, s, n, t)
    {
      if FlaggedAt(b, l, s, n, t) {
        FlagUnread(b, l, s, n, t);
        StraightAt(b, n, |s|, t, l);
      }
    }
  }

  lemma StraightAt(b: seq<nat>, n: nat, w: nat, t: nat, l: nat)
    requires l >= 1 && Straight(b, l) && n < |b| && l <= w < b[n] && w <= t < Longest(b)
    ensures !Unread(b, n, w, t, l)
  {}

  lemma FlagUnread(b: seq<nat>, l: nat, s: seq<bool>, n: nat, t: nat)
    requires l >= 1 && |s| >= l && |s| % l == 0 && FlaggedAt(b, l, s, n, t)
    ensures Unread(b, n, |s|, t, l) && l <= |s| < b[n] && |s| <= t < Longest(b)
  {
    hide Longest, Codeword;
    assert s == Codeword(b, n)[..|s|];
    forall m: nat | m < |b| && |s| < b[m] && Codeword(b, m)[..|s|] == Codeword(b, n)[..|s|]
      ensures b[m] >= t
    {
      assert Under(b, s, m);
    }
  }

  lemma UnreadFlag(b: seq<nat>, n: nat, w: nat, t: nat, l: nat)
    requires Unread(b, n, w, t, l)
    ensures FlaggedAt(b, l, Codeword(b, n)[..w], n, t) && Flagged(b, l, Codeword(b, n)[..w])
  {
    hide Longest, Codeword;
    var s := Codeword(b, n)[..w];
    forall m: nat | Under(b, s, m)
      ensures b[m] >= t
    {
      assert Codeword(b, m)[..w] == s;
    }
    assert FlaggedAt(b, l, s, n, t);
  }

  lemma NotStraight(b: seq<nat>, l: nat) returns (n: nat, w: nat, t: nat)
    requires l >= 1 && !Straight(b, l)
    ensures Unread(b, n, w, t, l)
  {
    n, w, t :| n < |b| && l <= w < b[n] && w <= t < Longest(b) && Unread(b, n, w, t, l);
  }

  // ---- Which tables are wide

  lemma UnderInside(b: seq<nat>, s: seq<bool>, n: nat)
    requires LensOk(b) && !Oversubscribed(b) && n < |b| && |s| < b[n]
    ensures |s| <= M && (Under(b, s, n) <==> Low(s) <= Start(b, n) < End(s))
  {
    assert |s| <= M;
    LowOfCode(b, n);
    PrefixIffInside(s, Codeword(b, n));
    hide Low, Start, Pow2, Codeword;
  }

  /** The stretch of a symbol among those of the counted codes. */
  lemma SymbolLaid(b: seq<nat>, c: seq<nat>, g: nat, n: nat)
    requires Counts(b, c, g) && n < |b| && b[n] > 0
    ensures b[n] <= g && Laid(c, b[n] - 1) <= Start(b, n) && Start(b, n) + Pow2(M - b[n]) <= Laid(c, b[n])
  {
    var k := b[n];
    LaidIsFilled(b, c, k - 1);
    FilledNext(b, k);
    StartIs(b, n);
    MulNonNegative(CountTo(b, n, k), Pow2(M - k));
    MulLe(Count(b, k), c[k], Pow2(M - k));
    hide Filled, Start, Pow2, CountTo;
    assert Laid(c, k) == Laid(c, k - 1) + c[k] * Pow2(M - k);
    hide Laid;
  }

  /** The symbol of the code of length k and rank r. */
  lemma SymbolOf(b: seq<nat>, c: seq<nat>, g: nat, k: nat, r: nat) returns (n: nat)
    requires Counts(b, c, g) && 1 <= k <= g && r < Count(b, k)
    ensures n < |b| && b[n] == k && Start(b, n) == PosOf(c, k, r)
  {
    CountIs(b, k);
    LaidIsFilled(b, c, k - 1);
    n := NthOfLength(b, |b|, k, r);
    StartIs(b, n);
    hide Laid, Filled, Start, CountTo;
  }

  /** Codes that are no symbol's come after all that are, and have the greatest length. */
  lemma DummyBehind(b: seq<nat>, c: seq<nat>, g: nat, k: nat, r: nat)
    requires Counts(b, c, g) && 1 <= k <= g && Count(b, k) <= r < c[k]
    ensures k == g && PosOf(c, k, r) >= Filled(b, M)
  {
    LaidIsFilled(b, c, k - 1);
    FilledNext(b, k);
    FilledStays(b, g, M);
    MulLe(Count(b, k), r, Pow2(M - k));
    hide Laid, Filled, Pow2;
  }

  /** When there is a symbol under the prefix, its first code is a symbol's. */
  lemma FirstSymbol(b: seq<nat>, c: seq<nat>, g: nat, k: nat, r: nat, w: nat, l: nat, s: seq<bool>, m: nat)
    requires AtPrefix(b, c, g, k, r, w, l) && |s| == w && Low(s) == PosOf(c, k, r) && Under(b, s, m)
    ensures r < Count(b, k)
  {
    hide *;
    CountsFacts(b, c, g, k, r, w, l);
    UnderFacts(b, s, m);
    UnderInside(b, s, m);
    SymbolLaid(b, c, g, m);
    LaidMonotoneFilled(b, m);
    if r >= Count(b, k) { DummyBehind(b, c, g, k, r); }
    PowPositive(M - b[m]);
  }

  lemma LaidMonotoneFilled(b: seq<nat>, m: nat)
    requires m < |b| && 1 <= b[m] <= M
    ensures Start(b, m) + Pow2(M - b[m]) <= Filled(b, M)
  {
    StartIs(b, m);
    FilledMonotone(b, b[m], M);
    hide Start, Filled, Pow2;
  }

  /** Codes under the prefix are no shorter than its first. */
  lemma UnderLast(b: seq<nat>, c: seq<nat>, g: nat, k: nat, r: nat, s: seq<bool>, m: nat)
    requires Counts(b, c, g) && 1 <= k <= g && r < c[k] && |s| <= M
    requires Low(s) == PosOf(c, k, r) && Under(b, s, m)
    ensures m < |b| && k <= b[m] <= g
  {
    hide *;
    UnderFacts(b, s, m);
    CountsLens(b, c, g);
    SymbolLaid(b, c, g, m);
    UnderInside(b, s, m);
    PosFits(b, c, g, k, r);
    PowPositive(M - b[m]);
    if b[m] < k { LaidMonotone(c, b[m], k - 1); }
  }

  lemma UnderFacts(b: seq<nat>, s: seq<bool>, n: nat)
    requires Under(b, s, n)
    ensures n < |b| && |s| < b[n]
  {}

  lemma EndOf(s: seq<bool>)
    requires |s| <= M
    ensures End(s) == Low(s) + Pow2(M - |s|)
  {}

  lemma EndBelow(s: seq<bool>)
    requires |s| <= M
    ensures End(s) <= Pow2(M)
  {
    MsbBound(s);
    Pow2Add(|s|, M - |s|);
    MulLt(MsbVal(s), Pow2(|s|), Pow2(M - |s|));
  }

  /** Codes of at most w + l bits end by Reach. */
  lemma ReachBounds(b: seq<nat>, c: seq<nat>, g: nat, k: nat, w: nat, l: nat)
    requires Counts(b, c, g) && k <= g
    ensures k <= w + l ==> Laid(c, k) <= Reach(c, w, l)
    ensures k > w + l ==> Reach(c, w, l) <= Laid(c, k - 1)
  {
    hide *;
    CountsLens(b, c, g);
    LaidEnds(b, c, g);
    ReachIs(c, w, l);
    if k > w + l {
      LaidMonotone(c, w + l, k - 1);
    } else {
      LaidMonotone(c, k, g);
      if w + l <= M { LaidMonotone(c, k, w + l); }
    }
  }

  lemma LaidEnds(b: seq<nat>, c: seq<nat>, g: nat)
    requires Counts(b, c, g)
    ensures Laid(c, g) == Pow2(M)
  {
    hide Laid, Pow2;
  }

  lemma CountsLens(b: seq<nat>, c: seq<nat>, g: nat)
    requires Counts(b, c, g)
    ensures LensOk(b) && !Oversubscribed(b) && |c| == M + 1 && g <= M
  {}

  lemma CountsFacts(b: seq<nat>, c: seq<nat>, g: nat, k: nat, r: nat, w: nat, l: nat)
    requires AtPrefix(b, c, g, k, r, w, l)
    ensures Counts(b, c, g) && LensOk(b) && !Oversubscribed(b) && |c| == M + 1 && w < k <= g <= M && r < c[k]
  {}

  lemma WidthFacts(b: seq<nat>, c: seq<nat>, g: nat, k: nat, r: nat, w: nat, l: nat, j: nat)
    requires AtPrefix(b, c, g, k, r, w, l) && WidthOk(b, c, g, k, r, w, l, j)
    ensures |c| == M + 1 && w < k <= g <= M && k - w <= j
    ensures j > l ==> k >= w + l && j <= k - w + 1 && (k == g ==> j == k - w)
    ensures j > l && j == k - w ==> PosOf(c, k, r) + Pow2(M - w) <= Laid(c, k)
    ensures j <= l ==> k < w + l || PosOf(c, k, r) + Pow2(M - w) <= Reach(c, w, l)
  {
    hide PosOf, Pow2, Laid, Reach, Suits;
  }

  lemma GreatestIs(b: seq<nat>, c: seq<nat>, g: nat)
    requires Counts(b, c, g)
    ensures Longest(b) == g
  {
    LongestAppears(b, g);
    LongestValue(b, g);
  }

  lemma HitParts(b: seq<nat>, l: nat, s: seq<bool>, j: nat, n: nat, t: nat)
    requires HitAt(b, l, s, j, n, t)
    ensures Under(b, s, n) && n < |b| && b[n] > |s| + l && |s| + l <= t < |s| + j && (t < b[n] ==> Codeword(b, n)[t])
  {}

  lemma FlagParts(b: seq<nat>, l: nat, s: seq<bool>, n: nat, t: nat)
    requires FlaggedAt(b, l, s, n, t)
    ensures Under(b, s, n) && n < |b| && b[n] > |s| + l && |s| + l <= t < Longest(b) && (t < b[n] ==> Codeword(b, n)[t])
    ensures forall m: nat :: m < |b| && Under(b, s, m) ==> b[m] >= t
  {}

  lemma FlagMade(b: seq<nat>, l: nat, s: seq<bool>, n: nat, t: nat)
    requires Under(b, s, n) && b[n] > |s| + l && |s| + l <= t < Longest(b) && (t < b[n] ==> Codeword(b, n)[t])
    requires forall m: nat :: m < |b| && Under(b, s, m) ==> b[m] >= t
    ensures Flagged(b, l, s)
  {
    assert FlaggedAt(b, l, s, n, t);
  }

  lemma HitMade(b: seq<nat>, l: nat, s: seq<bool>, j: nat, n: nat, t: nat)
    requires Under(b, s, n) && b[n] > |s| + l && |s| + l <= t < |s| + j && (t < b[n] ==> Codeword(b, n)[t])
    ensures Hit(b, l, s, j)
  {
    assert HitAt(b, l, s, j, n, t);
  }

  /** What a hit needs, the lengths alone say. */
  lemma HitFlags(b: seq<nat>, c: seq<nat>, g: nat, k: nat, r: nat, w: nat, l: nat, j: nat, s: seq<bool>)
    requires AtPrefix(b, c, g, k, r, w, l) && WidthOk(b, c, g, k, r, w, l, j) && |s| == w && Low(s) == PosOf(c, k, r)
    ensures Hit(b, l, s, j) ==> Flagged(b, l, s)
  {
    hide *;
    CountsFacts(b, c, g, k, r, w, l);
    WidthFacts(b, c, g, k, r, w, l, j);
    GreatestIs(b, c, g);
    forall n: nat, t: nat | HitAt(b, l, s, j, n, t)
      ensures Flagged(b, l, s)
    {
      HitParts(b, l, s, j, n, t);
      forall m: nat | m < |b| && Under(b, s, m)
        ensures b[m] >= t
      {
        UnderLast(b, c, g, k, r, s, m);
      }
      FlagMade(b, l, s, n, t);
    }
    HitSome(b, l, s, j);
  }

  lemma HitSome(b: seq<nat>, l: nat, s: seq<bool>, j: nat)
    ensures Hit(b, l, s, j) <==> exists n: nat, t: nat :: HitAt(b, l, s, j, n, t)
  {}

  /** And where they say so there is a hit: with the same code, or, when all codes of the prefix have one length, with the
      second of them. */
  lemma FlagHits(b: seq<nat>, c: seq<nat>, g: nat, k: nat, r: nat, w: nat, l: nat, j: nat, s: seq<bool>, n: nat, t: nat)
    requires AtPrefix(b, c, g, k, r, w, l) && WidthOk(b, c, g, k, r, w, l, j) && |s| == w && Low(s) == PosOf(c, k, r)
    requires FlaggedAt(b, l, s, n, t)
    ensures Hit(b, l, s, j)
  {
    hide *;
    CountsFacts(b, c, g, k, r, w, l);
    WidthFacts(b, c, g, k, r, w, l, j);
    GreatestIs(b, c, g);
    FlagParts(b, l, s, n, t);
    FirstSymbol(b, c, g, k, r, w, l, s, n);
    FirstUnder(b, c, g, k, r, w, s);
    LongIsWide(b, c, g, k, r, w, l, j, s, n);
    if t < w + j {
      HitMade(b, l, s, j, n, t);
    } else {
      UnderLast(b, c, g, k, r, s, n);
      AllOneLength(b, c, g, k, r, w, s, n);
      var m := SecondUnder(b, c, g, k, r, w, l, s);
      HitMade(b, l, s, j, m, k - 1);
    }
  }

  /** The first code of the prefix, when it is a symbol's. */
  lemma FirstUnder(b: seq<nat>, c: seq<nat>, g: nat, k: nat, r: nat, w: nat, s: seq<bool>)
    requires Counts(b, c, g) && 1 <= k <= g && r < Count(b, k) && |s| == w < k && Low(s) == PosOf(c, k, r)
    ensures exists m: nat :: m < |b| && Under(b, s, m) && b[m] == k
  {
    hide *;
    CountsLens(b, c, g);
    var m := SymbolOf(b, c, g, k, r);
    EndOf(s);
    PowPositive(M - w);
    UnderInside(b, s, m);
  }

  /** A code of more than l bits under the prefix makes its table wide, unless there is one of fewer. */
  lemma LongIsWide(b: seq<nat>, c: seq<nat>, g: nat, k: nat, r: nat, w: nat, l: nat, j: nat, s: seq<bool>, n: nat)
    requires AtPrefix(b, c, g, k, r, w, l) && WidthOk(b, c, g, k, r, w, l, j) && |s| == w && Low(s) == PosOf(c, k, r)
    requires Under(b, s, n) && b[n] > w + l && k >= w + l
    ensures j > l
  {
    hide *;
    CountsFacts(b, c, g, k, r, w, l);
    WidthFacts(b, c, g, k, r, w, l, j);
    UnderFacts(b, s, n);
    SymbolLaid(b, c, g, n);
    EndOf(s);
    UnderInside(b, s, n);
    ReachBounds(b, c, g, b[n], w, l);
  }

  /** When the codes of length k reach the end of the prefix, none under it is longer. */
  lemma AllOneLength(b: seq<nat>, c: seq<nat>, g: nat, k: nat, r: nat, w: nat, s: seq<bool>, n: nat)
    requires Counts(b, c, g) && 1 <= k <= g && |s| == w <= M && Low(s) + Pow2(M - w) <= Laid(c, k) && Under(b, s, n)
    ensures n < |b| && b[n] <= k
  {
    hide *;
    CountsLens(b, c, g);
    UnderFacts(b, s, n);
    SymbolLaid(b, c, g, n);
    EndOf(s);
    UnderInside(b, s, n);
    if b[n] > k { LaidMonotone(c, k, b[n] - 1); }
  }

  /** The second code of the prefix, when those of length k fill it and are all symbols': its last bit is a one. */
  lemma SecondUnder(b: seq<nat>, c: seq<nat>, g: nat, k: nat, r: nat, w: nat, l: nat, s: seq<bool>) returns (m: nat)
    requires AtPrefix(b, c, g, k, r, w, l) && k < g && |s| == w && Low(s) == PosOf(c, k, r)
    requires PosOf(c, k, r) + Pow2(M - w) <= Laid(c, k)
    ensures m < |b| && b[m] == k && Under(b, s, m) && Codeword(b, m)[k - 1]
  {
    hide *;
    CountsFacts(b, c, g, k, r, w, l);
    ShorterCount(b, c, g, k);
    SecondExists(c, k, r, w);
    m := SymbolOf(b, c, g, k, r + 1);
    PosNext(c, k, r);
    EndOf(s);
    HalfRoom(M - w, M - k);
    UnderInside(b, s, m);
    PowPositive(M - k);
    LastBit(b, m, s, k);
  }

  lemma ShorterCount(b: seq<nat>, c: seq<nat>, g: nat, k: nat)
    requires Counts(b, c, g) && 1 <= k < g
    ensures c[k] == Count(b, k)
  {}

  lemma HalfRoom(a: nat, d: nat)
    requires d < a
    ensures 2 * Pow2(d) <= Pow2(a)
  {
    Pow2Strict(d, a);
  }

  lemma SecondExists(c: seq<nat>, k: nat, r: nat, w: nat)
    requires |c| == M + 1 && w < k <= M && r < c[k] && PosOf(c, k, r) + Pow2(M - w) <= Laid(c, k)
    ensures r + 1 < c[k]
  {
    hide *;
    HalfRoom(M - w, M - k);
    PowPositive(M - k);
    PosNext(c, k, r);
    if r + 1 >= c[k] { NextIsEnd(c, k, r); }
  }

  lemma NextIsEnd(c: seq<nat>, k: nat, r: nat)
    requires |c| == M + 1 && 1 <= k <= M && r < c[k] <= r + 1
    ensures PosOf(c, k, r + 1) == Laid(c, k)
  {
    PosLast(c, k);
    hide PosOf, Laid;
  }

  /** A code that begins one place after a shorter prefix does ends in a one. */
  lemma LastBit(b: seq<nat>, m: nat, s: seq<bool>, k: nat)
    requires m < |b| && b[m] == k && |s| < k <= M && Start(b, m) == Low(s) + Pow2(M - k)
    ensures Codeword(b, m)[k - 1]
  {
    var v, p, d: nat := CodeVal(b, m), Pow2(M - k), k - |s|;
    Pow2Add(d, M - k);
    OddValue(v, MsbVal(s), d, p);
    CodewordLast(b, m, k);
  }

  lemma CodewordLast(b: seq<nat>, m: nat, k: nat)
    requires m < |b| && b[m] == k >= 1
    ensures Codeword(b, m)[k - 1] <==> CodeVal(b, m) % 2 == 1
  {
    hide CodeVal;
  }

  lemma OddValue(v: nat, a: nat, d: nat, p: nat)
    requires d >= 1 && p > 0 && v * p == a * (Pow2(d) * p) + p
    ensures v % 2 == 1
  {
    var h := a * Pow2(d - 1);
    MulAssoc(a, Pow2(d), p);
    MulTwo(a, Pow2(d - 1));
    Distribute(2 * h, 1, p);
    CancelFactor(v, 2 * h + 1, p);
  }

  lemma CancelFactor(a: nat, b: nat, p: nat)
    requires p > 0 && a * p == b * p
    ensures a == b
  {
    MulLt(a, b, p);
    MulLt(b, a, p);
  }

  /** No symbol's code ends within the prefix. */
  ghost predicate NoneAbove(b: seq<nat>, s: seq<bool>) {
    forall n: nat :: n < |b| && 0 < b[n] <= |s| ==> !(Codeword(b, n) <= s)
  }

  lemma NoCodeAbove(b: seq<nat>, c: seq<nat>, g: nat, k: nat, r: nat, w: nat, l: nat, s: seq<bool>)
    requires AtPrefix(b, c, g, k, r, w, l) && |s| == w && Low(s) == PosOf(c, k, r)
    ensures NoneAbove(b, s)
  {
    hide *;
    CountsFacts(b, c, g, k, r, w, l);
    forall n: nat | n < |b| && 0 < b[n] <= |s|
      ensures !(Codeword(b, n) <= s)
    {
      SymbolLaid(b, c, g, n);
      LaidMonotone(c, b[n], k - 1);
      PosFits(b, c, g, k, r);
      LowOfCode(b, n);
      EndOf(Codeword(b, n));
      PrefixIffInside(Codeword(b, n), s);
    }
    NoneAboveMade(b, s);
  }

  lemma NoneAboveMade(b: seq<nat>, s: seq<bool>)
    requires forall n: nat :: n < |b| && 0 < b[n] <= |s| ==> !(Codeword(b, n) <= s)
    ensures NoneAbove(b, s)
  {}

  /** Tables are made for prefixes of whole multiples of l bits; codes hit beyond the l bits that are linked exactly where
      the lengths are flagged. */
  ghost predicate TableFit(b: seq<nat>, l: nat, s: seq<bool>, j: nat) {
    |s| >= l && |s| + j <= M && (Hit(b, l, s, j) <==> Flagged(b, l, s)) && NoneAbove(b, s)
  }

  lemma TableFits(b: seq<nat>, c: seq<nat>, g: nat, k: nat, r: nat, w: nat, l: nat, j: nat, s: seq<bool>)
    requires AtPrefix(b, c, g, k, r, w, l) && WidthOk(b, c, g, k, r, w, l, j) && |s| == w >= l && Low(s) == PosOf(c, k, r)
    ensures TableFit(b, l, s, j)
  {
    HitFlags(b, c, g, k, r, w, l, j, s);
    if n: nat, t: nat :| FlaggedAt(b, l, s, n, t) {
      FlagHits(b, c, g, k, r, w, l, j, s, n, t);
    }
    NoCodeAbove(b, c, g, k, r, w, l, s);
    WidthFacts(b, c, g, k, r, w, l, j);
    hide Hit, NoneAbove, FlaggedAt, WidthExact, WidthClose, PosOf, Pow2, Laid, Counts, Suits;
  }

  ghost predicate Wides(b: seq<nat>, l: nat, pre: seq<seq<bool>>, log: seq<nat>)
    requires l >= 1
  {
    |pre| == |log|
    && (forall i :: 0 <= i < |pre| ==> |pre[i]| % l == 0)
    && (forall i :: 1 <= i < |pre| ==> TableFit(b, l, pre[i], log[i]))
  }

  // ---- What the tables hold beyond the cells that lead to codes

  /** Entries are junk or take at most l bits; links are stored below 2^l. */
  ghost predicate PlainEntry(r: Huft, idx: nat, l: nat) {
    r.e == JUNK || (r.b <= l && (idx >= Pow2(l) ==> !IsLink(r)))
  }

  ghost predicate Entries(t: seq<seq<Huft>>, l: nat) {
    forall i, idx :: 0 <= i < |t| && 0 <= idx < |t[i]| ==> PlainEntry(t[i][idx], idx, l)
  }

  /** Cells that begin at pos or later are junk, but for the links of the tables being filled. */
  ghost predicate Blank(B: Built, l: nat, pos: nat)
    requires Shape(B, l)
  {
    forall i: nat, idx: nat :: i < |B.t| && idx < |B.t[i]| && Low(Cell(B, l, i, idx)) >= pos ==> IsBlank(B.t[i][idx])
  }

  predicate IsBlank(r: Huft) { r.e == JUNK || IsLink(r) }

  /** Entries beyond 2^l repeat those of the same l bits, or are junk where those are links. */
  ghost predicate Repeats(t: seq<seq<Huft>>, l: nat) {
    forall i: nat, idx: nat :: i < |t| && Pow2(l) <= idx < |t[i]| ==> RepeatAt(t[i], l, idx)
  }

  ghost predicate RepeatAt(q: seq<Huft>, l: nat, idx: nat)
    requires idx < |q|
  {
    LowBits(idx, l) < |q| && (q[idx] == q[LowBits(idx, l)] || (IsLink(q[LowBits(idx, l)]) && q[idx].e == JUNK))
  }

  /** All of it. */
  ghost predicate Neat(B: Built, l: nat, pos: nat)
    requires Shape(B, l)
  {
    Entries(B.t, l) && Blank(B, l, pos) && Repeats(B.t, l)
  }

  // ---- The steps of the main loop

  ghost predicate Empty(q: seq<Huft>) { forall idx :: 0 <= idx < |q| ==> q[idx].e == JUNK && q[idx] == q[0] }

  lemma FirstNeat(b: seq<nat>, l: nat, q: seq<Huft>, j: nat)
    requires l >= 1 && Empty(q) && |q| == Pow2(j)
    requires Shape(Built([q], [[]], [j], [0]), l)
    ensures Neat(Built([q], [[]], [j], [0]), l, 0) && Wides(b, l, [[]], [j])
  {
    hide *;
    EmptyRepeats(q, l);
    OneNeat(q, l, j);
    OneWide(b, l, j);
  }

  lemma OneNeat(q: seq<Huft>, l: nat, j: nat)
    requires Empty(q) && Shape(Built([q], [[]], [j], [0]), l) && forall idx: nat :: idx < |q| ==> RepeatAt(q, l, idx)
    ensures Neat(Built([q], [[]], [j], [0]), l, 0)
  {
    hide Pow2, RepeatAt, Low, Cell;
  }

  lemma OneWide(b: seq<nat>, l: nat, j: nat)
    requires l >= 1
    ensures Wides(b, l, [[]], [j])
  {
    hide TableFit;
  }

  lemma NeatParts(B: Built, l: nat, pos: nat)
    requires Shape(B, l)
    ensures Neat(B, l, pos) <==> Entries(B.t, l) && Blank(B, l, pos) && Repeats(B.t, l)
  {}

  lemma LowBitsLess(idx: nat, l: nat)
    ensures LowBits(idx, l) <= idx && LowBits(idx, l) < Pow2(l)
  {
    DivMod(idx, Pow2(l));
    MulNonNegative(Pow2(l), idx / Pow2(l));
  }

  lemma EmptyRepeats(q: seq<Huft>, l: nat)
    requires Empty(q)
    ensures forall idx: nat :: idx < |q| ==> RepeatAt(q, l, idx)
  {
    forall idx: nat | idx < |q|
      ensures RepeatAt(q, l, idx)
    {
      LowBitsLess(idx, l);
    }
    hide LowBits, Pow2;
  }

  lemma LinkedEntries(t: seq<seq<Huft>>, l: nat, top: nat, at: nat, q: seq<Huft>, j: nat)
    requires Entries(t, l) && Empty(q) && top < |t| && at < |t[top]| && at < Pow2(l)
    ensures Entries(t[top := t[top][at := Huft(16 + j, l, |t|)]] + [q], l)
  {
    hide Pow2;
  }

  /** Linking a new table from a cell that begins at pos. */
  lemma LinkedRepeats(B: Built, l: nat, pos: nat, at: nat, q: seq<Huft>, j: nat)
    requires Shape(B, l) && Neat(B, l, pos) && |B.u| > 0 && Top(B) < |B.t| && B.log[Top(B)] >= l && at < |B.t[Top(B)]| && at < Pow2(l)
    requires Low(Cell(B, l, Top(B), at)) >= pos && Empty(q) && 16 + j < INVALID && j >= 1
    ensures Repeats(B.t[Top(B) := B.t[Top(B)][at := Huft(16 + j, l, |B.t|)]] + [q], l)
  {
    hide *;
    var top := Top(B);
    var t := B.t;
    var link := Huft(16 + j, l, |t|);
    NeatParts(B, l, pos);
    EmptyRepeats(q, l);
    LinkFull(j, l, |t|);
    var p := t[top][at := link];
    forall idx: nat | Pow2(l) <= idx < |p|
      ensures RepeatAt(p, l, idx)
    {
      LinkedRepeat(B, l, pos, at, link, idx);
    }
    RepeatsSet(t, l, top, p, q);
  }

  lemma LinkFull(j: nat, l: nat, v: nat)
    ensures 16 + j < INVALID && j >= 1 ==> IsLink(Huft(16 + j, l, v))
  {}

  lemma RepeatsSet(t: seq<seq<Huft>>, l: nat, top: nat, p: seq<Huft>, q: seq<Huft>)
    requires Repeats(t, l) && top < |t| && (forall idx: nat :: Pow2(l) <= idx < |p| ==> RepeatAt(p, l, idx))
    requires forall idx: nat :: idx < |q| ==> RepeatAt(q, l, idx)
    ensures Repeats(t[top := p] + [q], l)
  {
    hide RepeatAt, Pow2;
  }

  lemma LinkedRepeat(B: Built, l: nat, pos: nat, at: nat, link: Huft, idx: nat)
    requires Shape(B, l) && Neat(B, l, pos) && |B.u| > 0 && Top(B) < |B.t| && B.log[Top(B)] >= l && at < |B.t[Top(B)]| && at < Pow2(l)
    requires Low(Cell(B, l, Top(B), at)) >= pos && IsLink(link) && Pow2(l) <= idx < |B.t[Top(B)]|
    ensures RepeatAt(B.t[Top(B)][at := link], l, idx)
  {
    hide *;
    var top := Top(B);
    NeatAt(B, l, pos, top, idx);
    LowBitsLess(idx, l);
    if LowBits(idx, l) == at {
      SameCellLow(B, l, top, idx);
    }
    RepeatKept(B.t[top], l, at, link, idx);
  }

  /** What is known of an entry beyond 2^l. */
  lemma NeatAt(B: Built, l: nat, pos: nat, i: nat, idx: nat)
    requires Shape(B, l) && Neat(B, l, pos) && i < |B.t| && Pow2(l) <= idx < |B.t[i]|
    ensures RepeatAt(B.t[i], l, idx) && !IsLink(B.t[i][idx]) && (B.t[i][idx].e == JUNK || B.t[i][idx].b <= l)
    ensures Low(Cell(B, l, i, idx)) >= pos ==> B.t[i][idx].e == JUNK
  {
    hide RepeatAt, Pow2, Low, Cell;
    assert PlainEntry(B.t[i][idx], idx, l);
    assert Low(Cell(B, l, i, idx)) >= pos ==> IsBlank(B.t[i][idx]);
  }

  lemma SameCellLow(B: Built, l: nat, i: nat, idx: nat)
    requires Shape(B, l) && i < |B.t| && B.log[i] >= l
    ensures Cell(B, l, i, idx) == Cell(B, l, i, LowBits(idx, l))
  {
    ToBitsMod(idx, l);
  }

  lemma RepeatKept(q: seq<Huft>, l: nat, at: nat, link: Huft, idx: nat)
    requires at < |q| && idx < |q| && idx != at && IsLink(link) && RepeatAt(q, l, idx) && (LowBits(idx, l) == at ==> q[idx].e == JUNK)
    ensures RepeatAt(q[at := link], l, idx)
  {
    hide LowBits;
  }

  lemma NextLevel(a: nat, l: nat)
    requires l >= 1 && a % l == 0
    ensures (a + l) % l == 0
  {
    DivMod(a, l);
    DivUnique(a + l, l, a / l + 1, 0);
  }

  lemma StoredEntries(t: seq<seq<Huft>>, l: nat, top: nat, q: seq<Huft>, entry: Huft, n: nat, i: nat)
    requires Entries(t, l) && top < |t| && Filling(t[top], q, entry, n, i)
    requires entry.e == JUNK || (entry.b <= l && !IsLink(entry))
    ensures Entries(t[top := q], l)
  {
    hide Pow2, LowBits;
  }

  lemma LinkedWides(b: seq<nat>, l: nat, pre: seq<seq<bool>>, log: seq<nat>, top: nat, s: seq<bool>, j: nat)
    requires l >= 1 && Wides(b, l, pre, log) && top < |pre| && |s| == |pre[top]| + l && TableFit(b, l, s, j)
    ensures Wides(b, l, pre + [s], log + [j])
  {
    hide TableFit;
    NextLevel(|pre[top]|, l);
  }

  lemma LinkedBlank(B: Built, B': Built, l: nat, pos: nat, at: nat, link: Huft, q: seq<Huft>)
    requires Shape(B, l) && Shape(B', l) && Blank(B, l, pos) && Empty(q) && IsLink(link) && |B.u| > 0 && Top(B) < |B.t|
    requires at < |B.t[Top(B)]| && B'.t == B.t[Top(B) := B.t[Top(B)][at := link]] + [q] && B.pre <= B'.pre && B.log <= B'.log
    ensures Blank(B', l, pos)
  {
    forall i: nat, idx: nat | i < |B'.t| && idx < |B'.t[i]| && Low(Cell(B', l, i, idx)) >= pos
      ensures IsBlank(B'.t[i][idx])
    {
      if i < |B.t| {
        assert Cell(B', l, i, idx) == Cell(B, l, i, idx);
      }
    }
    hide Low, Pow2, ToBits;
  }

  lemma LinkedNeat(C: Code, B: Built, l: nat, pos: nat, q: seq<Huft>, j: nat)
    requires AtLink(C, B, l, pos) && Neat(B, l, pos) && Empty(q) && 1 <= j && 16 + j < INVALID
    requires Val(Pat(pos)[|B.pre[Top(B)]|..]) < |B.t[Top(B)]| && Shape(Linked(B, l, pos, q, j), l)
    ensures Neat(Linked(B, l, pos, q, j), l, pos)
  {
    hide *;
    AtLinkFacts(C, B, l, pos);
    NeatParts(B, l, pos);
    LinkIndex(C, B, l, pos);
    var at := Val(Pat(pos)[|B.pre[Top(B)]|..]);
    var B' := Linked(B, l, pos, q, j);
    LinkFull(j, l, |B.t|);
    LinkedEntries(B.t, l, Top(B), at, q, j);
    LinkedRepeats(B, l, pos, at, q, j);
    LinkedShape(B, l, pos, q, j);
    LinkedBlank(B, B', l, pos, at, Huft(16 + j, l, |B.t|), q);
    NeatParts(B', l, pos);
  }

  lemma LinkedShape(B: Built, l: nat, pos: nat, q: seq<Huft>, j: nat)
    requires Shape(B, l) && |B.u| > 0 && Top(B) < |B.t| && |B.pre[Top(B)]| + l <= M
    requires Val(Pat(pos)[|B.pre[Top(B)]|..]) < |B.t[Top(B)]|
    ensures var B', top := Linked(B, l, pos, q, j), Top(B);
            var at := Val(Pat(pos)[|B.pre[top]|..]);
            B'.t == B.t[top := B.t[top][at := Huft(16 + j, l, |B.t|)]] + [q] && B.pre <= B'.pre && B.log <= B'.log
  {}

  /** Storing a code's entries. */
  lemma StoredNeat(C: Code, B: Built, l: nat, pos: nat, k: nat, entry: Huft, q: seq<Huft>)
    requires AtCode(C, B, l, pos, k) && Neat(B, l, pos) && !IsLink(entry) && (entry.e == JUNK || entry.b <= l)
    requires var w := |B.pre[Top(B)]|;
             Filling(B.t[Top(B)], q, entry, k - w, Val(Pat(pos)[w..k])) && k - w <= l
    requires Shape(B.(t := B.t[Top(B) := q]), l)
    ensures Neat(B.(t := B.t[Top(B) := q]), l, pos + Pow2(M - k))
  {
    hide *;
    AtCodeFacts(C, B, l, pos, k);
    NeatParts(B, l, pos);
    var top := Top(B);
    var w, at := |B.pre[top]|, Val(Pat(pos)[|B.pre[top]|..k]);
    var B', pos' := B.(t := B.t[top := q]), pos + Pow2(M - k);
    StoredEntries(B.t, l, top, q, entry, k - w, at);
    StoredRepeats(B.t, l, top, q, entry, k - w, at);
    forall idx: nat | idx < |q|
      ensures StoredAt(B, l, top, idx, q, pos')
    {
      StoredCell(C, B, l, pos, k, entry, q, idx);
    }
    StoredBlank(B, l, top, q, pos, pos');
    NeatParts(B', l, pos');
  }

  lemma StoredRepeats(t: seq<seq<Huft>>, l: nat, top: nat, q: seq<Huft>, entry: Huft, n: nat, at: nat)
    requires Repeats(t, l) && top < |t| && Filling(t[top], q, entry, n, at) && n <= l && !IsLink(entry)
    ensures Repeats(t[top := q], l)
  {
    forall idx: nat | Pow2(l) <= idx < |q|
      ensures RepeatAt(q, l, idx)
    {
      LowBitsTwice(idx, n, l);
      assert RepeatAt(t[top], l, idx);
    }
    hide LowBits, Pow2, RepeatAt;
  }

  lemma LowBitsTwice(idx: nat, n: nat, l: nat)
    requires n <= l
    ensures LowBits(LowBits(idx, l), n) == LowBits(idx, n)
  {
    var a, b := Pow2(n), Pow2(l - n);
    Pow2Add(n, l - n);
    DivMod(idx, a * b);
    DivMod(idx % (a * b), a);
    var x, y := idx / (a * b), idx % (a * b);
    assert a * b * x == a * (b * x) by { MulAssoc(a, b, x); }
    assert a * (b * x + y / a) == a * (b * x) + a * (y / a) by { MulSum(a, b * x, y / a); }
    DivUnique(idx, a, b * x + y / a, y % a);
  }

  ghost predicate StoredAt(B: Built, l: nat, top: nat, idx: nat, q: seq<Huft>, pos': nat)
    requires Shape(B, l) && top < |B.t| && idx < |q|
  {
    Low(Cell(B, l, top, idx)) >= pos' ==> IsBlank(q[idx])
  }

  lemma StoredIs(B: Built, l: nat, top: nat, idx: nat, q: seq<Huft>, pos': nat)
    requires Shape(B, l) && top < |B.t| && idx < |q|
    ensures StoredAt(B, l, top, idx, q, pos') <==> (Low(Cell(B, l, top, idx)) >= pos' ==> IsBlank(q[idx]))
  {}

  lemma StoredCell(C: Code, B: Built, l: nat, pos: nat, k: nat, entry: Huft, q: seq<Huft>, idx: nat)
    requires AtCode(C, B, l, pos, k) && Blank(B, l, pos) && idx < |q|
    requires var w := |B.pre[Top(B)]|;
             Filling(B.t[Top(B)], q, entry, k - w, Val(Pat(pos)[w..k]))
    ensures StoredAt(B, l, Top(B), idx, q, pos + Pow2(M - k))
  {
    hide *;
    AtCodeFacts(C, B, l, pos, k);
    CodeParts(C, B, l, pos, k, idx);
    var top := Top(B);
    var w, cell, cw := |B.pre[top]|, Cell(B, l, top, idx), Pat(pos)[..k];
    FilledEntry(B.t[top], q, entry, k - w, Val(Pat(pos)[w..k]), idx);
    if cw <= cell {
      StretchesNest(cw, cell);
      EndOf(cw);
      EndOf(cell);
      PowPositive(M - |cell|);
    } else {
      BlankAt(B, l, pos, top, idx);
    }
    StoredIs(B, l, top, idx, q, pos + Pow2(M - k));
  }

  lemma BlankAt(B: Built, l: nat, pos: nat, i: nat, idx: nat)
    requires Shape(B, l) && Blank(B, l, pos) && i < |B.t| && idx < |B.t[i]|
    ensures Low(Cell(B, l, i, idx)) >= pos ==> IsBlank(B.t[i][idx])
  {}

  lemma StoredBlank(B: Built, l: nat, top: nat, q: seq<Huft>, pos: nat, pos': nat)
    requires Shape(B, l) && Blank(B, l, pos) && top < |B.t| && pos <= pos' && Shape(B.(t := B.t[top := q]), l)
    requires forall idx: nat :: idx < |q| ==> StoredAt(B, l, top, idx, q, pos')
    ensures Blank(B.(t := B.t[top := q]), l, pos')
  {
    var B' := B.(t := B.t[top := q]);
    forall i: nat, idx: nat | i < |B'.t| && idx < |B'.t[i]| && Low(Cell(B', l, i, idx)) >= pos'
      ensures IsBlank(B'.t[i][idx])
    {
      assert Cell(B', l, i, idx) == Cell(B, l, i, idx);
      if i == top { assert StoredAt(B, l, top, idx, q, pos'); }
    }
    hide Low, Pow2, ToBits;
  }

  // ---- The finished tables

  lemma WalkStops(t: seq<seq<Huft>>, i: nat, m: nat, S: seq<bool>, p: nat)
    requires i < |t| && (m <= M && p + m <= |S| && Val(S[p..p + m]) < |t[i]| ==> !IsLink(t[i][Val(S[p..p + m])]))
    ensures var R := Walk(t, i, m, S, p);
            R.Some? ==> m <= M && p + m <= |S| && Val(S[p..p + m]) < |t[i]| && R == Some((t[i][Val(S[p..p + m])], p))
  {}

  lemma ValHead(S: seq<bool>, p: nat, l: nat, m: nat)
    requires l < m && p + m <= |S|
    ensures Val(S[p..p + m]) < Pow2(l) ==> Val(S[p..p + l]) == Val(S[p..p + m])
    ensures S[p + l] ==> Val(S[p..p + m]) >= Pow2(l)
  {
    var s, u := S[p..p + l], S[p + l..p + m];
    assert S[p..p + m] == s + u;
    ValConcat(s, u);
    ValFirst(u);
    hide Val;
    AtLeastOne(Pow2(l), Val(u));
  }

  lemma ValFirst(u: seq<bool>)
    ensures u != [] && u[0] ==> Val(u) >= 1
  {}

  lemma AtLeastOne(p: nat, v: nat)
    ensures v == 0 ==> p * v == 0
    ensures v >= 1 ==> p * v >= p
  {
    if v >= 1 { MulLe(1, v, p); }
  }

  lemma Multiples(a: nat, b: nat, l: nat)
    requires l >= 1 && a % l == 0 && b % l == 0 && a < b
    ensures a + l <= b
  {
    DivMod(a, l);
    DivMod(b, l);
    MulLt(a / l, b / l, l);
    MulLt(b / l, a / l, l);
    MulOrder(l, a / l);
    MulOrder(l, b / l);
  }

  lemma Whole(S: seq<bool>)
    requires |S| >= M
    ensures S[0..M] == S[..M] && S[0..0 + M] == S[..M]
  {}

  lemma LeafFacts(C: Code, r: Huft, q: nat, cell: seq<bool>, m: nat)
    requires Leaf(C, r, q, cell, m)
    ensures m < |C.lens| && 0 < C.lens[m] <= |cell| && Codeword(C.lens, m) <= cell
  {}

  ghost predicate Sound(C: Code, B: Built, l: nat) {
    CodeOk(C) && !Oversubscribed(C.lens) && l >= 1 && Shape(B, l) && Cells(C, B, l, Pow2(M)) && Entries(B.t, l) && Repeats(B.t, l)
    && Wides(C.lens, l, B.pre, B.log) && |B.t| > 0 && B.log[0] >= l && B.pre[0] == []
  }

  lemma SoundFacts(C: Code, B: Built, l: nat)
    requires Sound(C, B, l)
    ensures CodeOk(C) && LensOk(C.lens) && !Oversubscribed(C.lens) && l >= 1 && Shape(B, l) && Cells(C, B, l, Pow2(M))
    ensures 0 < |B.t| == |B.pre| == |B.log| && B.log[0] >= l && B.pre[0] == [] && Entries(B.t, l) && Repeats(B.t, l)
    ensures forall i :: 1 <= i < |B.t| ==> TableFit(C.lens, l, B.pre[i], B.log[i])
    ensures forall i :: 0 <= i < |B.t| ==> |B.pre[i]| % l == 0 && |B.t[i]| == Pow2(B.log[i])
  {
    hide Cells, Entries, Repeats, TableFit, Pow2;
  }

  /** How many bits index table i. */
  ghost function IndexWidth(B: Built, l: nat, i: nat): nat
    requires i < |B.log|
  {
    if i == 0 then l else B.log[i]
  }

  lemma IndexWidthIs(C: Code, B: Built, l: nat, i: nat)
    requires Sound(C, B, l) && i < |B.t| == |B.log| == |B.pre|
    ensures var m, e := IndexWidth(B, l, i), Eff(B.log[i], l);
            |B.pre[i]| + m <= M && e <= m <= B.log[i] && e <= l && (m <= l ==> m == e) && (m > l ==> e == l)
            && |B.pre[i]| + e <= M && (i > 0 ==> m == B.log[i])
  {
    hide Cells, Entries, Repeats, Hit, Flagged, NoneAbove, Pow2;
  }

  /** The whole index, and its l low bits. */
  lemma IndexParts(B: Built, l: nat, S: seq<bool>, q: nat, m: nat, e: nat, log: nat)
    requires q + m <= |S| && e <= m <= log && e <= l && (m <= l ==> m == e) && (m > l ==> e == l)
    ensures var full, lo := Val(S[q..q + m]), Val(S[q..q + e]);
            full < Pow2(log) && (full == lo || (m > l && e == l && full >= Pow2(l) && LowBits(full, l) == lo))
  {
    ValBound(S[q..q + m]);
    Pow2Monotone(m, log);
    if l < m {
      ValHead(S, q, l, m);
      var s := S[q..q + m];
      assert s[..l] == S[q..q + l];
      ValSplit(s, l);
    }
    hide Val, Pow2;
  }

  lemma GoodLink(C: Code, B: Built, l: nat, i: nat, idx: nat)
    requires Shape(B, l) && i < |B.t| && idx < Pow2(B.log[i]) && CodeOk(C) && GoodCell(C, B, l, i, idx)
    ensures IsLink(B.t[i][idx]) ==> LinkTo(B, l, B.t[i][idx], i, Cell(B, l, i, idx))
  {
    var r, cell := B.t[i][idx], Cell(B, l, i, idx);
    hide Low, Filled, Cell, Pow2, Codeword;
    if n: nat :| Leaf(C, r, |B.pre[i]|, cell, n) {
      assert !IsLink(r);
    }
  }

  lemma LinkGoes(B: Built, l: nat, i: nat, idx: nat)
    requires Shape(B, l) && i < |B.t| && idx < |B.t[i]| && l >= 1 && LinkTo(B, l, B.t[i][idx], i, Cell(B, l, i, idx))
    ensures var r := B.t[i][idx];
            IsLink(r) && r.b == l <= B.log[i] && l <= Eff(B.log[i], l) && i < r.v < |B.t| == |B.log| == |B.pre|
            && r.e - 16 == IndexWidth(B, l, r.v) && B.pre[r.v] == Cell(B, l, i, idx) && |B.pre[r.v]| == |B.pre[i]| + l
  {
    hide Pow2;
  }

  // ---- Without hits, every code is found

  ghost predicate NoHits(C: Code, B: Built, l: nat)
    requires |B.pre| == |B.log|
  {
    forall i :: 1 <= i < |B.pre| ==> !Hit(C.lens, l, B.pre[i], B.log[i])
  }

  lemma StraightNoHits(C: Code, B: Built, l: nat)
    requires l >= 1 && Wides(C.lens, l, B.pre, B.log) && Straight(C.lens, l)
    ensures |B.pre| == |B.log| && NoHits(C, B, l)
  {
    forall i | 1 <= i < |B.pre|
      ensures !Hit(C.lens, l, B.pre[i], B.log[i])
    {
      StraightFlags(C.lens, l, B.pre[i]);
      FitHit(C.lens, l, B.pre[i], B.log[i]);
    }
    hide Hit, Flagged, Straight, TableFit;
  }

  lemma NarrowNoHits(C: Code, B: Built, l: nat)
    requires |B.pre| == |B.log| && Narrow(B, l)
    ensures NoHits(C, B, l)
  {}

  lemma {:induction false} WalkFound(C: Code, B: Built, l: nat, S: seq<bool>, p: nat, i: nat)
    requires Sound(C, B, l) && i < |B.t| == |B.log| == |B.pre| && NoHits(C, B, l)
    requires p + M <= |S| && B.pre[i] <= S[p..p + M]
    ensures CodeOk(C) && Finds(C, S, p, Walk(B.t, i, IndexWidth(B, l, i), S, p + |B.pre[i]|))
    decreases |B.t| - i
  {
    hide *;
    SoundFacts(C, B, l);
    IndexWidthIs(C, B, l, i);
    var q, m, e := p + |B.pre[i]|, IndexWidth(B, l, i), Eff(B.log[i], l);
    var full, lo := Val(S[q..q + m]), Val(S[q..q + e]);
    Reached(C, B, l, S, p, i);
    IndexParts(B, l, S, q, m, e, B.log[i]);
    WalkStep(B.t, i, m, S, q);
    GoodLink(C, B, l, i, lo);
    if full == lo {
      if LinkTo(B, l, B.t[i][lo], i, Cell(B, l, i, lo)) {
        LinkGoes(B, l, i, lo);
        WalkFound(C, B, l, S, p, B.t[i][lo].v);
      } else {
        StopFinds(C, B, l, S, p, i, lo);
      }
    } else {
      BeyondEntry(B.t, l, i, full);
      if B.t[i][full] == B.t[i][lo] {
        NoLink(B, l, B.t[i][lo], i, Cell(B, l, i, lo));
        StopFinds(C, B, l, S, p, i, lo);
      } else {
        JunkRight(C, B, l, S, p, i, full);
        JunkFinds(C, S, p, B.t[i][full], q);
      }
    }
  }

  lemma BeyondEntry(t: seq<seq<Huft>>, l: nat, i: nat, idx: nat)
    requires Entries(t, l) && Repeats(t, l) && i < |t| && Pow2(l) <= idx < |t[i]|
    ensures LowBits(idx, l) < |t[i]| && !IsLink(t[i][idx]) && (t[i][idx].e == JUNK || t[i][idx].b <= l)
    ensures t[i][idx] == t[i][LowBits(idx, l)] || (IsLink(t[i][LowBits(idx, l)]) && t[i][idx].e == JUNK)
  {
    hide Pow2, LowBits;
    assert RepeatAt(t[i], l, idx);
    assert PlainEntry(t[i][idx], idx, l);
  }

  lemma NoLink(B: Built, l: nat, r: Huft, i: nat, cell: seq<bool>)
    requires Shape(B, l) && !IsLink(r)
    ensures !LinkTo(B, l, r, i, cell)
  {
    hide Pow2;
  }

  lemma JunkFinds(C: Code, S: seq<bool>, p: nat, r: Huft, q: nat)
    requires CodeOk(C) && r.e == JUNK && forall n: nat :: !CodeAt(C.lens, S, p, n)
    ensures Dead(r) && Finds(C, S, p, Some((r, q)))
  {
    hide CodeAt;
  }

  /** Junk beyond a link is read only where no code is. */
  lemma JunkRight(C: Code, B: Built, l: nat, S: seq<bool>, p: nat, i: nat, full: nat)
    requires Sound(C, B, l) && i < |B.t| == |B.log| == |B.pre| && NoHits(C, B, l) && p + M <= |S| && B.pre[i] <= S[p..p + M]
    requires l >= 1 && l < IndexWidth(B, l, i) && |B.pre[i]| + IndexWidth(B, l, i) <= M
    requires full == Val(S[p + |B.pre[i]|..p + |B.pre[i]| + IndexWidth(B, l, i)]) >= Pow2(l)
    requires LowBits(full, l) < |B.t[i]| && IsLink(B.t[i][LowBits(full, l)])
    ensures forall n: nat :: !CodeAt(C.lens, S, p, n)
  {
    hide *;
    SoundFacts(C, B, l);
    IndexWidthIs(C, B, l, i);
    var q, m, lo := p + |B.pre[i]|, IndexWidth(B, l, i), LowBits(full, l);
    LensAt(C.lens);
    ValBound(S[q..q + l]);
    IndexParts(B, l, S, q, m, l, B.log[i]);
    Reached(C, B, l, S, p, i);
    GoodLink(C, B, l, i, lo);
    LinkGoes(B, l, i, lo);
    CellRead(B, l, S, p, i);
    var v := B.t[i][lo].v;
    var t := HighBit(S, q, l, m);
    RootNarrow(B, l, i);
    NoHitAt(C, B, l, i);
    FitAbove(C.lens, l, B.pre[v], B.log[v]);
    var s, j, cell, at: nat := B.pre[i], B.log[i], B.pre[v], q + t - p;
    forall n: nat
      ensures !CodeAt(C.lens, S, p, n)
    {
      NoCodeThere(C.lens, l, s, j, cell, S, p, at, n);
    }
  }

  /** A code there would end in the prefix of the linked table, or be a hit. */
  lemma NoCodeThere(b: seq<nat>, l: nat, s: seq<bool>, j: nat, cell: seq<bool>, S: seq<bool>, p: nat, at: nat, n: nat)
    requires LensOk(b) && p + M <= |S| && s <= S[p..p + M] && |s| + l == |cell| <= M && cell == S[p..p + |cell|]
    requires !Hit(b, l, s, j) && NoneAbove(b, cell) && |s| + l <= at < |s| + j && p + at < |S| && S[p + at]
    ensures !CodeAt(b, S, p, n)
  {
    hide Codeword;
    if n < |b| && 0 < b[n] <= |cell| && CodeAt(b, S, p, n) {
      PrefixOfBits(S, p, b[n], p + |cell|);
    }
    if n < |b| && b[n] > |cell| && CodeAt(b, S, p, n) {
      ReadHit(b, l, s, j, S, p, n, at);
    }
  }

  lemma RootNarrow(B: Built, l: nat, i: nat)
    requires i < |B.log| && IndexWidth(B, l, i) > l
    ensures i >= 1 && IndexWidth(B, l, i) == B.log[i]
  {}

  lemma CodeIsThere(b: seq<nat>, S: seq<bool>, p: nat, n: nat)
    requires CodeAt(b, S, p, n)
    ensures n < |b| && b[n] > 0 && p + b[n] <= |S| && S[p..p + b[n]] == Codeword(b, n)
  {}

  lemma PrefixOfBits(S: seq<bool>, p: nat, k: nat, q: nat)
    requires p + k <= q <= |S|
    ensures S[p..p + k] <= S[p..q]
  {}

  lemma FitAbove(b: seq<nat>, l: nat, s: seq<bool>, j: nat)
    requires TableFit(b, l, s, j)
    ensures NoneAbove(b, s)
  {
    hide Hit, Flagged, NoneAbove;
  }

  lemma NoHitAt(C: Code, B: Built, l: nat, i: nat)
    requires |B.pre| == |B.log| && NoHits(C, B, l) && 1 <= i < |B.pre|
    ensures !Hit(C.lens, l, B.pre[i], B.log[i])
  {
    hide Hit;
  }

  /** A code that is read with a one beyond the l index bits is a hit. */
  lemma ReadHit(b: seq<nat>, l: nat, s: seq<bool>, j: nat, S: seq<bool>, p: nat, n: nat, t: nat)
    requires p + M <= |S| && s <= S[p..p + M] && |s| <= M && n < |b| && b[n] <= M && S[p..p + b[n]] == Codeword(b, n)
    requires b[n] > |s| + l && |s| + l <= t < |s| + j && p + t < |S| && S[p + t]
    ensures Hit(b, l, s, j)
  {
    hide Codeword;
    assert s == S[p..p + M][..|s|] == S[p..p + b[n]][..|s|];
    assert t < b[n] ==> Codeword(b, n)[t] == S[p + t];
    assert HitAt(b, l, s, j, n, t);
  }

  lemma {:induction false} OneIn(u: seq<bool>) returns (k: nat)
    requires Val(u) > 0
    ensures k < |u| && u[k]
  {
    if u[0] {
      k := 0;
    } else {
      k := OneIn(u[1..]);
      k := k + 1;
    }
  }

  lemma HighBit(S: seq<bool>, q: nat, l: nat, m: nat) returns (t: nat)
    requires l < m && q + m <= |S| && Val(S[q..q + m]) >= Pow2(l)
    ensures l <= t < m && S[q + t]
  {
    var s, u := S[q..q + l], S[q + l..q + m];
    assert S[q..q + m] == s + u;
    ValConcat(s, u);
    ValBound(s);
    AtLeastOne(Pow2(l), Val(u));
    var k := OneIn(u);
    t := l + k;
  }

  // ---- With a hit, some code is not

  /** The walk reads an index below 2^l of table i. */
  ghost predicate LowIndex(B: Built, l: nat, S: seq<bool>, i: nat)
    requires i < |B.t| == |B.log| == |B.pre|
  {
    var q, m := |B.pre[i]|, IndexWidth(B, l, i);
    m <= M && q + m <= |S| && Val(S[q..q + m]) < |B.t[i]| && Val(S[q..q + m]) < Pow2(l)
  }

  /** A longer code than the l bits that are linked is not found through a higher index. */
  lemma HighMisses(C: Code, B: Built, l: nat, S: seq<bool>, n: nat, i: nat)
    requires Sound(C, B, l) && i < |B.t| == |B.log| == |B.pre| && !LowIndex(B, l, S, i)
    requires CodeAt(C.lens, S, 0, n) && n < |C.lens| && C.lens[n] > |B.pre[i]| + l
    ensures CodeOk(C) && !Finds(C, S, 0, Walk(B.t, i, IndexWidth(B, l, i), S, |B.pre[i]|))
  {
    hide *;
    SoundFacts(C, B, l);
    var q, m := |B.pre[i]|, IndexWidth(B, l, i);
    HighIndex(B, l, S, i);
    if m <= M && q + m <= |S| && Val(S[q..q + m]) < |B.t[i]| {
      BeyondEntry(B.t, l, i, Val(S[q..q + m]));
    }
    WalkStops(B.t, i, m, S, q);
    SymbolIs(C.lens, S, 0, n);
    StopMisses(C, S, n, q + l, Walk(B.t, i, m, S, q));
  }

  lemma HighIndex(B: Built, l: nat, S: seq<bool>, i: nat)
    requires i < |B.t| == |B.log| == |B.pre| && !LowIndex(B, l, S, i)
    ensures var q, m := |B.pre[i]|, IndexWidth(B, l, i);
            m <= M && q + m <= |S| && Val(S[q..q + m]) < |B.t[i]| ==> Val(S[q..q + m]) >= Pow2(l)
  {
    hide Val, Pow2;
  }

  /** A walk that ends in junk, or within fewer bits than the code has, has not found it. */
  lemma StopMisses(C: Code, S: seq<bool>, n: nat, end: nat, R: Option<(Huft, nat)>)
    requires CodeOk(C) && n < |C.lens| && C.lens[n] > end && Symbol(C.lens, S, 0) == Some((n, 0 + C.lens[n]))
    requires R.Some? ==> R.value.0.e == JUNK || R.value.1 + R.value.0.b <= end
    ensures !Finds(C, S, 0, R)
  {
    hide Symbol;
  }

  /** S starts like the first w bits of n's codeword, and with the code of m, which is longer than w + l bits. */
  ghost predicate Agrees(b: seq<nat>, n: nat, w: nat, l: nat, S: seq<bool>, m: nat) {
    n < |b| && w <= b[n] && |S| >= M >= w && Codeword(b, n)[..w] == S[..w] && CodeAt(b, S, 0, m) && m < |b| && b[m] > w + l
  }

  /** Where the walk for such bits goes on after w of them, unless it has failed by then. */
  lemma {:induction false} Arrive(C: Code, B: Built, l: nat, n: nat, w: nat, i: nat) returns (v: nat)
    requires Sound(C, B, l) && i < |B.t| == |B.log| == |B.pre| && n < |C.lens| && l >= 1 && w % l == 0 && w < C.lens[n] <= M
    requires |B.pre[i]| <= w && B.pre[i] <= Codeword(C.lens, n)
    ensures v < |B.t| == |B.pre| && B.pre[v] == Codeword(C.lens, n)[..w] && CodeOk(C)
    ensures forall S: seq<bool>, m: nat :: Agrees(C.lens, n, w, l, S, m)
              ==> Arrives(C, B, l, S, i, v)
    decreases |B.t| - i
  {
    hide *;
    SoundFacts(C, B, l);
    if |B.pre[i]| == w {
      v := i;
      SamePart(B.pre[i], Codeword(C.lens, n), w);
      forall S: seq<bool>, m: nat | Agrees(C.lens, n, w, l, S, m)
        ensures Arrives(C, B, l, S, i, v)
      {
        ArrivesNow(C, B, l, S, i);
      }
    } else {
      Multiples(|B.pre[i]|, w, l);
      var idx := CodeLink(C, B, l, n, w, i);
      var next := B.t[i][idx].v;
      v := Arrive(C, B, l, n, w, next);
      forall S: seq<bool>, m: nat | Agrees(C.lens, n, w, l, S, m)
        ensures Arrives(C, B, l, S, i, v)
      {
        ArrivesOn(C, B, l, n, w, i, idx, S, m, v);
      }
    }
  }

  ghost predicate Arrives(C: Code, B: Built, l: nat, S: seq<bool>, i: nat, v: nat)
    requires CodeOk(C) && i < |B.t| == |B.log| == |B.pre| && v < |B.t|
  {
    !Finds(C, S, 0, Walk(B.t, i, IndexWidth(B, l, i), S, |B.pre[i]|))
    || Walk(B.t, i, IndexWidth(B, l, i), S, |B.pre[i]|) == Walk(B.t, v, IndexWidth(B, l, v), S, |B.pre[v]|)
  }

  lemma ArrivesNow(C: Code, B: Built, l: nat, S: seq<bool>, i: nat)
    requires CodeOk(C) && i < |B.t| == |B.log| == |B.pre|
    ensures Arrives(C, B, l, S, i, i)
  {
    hide Finds, Walk;
  }

  lemma SamePart(a: seq<bool>, c: seq<bool>, w: nat)
    requires a <= c && |a| == w <= |c|
    ensures a == c[..w]
  {}

  /** On the way to a longer code, the table is linked on. */
  lemma CodeLink(C: Code, B: Built, l: nat, n: nat, w: nat, i: nat) returns (idx: nat)
    requires Sound(C, B, l) && i < |B.t| == |B.log| == |B.pre| && n < |C.lens| && l >= 1 && w < C.lens[n] <= M
    requires |B.pre[i]| + l <= w && B.pre[i] <= Codeword(C.lens, n)
    ensures idx < |B.t[i]| && idx == Val(Codeword(C.lens, n)[|B.pre[i]|..|B.pre[i]| + l])
    ensures var r := B.t[i][idx];
            IsLink(r) && r.b == l && l <= IndexWidth(B, l, i) && i < r.v < |B.t| && r.e - 16 == IndexWidth(B, l, r.v)
            && |B.pre[r.v]| == |B.pre[i]| + l && B.pre[r.v] <= Codeword(C.lens, n)
  {
    hide *;
    SoundFacts(C, B, l);
    IndexWidthIs(C, B, l, i);
    var q, e, cw := |B.pre[i]|, Eff(B.log[i], l), Codeword(C.lens, n);
    var S := cw + seq(M, _ => false);
    Padded(cw, B.pre[i], q, e, w);
    Reached(C, B, l, S, 0, i);
    CellRead(B, l, S, 0, i);
    idx := Val(S[q..q + e]);
    var cell := Cell(B, l, i, idx);
    NotDead(C.lens, n, cell);
    NoLeaf(C, B.t[i][idx], q, cell, n);
    MustLink(C, B, l, i, idx);
    LinkGoes(B, l, i, idx);
  }

  lemma Padded(cw: seq<bool>, pre: seq<bool>, q: nat, e: nat, w: nat)
    requires pre <= cw && |pre| == q && q + e <= w < |cw| <= M
    ensures var S := cw + seq(M, _ => false);
            |S| >= 0 + M && pre <= S[0..0 + M] && S[0 + q..0 + q + e] == cw[q..q + e] && S[0..0 + q + e] == cw[..q + e]
            && S[q..q + e] == cw[q..q + e]
  {}

  lemma NotDead(b: seq<nat>, n: nat, cell: seq<bool>)
    requires n < |b| && 1 <= b[n] <= M && !Oversubscribed(b) && cell <= Codeword(b, n)
    ensures |cell| <= M && Low(cell) < Filled(b, M)
  {
    hide *;
    CodeBelow(b, n);
    PrefixIffInside(cell, Codeword(b, n));
    PowPositive(M - b[n]);
  }

  lemma NoLeaf(C: Code, r: Huft, q: nat, cell: seq<bool>, n: nat)
    requires LensOk(C.lens) && !Oversubscribed(C.lens) && n < |C.lens| && |cell| < C.lens[n] && cell <= Codeword(C.lens, n)
    ensures forall m: nat :: !Leaf(C, r, q, cell, m)
  {
    hide *;
    forall m: nat
      ensures !Leaf(C, r, q, cell, m)
    {
      if Leaf(C, r, q, cell, m) {
        LeafFacts(C, r, q, cell, m);
        LensAt(C.lens);
        PrefixTransitive(Codeword(C.lens, m), cell, Codeword(C.lens, n));
        PrefixFree(C.lens, m, n);
      }
    }
  }

  lemma LensAt(b: seq<nat>)
    requires LensOk(b)
    ensures forall i :: 0 <= i < |b| ==> b[i] <= M
  {}

  lemma MustLink(C: Code, B: Built, l: nat, i: nat, idx: nat)
    requires Shape(B, l) && i < |B.t| && idx < Pow2(B.log[i]) && GoodCell(C, B, l, i, idx)
    requires Low(Cell(B, l, i, idx)) < Filled(C.lens, M)
    requires forall m: nat :: !Leaf(C, B.t[i][idx], |B.pre[i]|, Cell(B, l, i, idx), m)
    ensures LinkTo(B, l, B.t[i][idx], i, Cell(B, l, i, idx))
  {
    hide Leaf, Low, Filled, Cell, Pow2;
  }

  lemma ArrivesOn(C: Code, B: Built, l: nat, n: nat, w: nat, i: nat, idx: nat, S: seq<bool>, m: nat, v: nat)
    requires Sound(C, B, l) && i < |B.t| == |B.log| == |B.pre| && n < |C.lens| && l >= 1 && w < C.lens[n] <= M && v < |B.t|
    requires |B.pre[i]| + l <= w && Agrees(C.lens, n, w, l, S, m) && CodeOk(C)
    requires idx < |B.t[i]| && idx == Val(Codeword(C.lens, n)[|B.pre[i]|..|B.pre[i]| + l])
    requires var r := B.t[i][idx];
             IsLink(r) && r.b == l && l <= IndexWidth(B, l, i) && i < r.v < |B.t| && r.e - 16 == IndexWidth(B, l, r.v)
             && |B.pre[r.v]| == |B.pre[i]| + l && Arrives(C, B, l, S, r.v, v)
    ensures Arrives(C, B, l, S, i, v)
  {
    hide *;
    AgreesFacts(C.lens, n, w, l, S, m);
    var q, k := |B.pre[i]|, IndexWidth(B, l, i);
    if LowIndex(B, l, S, i) {
      LowIndexIs(B, l, S, i);
      SameIndex(Codeword(C.lens, n), S, q, l, w);
      if l < k { ValHead(S, q, l, k); }
      WalkStep(B.t, i, k, S, q);
      ArrivesSame(C, B, l, S, i, B.t[i][idx].v, v);
    } else {
      HighMisses(C, B, l, S, m, i);
      ArrivesNot(C, B, l, S, i, v);
    }
  }

  lemma AgreesFacts(b: seq<nat>, n: nat, w: nat, l: nat, S: seq<bool>, m: nat)
    requires Agrees(b, n, w, l, S, m)
    ensures n < |b| && w <= b[n] && |S| >= M >= w && Codeword(b, n)[..w] == S[..w] && CodeAt(b, S, 0, m) && m < |b| && b[m] > w + l
  {}

  lemma LowIndexIs(B: Built, l: nat, S: seq<bool>, i: nat)
    requires i < |B.t| == |B.log| == |B.pre| && LowIndex(B, l, S, i)
    ensures var q, m := |B.pre[i]|, IndexWidth(B, l, i);
            m <= M && q + m <= |S| && Val(S[q..q + m]) < |B.t[i]| && Val(S[q..q + m]) < Pow2(l)
  {}

  lemma SameIndex(c: seq<bool>, S: seq<bool>, q: nat, l: nat, w: nat)
    requires q + l <= w <= |c| && w <= |S| && c[..w] == S[..w]
    ensures c[q..q + l] == S[q..q + l]
  {
    assert c[q..q + l] == c[..w][q..q + l];
    assert S[q..q + l] == S[..w][q..q + l];
  }

  lemma ArrivesSame(C: Code, B: Built, l: nat, S: seq<bool>, i: nat, k: nat, v: nat)
    requires CodeOk(C) && i < |B.t| == |B.log| == |B.pre| && v < |B.t| && k < |B.t| && Arrives(C, B, l, S, k, v)
    requires Walk(B.t, i, IndexWidth(B, l, i), S, |B.pre[i]|) == Walk(B.t, k, IndexWidth(B, l, k), S, |B.pre[k]|)
    ensures Arrives(C, B, l, S, i, v)
  {
    hide Finds, Walk;
  }

  lemma ArrivesNot(C: Code, B: Built, l: nat, S: seq<bool>, i: nat, v: nat)
    requires CodeOk(C) && i < |B.t| == |B.log| == |B.pre| && v < |B.t|
    requires !Finds(C, S, 0, Walk(B.t, i, IndexWidth(B, l, i), S, |B.pre[i]|))
    ensures Arrives(C, B, l, S, i, v)
  {
    hide Finds, Walk;
  }

  lemma ArrivesMiss(C: Code, B: Built, l: nat, S: seq<bool>, i: nat, v: nat)
    requires CodeOk(C) && i < |B.t| == |B.log| == |B.pre| && v < |B.t| && Arrives(C, B, l, S, i, v)
    requires !Finds(C, S, 0, Walk(B.t, v, IndexWidth(B, l, v), S, |B.pre[v]|))
    ensures !Finds(C, S, 0, Walk(B.t, i, IndexWidth(B, l, i), S, |B.pre[i]|))
  {
    hide Finds, Walk;
  }

  /** A one beyond the l low index bits: the index is not low. */
  lemma OneIsHigh(B: Built, l: nat, S: seq<bool>, i: nat, t: nat)
    requires i < |B.t| == |B.log| == |B.pre| && |B.pre[i]| + l <= t < |B.pre[i]| + IndexWidth(B, l, i) && t < |S| && S[t]
    ensures !LowIndex(B, l, S, i)
  {
    var q, m := |B.pre[i]|, IndexWidth(B, l, i);
    if q + m <= |S| {
      ValOne(S[q..q + m], t - q);
      Pow2Monotone(l, t - q);
    }
    hide Val, Pow2;
  }

  lemma {:induction false} ValOne(u: seq<bool>, k: nat)
    requires k < |u| && u[k]
    ensures Val(u) >= Pow2(k)
  {
    if k > 0 { ValOne(u[1..], k - 1); }
  }

  /** The table of an unread prefix, with a code that hits it. */
  lemma HitTable(C: Code, B: Built, l: nat, n: nat, w: nat, t: nat) returns (v: nat)
    requires Sound(C, B, l) && Unread(C.lens, n, w, t, l)
    ensures 1 <= v < |B.t| == |B.pre| == |B.log| && n < |C.lens| && w <= C.lens[n] && B.pre[v] == Codeword(C.lens, n)[..w] && CodeOk(C)
    ensures Hit(C.lens, l, B.pre[v], B.log[v])
    ensures forall S: seq<bool>, m: nat :: Agrees(C.lens, n, w, l, S, m) ==> Arrives(C, B, l, S, 0, v)
  {
    hide *;
    SoundFacts(C, B, l);
    LensAt(C.lens);
    UnreadParts(C.lens, n, w, t, l);
    v := Arrive(C, B, l, n, w, 0);
    UnreadFlag(C.lens, n, w, t, l);
    FitHit(C.lens, l, B.pre[v], B.log[v]);
  }

  lemma UnreadParts(b: seq<nat>, n: nat, w: nat, t: nat, l: nat)
    requires Unread(b, n, w, t, l)
    ensures n < |b| && 1 <= l <= w && w % l == 0 && w + l < b[n] && w + l <= t && (t < b[n] ==> Codeword(b, n)[t])
  {}

  lemma FitHit(b: seq<nat>, l: nat, s: seq<bool>, j: nat)
    requires TableFit(b, l, s, j)
    ensures Flagged(b, l, s) <==> Hit(b, l, s, j)
  {
    hide Hit, Flagged, NoneAbove;
  }

  /** Something that the tables do not decode, for lengths that are not straight. */
  lemma FlagMisses(C: Code, B: Built, l: nat, n: nat, w: nat, t: nat) returns (S: seq<bool>)
    requires Sound(C, B, l) && Unread(C.lens, n, w, t, l)
    ensures CodeOk(C) && |S| >= M && !Finds(C, S, 0, Walk(B.t, 0, l, S, 0))
  {
    hide *;
    SoundFacts(C, B, l);
    LensAt(C.lens);
    var v := HitTable(C, B, l, n, w, t);
    IndexWidthIs(C, B, l, v);
    var m, u := HitSymbol(C.lens, l, B.pre[v], B.log[v]);
    HitParts(C.lens, l, B.pre[v], B.log[v], m, u);
    UnderFacts(C.lens, B.pre[v], m);
    S := Codeword(C.lens, m) + seq(M, _ => true);
    HitBits(C.lens, l, n, w, m, u, S);
    OneIsHigh(B, l, S, v, u);
    HighMisses(C, B, l, S, m, v);
    ArrivesMiss(C, B, l, S, 0, v);
    RootIndex(B, l);
  }

  lemma RootIndex(B: Built, l: nat)
    requires |B.log| > 0
    ensures IndexWidth(B, l, 0) == l
  {}

  lemma HitSymbol(b: seq<nat>, l: nat, s: seq<bool>, j: nat) returns (m: nat, u: nat)
    requires Hit(b, l, s, j)
    ensures HitAt(b, l, s, j, m, u)
  {
    m, u :| HitAt(b, l, s, j, m, u);
  }

  lemma HitBits(b: seq<nat>, l: nat, n: nat, w: nat, m: nat, u: nat, S: seq<bool>)
    requires n < |b| && w <= b[n] && m < |b| && w + l < b[m] <= M && Under(b, Codeword(b, n)[..w], m)
    requires u < M && (u < b[m] ==> Codeword(b, m)[u]) && S == Codeword(b, m) + seq(M, _ => true)
    ensures |S| >= M && u < |S| && S[u] && Agrees(b, n, w, l, S, m) && CodeAt(b, S, 0, m)
  {
    hide Codeword;
    assert S[0..b[m]] == Codeword(b, m);
    assert S[..w] == Codeword(b, m)[..w] == Codeword(b, n)[..w];
  }

  /** Whatever starts with a code that is unread at its bit w + l is not decoded. */
  lemma CodeMisses(C: Code, B: Built, l: nat, n: nat, w: nat, S: seq<bool>)
    requires Sound(C, B, l) && Unread(C.lens, n, w, w + l, l) && CodeAt(C.lens, S, 0, n) && |S| >= M
    ensures CodeOk(C) && !Finds(C, S, 0, Walk(B.t, 0, l, S, 0))
  {
    hide *;
    SoundFacts(C, B, l);
    LensAt(C.lens);
    UnreadParts(C.lens, n, w, w + l, l);
    CodeIsThere(C.lens, S, 0, n);
    var v := HitTable(C, B, l, n, w, w + l);
    IndexWidthIs(C, B, l, v);
    var m, u := HitSymbol(C.lens, l, B.pre[v], B.log[v]);
    HitParts(C.lens, l, B.pre[v], B.log[v], m, u);
    OwnBits(C.lens, n, w, l, S);
    OneIsHigh(B, l, S, v, w + l);
    HighMisses(C, B, l, S, n, v);
    ArrivesMiss(C, B, l, S, 0, v);
    RootIndex(B, l);
  }

  lemma OwnBits(b: seq<nat>, n: nat, w: nat, l: nat, S: seq<bool>)
    requires n < |b| && w + l < b[n] <= M <= |S| && CodeAt(b, S, 0, n) && Codeword(b, n)[w + l]
    ensures Agrees(b, n, w, l, S, n) && S[w + l]
  {
    hide Codeword;
    assert S[0..b[n]] == Codeword(b, n);
    assert S[..w] == Codeword(b, n)[..w];
    assert S[w + l] == S[0..b[n]][w + l];
  }

  /** Not every complete code is straight: with one bit, the code 111 goes on after its second bit, and beside it is only
      the code 10, which is not shorter. */
  lemma SomeBent()
    ensures var b := [1, 2, 3, 3];
            LensOk(b) && Complete(b) && Unread(b, 3, 1, 2, 1) && Codeword(b, 3) == [true, true, true] && !Straight(b, 1)
  {
    hide *;
    BentComplete();
    BentCode();
    BentUnread([1, 2, 3, 3]);
  }

  lemma BentUnread(b: seq<nat>)
    requires b == [1, 2, 3, 3] && Codeword(b, 3) == [true, true, true]
    ensures Unread(b, 3, 1, 2, 1) && !Straight(b, 1)
  {
    LongestValue(b, 3);
    hide Codeword, Longest;
    assert b[3] == 3;
    assert Unread(b, 3, 1, 2, 1);
  }

  lemma BentCode()
    ensures Codeword([1, 2, 3, 3], 3) == [true, true, true]
  {
    var b := [1, 2, 3, 3];
    BentComplete();
    hide Filled, Pow2, Complete;
    assert NextCode(b, 3) == 6 && CodeVal(b, 3) == 7;
    assert MsbBits(7, 3) == [true, true, true];
  }

  lemma BentComplete()
    ensures var b := [1, 2, 3, 3];
            LensOk(b) && Complete(b) && Count(b, 1) == 1 && Count(b, 2) == 1 && Count(b, 3) == 2
  {
    var b := [1, 2, 3, 3];
    assert LensOk(b);
    Pow2Values();
    assert Count(b, 1) == 1 && Count(b, 2) == 1 && Count(b, 3) == 2;
    assert Filled(b, 1) == 32768 && Filled(b, 2) == 49152 && Filled(b, 3) == 65536;
    forall k | 3 < k <= M
      ensures Count(b, k) == 0
    {}
    FilledStays(b, 3, M);
  }
}
