/** Where codes are laid out on the line, and how wide huft_build makes the table of a prefix. */
module HuftSizing {
  import opened Bits
  import opened PrefixCodes
  import opened HuftTables
  import opened HuftLoop
  import opened HuftCounting

  /** c counts the codes of b by length, with the unused ones added as dummies of the greatest length g. */
  ghost predicate Counts(b: seq<nat>, c: seq<nat>, g: nat) {
    |c| == M + 1 && 1 <= g <= M && LensOk(b) && !Oversubscribed(b) && |b| <= N_MAX
    && (forall j :: 1 <= j < g ==> c[j] == Count(b, j))
    && 0 < Count(b, g) <= c[g] && (Complete(b) ==> c[g] == Count(b, g))
    && (forall j :: g < j <= M ==> c[j] == Count(b, j) == 0)
    && (forall i :: 0 <= i < |b| ==> b[i] <= g)
    && Laid(c, g) == Pow2(M)
  }

  /** Where the code of length k and rank r begins. */
  function PosOf(c: seq<nat>, k: nat, r: nat): nat
    requires |c| == M + 1 && 1 <= k <= M
  {
    Laid(c, k - 1) + Shl(r, M - k)
  }

  lemma PosNext(c: seq<nat>, k: nat, r: nat)
    requires |c| == M + 1 && 1 <= k <= M
    ensures PosOf(c, k, r + 1) == PosOf(c, k, r) + Pow2(M - k)
  {
    Distribute(r, 1, Pow2(M - k));
  }

  lemma PosLast(c: seq<nat>, k: nat)
    requires |c| == M + 1 && 1 <= k <= M
    ensures PosOf(c, k, c[k]) == Laid(c, k) && PosOf(c, k, 0) == Laid(c, k - 1)
  {
    ZeroTimes(Pow2(M - k));
  }

  lemma {:induction false} LaidMonotone(c: seq<nat>, j: nat, k: nat)
    requires |c| == M + 1 && j <= k <= M
    ensures Laid(c, j) <= Laid(c, k)
    decreases k - j
  {
    if j < k {
      LaidMonotone(c, j + 1, k);
      MulNonNegative(c[j + 1], Pow2(M - (j + 1)));
    }
  }

  lemma PosMonotone(c: seq<nat>, k: nat, r: nat, s: nat)
    requires |c| == M + 1 && 1 <= k <= M && r < s
    ensures PosOf(c, k, r) + Pow2(M - k) <= PosOf(c, k, s)
  {
    MulLt(r, s, Pow2(M - k));
  }

  /** A code that exists fits on the line. */
  lemma PosFits(b: seq<nat>, c: seq<nat>, g: nat, k: nat, r: nat)
    requires Counts(b, c, g) && 1 <= k <= g && r < c[k]
    ensures PosOf(c, k, r) + Pow2(M - k) <= Laid(c, k) <= Pow2(M)
    ensures Laid(c, k - 1) <= PosOf(c, k, r)
  {
    PosMonotone(c, k, r, c[k]);
    PosLast(c, k);
    LaidMonotone(c, k, g);
    MulNonNegative(r, Pow2(M - k));
  }

  function First(c: seq<nat>, k: nat): nat
    requires k < |c|
  {
    if k <= 1 then 0 else 2 * (First(c, k - 1) + c[k - 1])
  }

  lemma {:induction false} FirstLaid(c: seq<nat>, k: nat)
    requires |c| == M + 1 && 1 <= k <= M
    ensures Shl(First(c, k), M - k) == Laid(c, k - 1)
  {
    if k > 1 {
      FirstLaid(c, k - 1);
      DoubleDistribute(First(c, k - 1), c[k - 1], Pow2(M - k));
    } else {
      ZeroTimes(Pow2(M - k));
    }
  }

  lemma {:induction false} MsbZeros(m: nat, k: nat, n: nat)
    ensures MsbBits(Shl(m, n), k + n) == MsbBits(m, k) + Zeros(n)
  {
    if n == 0 {
      assert Zeros(0) == [];
    } else {
      MsbZeros(m, k, n - 1);
      ShlHalf(m, n);
      assert Zeros(n) == Zeros(n - 1) + [false];
      Assoc(MsbBits(m, k), Zeros(n - 1), [false]);
      hide Shl, Zeros;
    }
  }

  lemma ShlHalf(m: nat, n: nat)
    requires n > 0
    ensures Shl(m, n) / 2 == Shl(m, n - 1) && Shl(m, n) % 2 == 0
  {
    DoubleMul(m, Pow2(n - 1));
    EvenHalf(m * Pow2(n - 1), Shl(m, n));
  }

  lemma EvenHalf(h: nat, v: nat)
    requires v == 2 * h
    ensures v / 2 == h && v % 2 == 0
  {}

  /** A code of length k begins at a multiple of its own size. */
  lemma PosAligned(c: seq<nat>, k: nat, r: nat)
    requires |c| == M + 1 && 1 <= k <= M
    ensures ZeroFrom(PosOf(c, k, r), k)
  {
    FirstLaid(c, k);
    Distribute(First(c, k), r, Pow2(M - k));
    MsbZeros(First(c, k) + r, k, M - k);
    hide MsbBits, Pow2, First, Laid;
    assert Pat(PosOf(c, k, r)) == MsbBits(First(c, k) + r, k) + Zeros(M - k);
  }

  lemma {:induction false} LaidIsFilled(b: seq<nat>, c: seq<nat>, k: nat)
    requires |c| == M + 1 && k <= M && forall j :: 1 <= j <= k ==> c[j] == Count(b, j)
    ensures Laid(c, k) == Filled(b, k)
  {
    if k > 0 { LaidIsFilled(b, c, k - 1); }
  }

  // ---- Table sizes

  /** huft_build's tables decode every list that satisfies this; it bounds what a second-level table can hold. */
  ghost predicate Suits(b: seq<nat>, l: nat) {
    (forall i :: 0 <= i < |b| ==> b[i] <= 2 * l) || (Complete(b) && |b| < Pow2(l))
  }

  /** Where the codes of up to w + l bits end. */
  function Reach(c: seq<nat>, w: nat, l: nat): nat
    requires |c| == M + 1
  {
    if w + l <= M then Laid(c, w + l) else Pow2(M)
  }

  /** When the table for a prefix of w bits gets more than l bits: when the first code of the prefix, of length k, has
      l or more bits left and some code of the prefix has more. */
  ghost predicate WidthExact(c: seq<nat>, k: nat, end: nat, w: nat, l: nat, j: nat)
    requires |c| == M + 1
  {
    if j > l then k >= w + l && end > Reach(c, w, l) else k < w + l || end <= Reach(c, w, l)
  }

  function Later(c: seq<nat>, k: nat): nat
    requires |c| == M + 1 && k <= M
    decreases M - k
  {
    if k == M then 0 else c[k + 1] + Later(c, k + 1)
  }

  /** Codes longer than k take at most the room of as many codes of length k. */
  lemma {:induction false} LaterRoom(c: seq<nat>, k: nat)
    requires |c| == M + 1 && k <= M
    ensures Laid(c, M) <= Laid(c, k) + Shl(Later(c, k), M - k)
    decreases M - k
  {
    if k < M {
      LaterRoom(c, k + 1);
      LaterArithmetic(c[k + 1], Later(c, k + 1), Pow2(M - (k + 1)));
    }
  }

  lemma LaterArithmetic(a: nat, r: nat, p: nat)
    ensures a * p + r * p <= (a + r) * (2 * p)
  {
    Distribute(a, r, p);
    DoubleMul(a + r, p);
    assert (2 * (a + r)) * p == (a + r) * p + (a + r) * p;
    MulNonNegative(a + r, p);
  }

  lemma {:induction false} LaterBelow(b: seq<nat>, c: seq<nat>, k: nat)
    requires |c| == M + 1 && k <= M
    requires forall j :: k < j <= M ==> c[j] == Count(b, j)
    ensures Later(c, k) + Below(b, k + 1) == Below(b, M + 1)
    decreases M - k
  {
    if k < M { LaterBelow(b, c, k + 1); }
  }

  lemma {:induction false} LaidStays(b: seq<nat>, c: seq<nat>, g: nat, k: nat)
    requires Counts(b, c, g) && g <= k <= M
    ensures Laid(c, k) == Pow2(M)
    decreases k
  {
    hide *;
    if g < k {
      LaidStays(b, c, g, k - 1);
      LaidOn(b, c, g, k);
    } else {
      LongestCounted(b, c, g);
    }
  }

  lemma LaidOn(b: seq<nat>, c: seq<nat>, g: nat, k: nat)
    requires Counts(b, c, g) && g < k <= M
    ensures Laid(c, k) == Laid(c, k - 1)
  {
    hide Oversubscribed, Pow2, LensOk;
    ZeroTimes(Pow2(M - k));
  }

  /** With fewer than 2^l codes, no subtree of the code starts l or more levels deep. */
  lemma FewCodes(b: seq<nat>, c: seq<nat>, g: nat, k: nat, r: nat, w: nat, l: nat)
    requires Counts(b, c, g) && Complete(b) && |b| < Pow2(l)
    requires w < k <= g && r < c[k] && PosOf(c, k, r) + Pow2(M - w) <= Pow2(M)
    ensures k - w < l
  {
    hide *;
    CompleteCounts(b, c, g);
    LaterBelow(b, c, k);
    BelowNext(b, k);
    BelowBound(b, M + 1);
    LaidStays(b, c, g, M);
    CodesForRoom(c, k, r, w);
    if k - w >= l {
      Pow2Monotone(l, k - w);
    }
  }

  lemma CompleteCounts(b: seq<nat>, c: seq<nat>, g: nat)
    requires Counts(b, c, g) && Complete(b)
    ensures |c| == M + 1 && g <= M && forall j :: 1 <= j <= M ==> c[j] == Count(b, j)
  {}

  lemma CodesForRoom(c: seq<nat>, k: nat, r: nat, w: nat)
    requires |c| == M + 1 && w < k <= M && r < c[k]
    requires PosOf(c, k, r) + Pow2(M - w) <= Laid(c, M)
    ensures Pow2(k - w) <= c[k] - r + Later(c, k)
  {
    LaterRoom(c, k);
    RoomLeft(c, k, r);
    Pow2Add(k - w, M - k);
    hide Pow2, Later, PosOf, Laid;
    Distribute(c[k] - r, Later(c, k), Pow2(M - k));
    ScaleDown(Pow2(k - w), c[k] - r + Later(c, k), Pow2(M - k));
  }

  lemma ScaleDown(a: nat, b: nat, p: nat)
    requires p > 0 && a * p <= b * p
    ensures a <= b
  {
    MulLt(b, a, p);
  }

  lemma RoomLeft(c: seq<nat>, k: nat, r: nat)
    requires |c| == M + 1 && 1 <= k <= M && r <= c[k]
    ensures PosOf(c, k, r) + Shl(c[k] - r, M - k) == Laid(c, k)
  {
    Distribute(r, c[k] - r, Pow2(M - k));
  }

  /** f patterns of j bits are not covered by the codes of up to w + j bits. */
  ghost predicate Uncovered(c: seq<nat>, w: nat, end: nat, j: nat, f: int)
    requires |c| == M + 1 && w + j <= M
  {
    end - Laid(c, w + j) == f * Pow2(M - (w + j))
  }

  lemma UncoveredStart(c: seq<nat>, k: nat, r: nat, w: nat)
    requires |c| == M + 1 && w < k <= M && r < c[k]
    ensures Uncovered(c, w, PosOf(c, k, r) + Pow2(M - w), k - w, Pow2(k - w) - (c[k] - r))
  {
    RoomLeft(c, k, r);
    Pow2Add(k - w, M - k);
    DistributeMinus(Pow2(k - w), c[k] - r, Pow2(M - k));
  }

  lemma DistributeMinus(a: int, b: int, p: nat)
    ensures (a - b) * p == a * p - b * p
  {}

  lemma UncoveredStep(c: seq<nat>, w: nat, end: nat, j: nat, f: int)
    requires |c| == M + 1 && w + j + 1 <= M && Uncovered(c, w, end, j, f)
    ensures Uncovered(c, w, end, j + 1, 2 * f - c[w + j + 1])
  {
    var p := Pow2(M - (w + j + 1));
    LeftArithmetic(f, c[w + j + 1], p);
  }

  lemma Covered(c: seq<nat>, w: nat, end: nat, j: nat, f: int)
    requires |c| == M + 1 && w + j <= M && Uncovered(c, w, end, j, f)
    ensures f <= 0 <==> end <= Laid(c, w + j)
  {
    SignOfProduct(f, Pow2(M - (w + j)));
  }

  /** The code of length k and rank r is the first one of a prefix of w bits. */
  ghost predicate AtPrefix(b: seq<nat>, c: seq<nat>, g: nat, k: nat, r: nat, w: nat, l: nat) {
    Counts(b, c, g) && w < k <= g && l >= 1 && r < c[k] && PosOf(c, k, r) + Pow2(M - w) <= Pow2(M)
  }

  /** A table of j bits for that prefix: unless it is full width, no code of the prefix is longer. */
  ghost predicate WidthOk(b: seq<nat>, c: seq<nat>, g: nat, k: nat, r: nat, w: nat, l: nat, j: nat)
    requires AtPrefix(b, c, g, k, r, w, l)
  {
    k - w <= j <= M + 1 && w + Eff(j, l) <= g
    && (j < l ==> PosOf(c, k, r) + Pow2(M - w) <= Laid(c, w + j))
    && (Suits(b, l) && w >= l ==> j <= l) && WidthExact(c, k, PosOf(c, k, r) + Pow2(M - w), w, l, j)
    && WidthClose(c, k, PosOf(c, k, r) + Pow2(M - w), w, g, l, j)
  }

  /** A table of more than l bits has one more than the first code of its prefix at most, and none when all codes of the
      prefix are as long as that one. */
  ghost predicate WidthClose(c: seq<nat>, k: nat, end: nat, w: nat, g: nat, l: nat, j: nat)
    requires |c| == M + 1 && w < k <= M
  {
    j > l ==> j <= k - w + 1 && (k == g ==> j == k - w) && (j == k - w ==> end <= Laid(c, k))
  }

  /** The search so far: j - 1 bits leave f patterns of the prefix uncovered. */
  ghost predicate Searching(c: seq<nat>, g: nat, k: nat, r: nat, w: nat, z: nat, j: nat, f: int) {
    |c| == M + 1 && w < k <= g <= M && r < c[k] && z <= g - w
    && k - w < j <= (if k - w < z then z else k - w + 1)
    && w + j - 1 <= M && Uncovered(c, w, PosOf(c, k, r) + Pow2(M - w), j - 1, f)
  }

  /** The width of the table for the prefix of w bits whose first code has length k; a of the c[k] codes
      of that length come after it. */
  method TableBits(c: seq<nat>, k: nat, w: nat, g: nat, l: nat, a: nat, ghost b: seq<nat>, ghost r: nat)
    returns (j: nat)
    requires AtPrefix(b, c, g, k, r, w, l) && a + 1 == c[k] - r
    ensures WidthOk(b, c, g, k, r, w, l, j)
  {
    hide *;
    PrefixFacts(b, c, g, k, r, w, l);
    LimitIs(g, w, l);
    var z := g - w;
    if z > l {
      z := l;
    }
    j := k - w;
    var f: int := Pow2(j);
    if f > a + 1 {
      SearchStart(b, c, g, k, r, w, l);
      f := f - (a + 1);
      j := j + 1;
      while j < z
        invariant Searching(c, g, k, r, w, z, j, f)
        decreases z - j
      {
        SearchStep(b, c, g, k, r, w, l, j, f);
        f := 2 * f;
        if f <= c[w + j] {
          return;
        }
        f := f - c[w + j];
        j := j + 1;
      }
      SearchEnd(b, c, g, k, r, w, l, j, f);
    } else {
      NarrowEnd(b, c, g, k, r, w, l);
    }
  }

  function TableLimit(g: nat, w: nat, l: nat): nat
    requires w <= g
  {
    if g - w > l then l else g - w
  }

  lemma NarrowEnd(b: seq<nat>, c: seq<nat>, g: nat, k: nat, r: nat, w: nat, l: nat)
    requires AtPrefix(b, c, g, k, r, w, l) && Pow2(k - w) <= c[k] - r
    ensures WidthOk(b, c, g, k, r, w, l, k - w)
  {
    hide *;
    PrefixFacts(b, c, g, k, r, w, l);
    Wide(b, c, g, k, r, w, l);
    UncoveredStart(c, k, r, w);
    Covered(c, w, PosOf(c, k, r) + Pow2(M - w), k - w, Pow2(k - w) - (c[k] - r));
    BeyondReach(b, c, g, k, r, w, l);
    NarrowIs(b, c, g, k, r, w, l);
  }

  /** The first code of the prefix fills the table of its own length. */
  lemma NarrowIs(b: seq<nat>, c: seq<nat>, g: nat, k: nat, r: nat, w: nat, l: nat)
    requires AtPrefix(b, c, g, k, r, w, l) && w < k <= g <= M && |c| == M + 1 && l >= 1
    requires PosOf(c, k, r) + Pow2(M - w) <= Laid(c, k) && (Suits(b, l) && w >= l ==> k - w <= l)
    requires k > w + l ==> PosOf(c, k, r) + Pow2(M - w) > Reach(c, w, l)
    requires k == w + l ==> Reach(c, w, l) == Laid(c, k)
    ensures WidthOk(b, c, g, k, r, w, l, k - w)
  {
    hide Counts, PosOf, Laid, Pow2, Suits, Reach;
  }

  /** A code that is longer than w + l bits begins where the others end. */
  lemma BeyondReach(b: seq<nat>, c: seq<nat>, g: nat, k: nat, r: nat, w: nat, l: nat)
    requires AtPrefix(b, c, g, k, r, w, l)
    ensures k > w + l ==> PosOf(c, k, r) + Pow2(M - w) > Reach(c, w, l)
    ensures k == w + l ==> Reach(c, w, l) == Laid(c, k)
    ensures w + l > M ==> k < w + l
  {
    hide *;
    PrefixFacts(b, c, g, k, r, w, l);
    PosFits(b, c, g, k, r);
    ReachIs(c, w, l);
    if k > w + l {
      LaidMonotone(c, w + l, k - 1);
      PowPositive(M - w);
    }
  }

  lemma ReachIs(c: seq<nat>, w: nat, l: nat)
    requires |c| == M + 1
    ensures Reach(c, w, l) == if w + l <= M then Laid(c, w + l) else Pow2(M)
  {}

  lemma PowPositive(n: nat)
    ensures Pow2(n) > 0
  {}

  lemma SearchStart(b: seq<nat>, c: seq<nat>, g: nat, k: nat, r: nat, w: nat, l: nat)
    requires AtPrefix(b, c, g, k, r, w, l)
    ensures Searching(c, g, k, r, w, TableLimit(g, w, l), k - w + 1, Pow2(k - w) - (c[k] - r))
  {
    UncoveredStart(c, k, r, w);
    hide PosOf, Laid, Pow2;
  }

  lemma SearchStep(b: seq<nat>, c: seq<nat>, g: nat, k: nat, r: nat, w: nat, l: nat, j: nat, f: int)
    requires AtPrefix(b, c, g, k, r, w, l) && j < TableLimit(g, w, l)
    requires Searching(c, g, k, r, w, TableLimit(g, w, l), j, f)
    ensures w + j < |c|
    ensures 2 * f <= c[w + j] ==> WidthOk(b, c, g, k, r, w, l, j)
    ensures 2 * f > c[w + j] ==> Searching(c, g, k, r, w, TableLimit(g, w, l), j + 1, 2 * f - c[w + j])
  {
    var end := PosOf(c, k, r) + Pow2(M - w);
    UncoveredStep(c, w, end, j - 1, f);
    Covered(c, w, end, j, 2 * f - c[w + j]);
    BeyondReach(b, c, g, k, r, w, l);
    hide Counts, PosOf, Laid, Pow2, Uncovered, Suits;
  }

  lemma SearchEnd(b: seq<nat>, c: seq<nat>, g: nat, k: nat, r: nat, w: nat, l: nat, j: nat, f: int)
    requires AtPrefix(b, c, g, k, r, w, l) && j >= TableLimit(g, w, l) && Pow2(k - w) > c[k] - r
    requires Searching(c, g, k, r, w, TableLimit(g, w, l), j, f)
    ensures WidthOk(b, c, g, k, r, w, l, j)
  {
    hide *;
    PrefixFacts(b, c, g, k, r, w, l);
    SearchFacts(c, g, k, r, w, l, j, f);
    Wide(b, c, g, k, r, w, l);
    BeyondReach(b, c, g, k, r, w, l);
    UncoveredStart(c, k, r, w);
    Covered(c, w, PosOf(c, k, r) + Pow2(M - w), k - w, Pow2(k - w) - (c[k] - r));
    LimitIs(g, w, l);
    ExactIs(c, k, PosOf(c, k, r) + Pow2(M - w), w, l, j);
    CloseIs(c, k, PosOf(c, k, r) + Pow2(M - w), w, g, l, j);
    WidthIs(b, c, g, k, r, w, l, j);
  }

  lemma PrefixFacts(b: seq<nat>, c: seq<nat>, g: nat, k: nat, r: nat, w: nat, l: nat)
    requires AtPrefix(b, c, g, k, r, w, l)
    ensures Counts(b, c, g) && w < k <= g <= M && l >= 1 && |c| == M + 1 && r < c[k]
    ensures PosOf(c, k, r) + Pow2(M - w) <= Pow2(M)
  {
    hide PosOf, Pow2;
  }

  lemma SearchFacts(c: seq<nat>, g: nat, k: nat, r: nat, w: nat, l: nat, j: nat, f: int)
    requires w <= g && Searching(c, g, k, r, w, TableLimit(g, w, l), j, f) && j >= TableLimit(g, w, l)
    ensures |c| == M + 1 && w < k <= g <= M && r < c[k]
    ensures k - w < j && (j == TableLimit(g, w, l) || (j == k - w + 1 && k - w >= TableLimit(g, w, l)))
  {
    hide PosOf, Pow2, Uncovered;
  }

  lemma LimitIs(g: nat, w: nat, l: nat)
    requires w <= g
    ensures TableLimit(g, w, l) == if g - w > l then l else g - w
  {}

  lemma ExactIs(c: seq<nat>, k: nat, end: nat, w: nat, l: nat, j: nat)
    requires |c| == M + 1 && (if k >= w + l then j > l && end > Reach(c, w, l) else j <= l)
    ensures WidthExact(c, k, end, w, l, j)
  {}

  lemma CloseIs(c: seq<nat>, k: nat, end: nat, w: nat, g: nat, l: nat, j: nat)
    requires |c| == M + 1 && w < k <= M && (j > l ==> j == k - w + 1 && k != g)
    ensures WidthClose(c, k, end, w, g, l, j)
  {}

  lemma WidthIs(b: seq<nat>, c: seq<nat>, g: nat, k: nat, r: nat, w: nat, l: nat, j: nat)
    requires AtPrefix(b, c, g, k, r, w, l) && Laid(c, g) == Pow2(M)
    requires k - w <= j <= M + 1 && (if j < l then w + j == g else w + l <= g)
    requires Suits(b, l) && w >= l ==> j <= l
    requires WidthExact(c, k, PosOf(c, k, r) + Pow2(M - w), w, l, j) && WidthClose(c, k, PosOf(c, k, r) + Pow2(M - w), w, g, l, j)
    ensures WidthOk(b, c, g, k, r, w, l, j)
  {
    hide Counts, PosOf, Pow2, Suits, Laid, WidthExact, WidthClose;
  }

  /** Facts about the width that do not depend on the loop. */
  lemma Wide(b: seq<nat>, c: seq<nat>, g: nat, k: nat, r: nat, w: nat, l: nat)
    requires Counts(b, c, g) && w < k <= g && l >= 1 && r < c[k]
    requires PosOf(c, k, r) + Pow2(M - w) <= Pow2(M)
    ensures Laid(c, g) == Pow2(M) && |c| == M + 1 && g <= M
    ensures k == g ==> Pow2(k - w) <= c[k] - r
    ensures Suits(b, l) && w >= l ==> k - w <= l && (k - w == l ==> k == g)
  {
    hide *;
    LongestCounted(b, c, g);
    if k == g {
      LongestFill(b, c, g, r, w);
    }
    if Suits(b, l) && w >= l {
      SuitsIs(b, l);
      if forall i :: 0 <= i < |b| ==> b[i] <= 2 * l {
        LongestAppears(b, g);
      } else {
        FewCodes(b, c, g, k, r, w, l);
      }
    }
  }

  lemma LongestCounted(b: seq<nat>, c: seq<nat>, g: nat)
    requires Counts(b, c, g)
    ensures Laid(c, g) == Pow2(M) && |c| == M + 1 && g <= M && Count(b, g) > 0
  {}

  lemma SuitsIs(b: seq<nat>, l: nat)
    requires Suits(b, l)
    ensures (forall i :: 0 <= i < |b| ==> b[i] <= 2 * l) || (Complete(b) && |b| < Pow2(l))
  {}

  lemma LongestFill(b: seq<nat>, c: seq<nat>, g: nat, r: nat, w: nat)
    requires Counts(b, c, g) && w < g && r < c[g]
    requires PosOf(c, g, r) + Pow2(M - w) <= Pow2(M)
    ensures Pow2(g - w) <= c[g] - r
  {
    RoomLeft(c, g, r);
    Pow2Add(g - w, M - g);
    hide Pow2, PosOf, Laid;
    ScaleDown(Pow2(g - w), c[g] - r, Pow2(M - g));
  }

  lemma LongestAppears(b: seq<nat>, g: nat)
    requires Count(b, g) > 0
    ensures exists i :: 0 <= i < |b| && b[i] == g
  {
    var n := NthOfLength(b, |b|, g, 0);
  }
}
