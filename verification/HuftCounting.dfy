/** The counting stages of huft_build: length counts, Kraft's inequality, and sorting symbols by length. */
module HuftCounting {
  import opened Options
  import opened Bits
  import opened PrefixCodes

  const N_MAX: nat := 288

  /** How many symbols have a nonzero length below k. */
  function Below(b: seq<nat>, k: nat): nat {
    if k <= 1 then 0 else Below(b, k - 1) + Count(b, k - 1)
  }

  /** The place of symbol n among the symbols sorted by length, then by number. */
  function SortedAt(b: seq<nat>, n: nat): nat
    requires n < |b|
  {
    Below(b, b[n]) + CountTo(b, n, b[n])
  }

  function ShortTo(b: seq<nat>, n: nat, k: nat): (c: nat)
    requires n <= |b|
    ensures c <= n
  {
    if n == 0 then 0 else ShortTo(b, n - 1, k) + (if 1 <= b[n - 1] < k then 1 else 0)
  }

  lemma {:induction false} ShortStep(b: seq<nat>, n: nat, k: nat)
    requires n <= |b| && k >= 1
    ensures ShortTo(b, n, k + 1) == ShortTo(b, n, k) + CountTo(b, n, k)
  {
    if n > 0 { ShortStep(b, n - 1, k); }
  }

  lemma {:induction false} ShortOne(b: seq<nat>, n: nat)
    requires n <= |b|
    ensures ShortTo(b, n, 1) == 0
  {
    if n > 0 { ShortOne(b, n - 1); }
  }

  lemma {:induction false} BelowIsShort(b: seq<nat>, k: nat)
    requires k >= 1
    ensures Below(b, k) == ShortTo(b, |b|, k)
  {
    if k == 1 {
      ShortOne(b, |b|);
    } else {
      BelowIsShort(b, k - 1);
      ShortStep(b, |b|, k - 1);
    }
  }

  lemma BelowNext(b: seq<nat>, k: nat)
    requires k >= 1
    ensures Below(b, k + 1) == Below(b, k) + Count(b, k)
  {}

  lemma BelowBound(b: seq<nat>, k: nat)
    ensures Below(b, k) <= |b|
  {
    if k >= 1 { BelowIsShort(b, k); }
  }

  lemma {:induction false} BelowMonotone(b: seq<nat>, j: nat, k: nat)
    requires j <= k
    ensures Below(b, j) <= Below(b, k)
    decreases k - j
  {
    if j < k { BelowMonotone(b, j + 1, k); }
  }

  /** The greatest length in use. */
  function Longest(b: seq<nat>): nat {
    if b == [] then 0
    else
      var r := Longest(b[1..]);
      if b[0] > r then b[0] else r
  }

  lemma {:induction false} LongestValue(b: seq<nat>, g: nat)
    requires forall i :: 0 <= i < |b| ==> b[i] <= g
    ensures Longest(b) <= g
    ensures (exists i :: 0 <= i < |b| && b[i] == g) ==> Longest(b) == g
  {
    if b != [] {
      LongestValue(b[1..], g);
      if i :| 0 <= i < |b| && b[i] == g {
        if i > 0 { assert b[1..][i - 1] == g; }
      }
    }
  }

  lemma SortedAtRange(b: seq<nat>, n: nat)
    requires n < |b| && b[n] > 0
    ensures Below(b, b[n]) <= SortedAt(b, n) < Below(b, b[n] + 1) <= |b|
  {
    RankBound(b, n);
    BelowBound(b, b[n] + 1);
  }

  lemma SortedAtInjective(b: seq<nat>, m: nat, n: nat)
    requires m < n < |b| && b[m] > 0 && b[n] > 0
    ensures SortedAt(b, m) != SortedAt(b, n)
  {
    SortedAtRange(b, m);
    SortedAtRange(b, n);
    if b[m] == b[n] {
      RankStrict(b, m, n);
    } else if b[m] < b[n] {
      BelowMonotone(b, b[m] + 1, b[n]);
    } else {
      BelowMonotone(b, b[n] + 1, b[m]);
    }
  }

  /** The symbol of length k and rank r. */
  lemma {:induction false} NthOfLength(b: seq<nat>, m: nat, k: nat, r: nat) returns (n: nat)
    requires m <= |b| && r < CountTo(b, m, k)
    ensures n < m && b[n] == k && CountTo(b, n, k) == r
  {
    if b[m - 1] == k && r == CountTo(b, m - 1, k) {
      n := m - 1;
    } else {
      n := NthOfLength(b, m - 1, k, r);
    }
  }

  /** c[k] is the number of codes of length k. */
  method CountLengths(b: seq<nat>) returns (c: seq<nat>)
    requires LensOk(b)
    ensures |c| == M + 1 && forall k :: 0 <= k <= M ==> c[k] == Count(b, k)
  {
    c := seq(M + 1, _ => 0);
    var i := 0;
    while i < |b|
      invariant 0 <= i <= |b| && |c| == M + 1
      invariant forall k :: 0 <= k <= M ==> c[k] == CountTo(b, i, k)
    {
      c := c[b[i] := c[b[i]] + 1];
      i := i + 1;
    }
  }

  /** The shortest and the longest length in use. */
  method LengthRange(c: seq<nat>) returns (k: nat, g: nat)
    requires |c| == M + 1 && exists j :: 1 <= j <= M && c[j] != 0
    ensures 1 <= k <= g <= M && c[k] != 0 && c[g] != 0
    ensures forall j :: 1 <= j < k || g < j <= M ==> c[j] == 0
  {
    k := 1;
    while c[k] == 0
      invariant 1 <= k <= M && (forall j :: 1 <= j < k ==> c[j] == 0)
      invariant exists j :: k <= j <= M && c[j] != 0
      decreases M - k
    {
      k := k + 1;
    }
    g := M;
    while c[g] == 0
      invariant k <= g <= M && forall j :: g < j <= M ==> c[j] == 0
      decreases g
    {
      g := g - 1;
    }
  }

  lemma {:induction false} FilledZero(b: seq<nat>, k: nat)
    requires k <= M && forall j :: 1 <= j <= k ==> Count(b, j) == 0
    ensures Filled(b, k) == 0
  {
    if k > 0 {
      FilledZero(b, k - 1);
      ZeroTimes(Pow2(M - k));
    }
  }

  lemma ZeroTimes(p: nat)
    ensures 0 * p == 0
  {}

  lemma {:induction false} FilledStays(b: seq<nat>, g: nat, k: nat)
    requires g <= k <= M && forall j :: g < j <= M ==> Count(b, j) == 0
    ensures Filled(b, k) == Filled(b, g)
    decreases k
  {
    if g < k {
      FilledStays(b, g, k - 1);
      ZeroTimes(Pow2(M - k));
    }
  }

  /** y unused codes of length k are what is left of the line. */
  ghost predicate Left(b: seq<nat>, k: nat, y: int)
    requires k <= M
  {
    Pow2(M) - Filled(b, k) == y * Pow2(M - k)
  }

  lemma LeftStep(b: seq<nat>, k: nat, y: int)
    requires 1 <= k <= M && Left(b, k - 1, y)
    ensures Left(b, k, 2 * y - Count(b, k))
  {
    var c, p := Count(b, k), Pow2(M - k);
    assert Pow2(M - (k - 1)) == 2 * p;
    LeftArithmetic(y, c, p);
  }

  lemma LeftArithmetic(y: int, c: nat, p: nat)
    ensures y * (2 * p) - c * p == (2 * y - c) * p
  {}

  lemma LeftSign(b: seq<nat>, k: nat, y: int)
    requires k <= M && Left(b, k, y)
    ensures y < 0 <==> Filled(b, k) > Pow2(M)
    ensures y == 0 <==> Filled(b, k) == Pow2(M)
  {
    SignOfProduct(y, Pow2(M - k));
  }

  lemma SignOfProduct(y: int, p: nat)
    requires p > 0
    ensures y < 0 ==> y * p < 0
    ensures y == 0 ==> y * p == 0
    ensures y > 0 ==> y * p > 0
  {}

  lemma UnusedStart(b: seq<nat>, k: nat)
    requires 1 <= k <= M && forall j :: 1 <= j < k ==> Count(b, j) == 0
    ensures Left(b, k - 1, Pow2(k - 1)) && Pow2(k) == 2 * Pow2(k - 1)
  {
    FilledZero(b, k - 1);
    Pow2Add(k - 1, M - (k - 1));
  }

  /** Kraft's inequality, length by length: y < 0 for more codes than bits, else the number of codes of
      the longest length that are unused. */
  method UnusedCodes(ghost b: seq<nat>, c: seq<nat>, k: nat, g: nat) returns (y: int)
    requires |c| == M + 1 && forall j :: 0 <= j <= M ==> c[j] == Count(b, j)
    requires 1 <= k <= g <= M && forall j :: 1 <= j < k || g < j <= M ==> c[j] == 0
    ensures y < 0 <==> Oversubscribed(b)
    ensures y >= 0 ==> Left(b, g, y)
    ensures y == 0 <==> Complete(b) && y >= 0
  {
    var j := k;
    y := Pow2(k);
    hide Left, Filled, Pow2;
    UnusedStart(b, k);
    FilledStays(b, g, M);
    ghost var y0 := Pow2(k - 1);
    while j < g
      invariant k <= j <= g && y == 2 * y0 && Left(b, j - 1, y0)
    {
      y := y - c[j];
      LeftStep(b, j, y0);
      LeftSign(b, j, y);
      if y < 0 {
        FilledMonotone(b, j, M);
        return;
      }
      y0 := y;
      j := j + 1;
      y := 2 * y;
    }
    y := y - c[g];
    LeftStep(b, g, y0);
    LeftSign(b, g, y);
  }

  /** v lists the symbols in order of length; what lies beyond them was never written. */
  ghost predicate Sorted(b: seq<nat>, v: seq<Option<nat>>) {
    |v| == N_MAX && |b| <= N_MAX
    && (forall n :: 0 <= n < |b| && b[n] > 0 ==> SortedAt(b, n) < |v| && v[SortedAt(b, n)] == Some(n))
    && (forall q :: Below(b, M + 1) <= q < |v| ==> v[q] == None)
  }

  method Offsets(ghost b: seq<nat>, c: seq<nat>, g: nat) returns (x: seq<nat>)
    requires |c| == M + 1 && 1 <= g <= M && forall j :: 0 <= j < g ==> c[j] == Count(b, j)
    ensures |x| == M + 1 && forall k :: 1 <= k <= g ==> x[k] == Below(b, k)
  {
    x := seq(M + 1, _ => 0);
    var j, i := 0, 1;
    while i < g
      invariant 1 <= i <= g && |x| == M + 1 && j == Below(b, i)
      invariant forall k :: 1 <= k <= i ==> x[k] == Below(b, k)
    {
      j := j + c[i];
      i := i + 1;
      x := x[i := j];
    }
  }

  ghost predicate SortedTo(b: seq<nat>, i: nat, v: seq<Option<nat>>)
    requires i <= |b|
  {
    |v| == N_MAX && |b| <= N_MAX
    && (forall n :: 0 <= n < i && b[n] > 0 ==> SortedAt(b, n) < |v| && v[SortedAt(b, n)] == Some(n))
    && (forall q :: Below(b, M + 1) <= q < |v| ==> v[q] == None)
  }

  lemma SortStep(b: seq<nat>, i: nat, v: seq<Option<nat>>)
    requires i < |b| && SortedTo(b, i, v) && 0 < b[i] <= M
    ensures SortedAt(b, i) < |v| && SortedTo(b, i + 1, v[SortedAt(b, i) := Some(i)])
  {
    hide *;
    SortedAtRange(b, i);
    BelowMonotone(b, b[i] + 1, M + 1);
    BelowBound(b, M + 1);
    SortedSize(b, i, v);
    forall n | 0 <= n < i && b[n] > 0
      ensures SortedAt(b, n) != SortedAt(b, i)
    {
      SortedAtInjective(b, n, i);
    }
    SortedPut(b, i, v);
  }

  lemma SortedPut(b: seq<nat>, i: nat, v: seq<Option<nat>>)
    requires i < |b| && SortedTo(b, i, v) && SortedAt(b, i) < Below(b, M + 1) <= |b| <= |v|
    requires forall n :: 0 <= n < i && b[n] > 0 ==> SortedAt(b, n) != SortedAt(b, i)
    ensures SortedTo(b, i + 1, v[SortedAt(b, i) := Some(i)])
  {
    hide SortedAt, Below;
  }

  method SortValues(b: seq<nat>, g: nat, x0: seq<nat>) returns (v: seq<Option<nat>>)
    requires |b| <= N_MAX && g <= M && |x0| == M + 1
    requires forall i :: 0 <= i < |b| ==> b[i] <= g
    requires forall k :: 1 <= k <= g ==> x0[k] == Below(b, k)
    ensures Sorted(b, v)
  {
    hide *;
    BelowBound(b, M + 1);
    var x := x0;
    v := seq(N_MAX, _ => None);
    var i := 0;
    SortNone(b, v);
    while i < |b|
      invariant 0 <= i <= |b| && |x| == M + 1 && SortedTo(b, i, v)
      invariant forall k :: 1 <= k <= g ==> x[k] == Below(b, k) + CountTo(b, i, k)
    {
      var j := b[i];
      CountNext(b, i);
      if j != 0 {
        SortedPlace(b, i);
        SortStep(b, i, v);
        v := v[x[j] := Some(i)];
        x := x[j := x[j] + 1];
      } else {
        SortSkip(b, i, v);
      }
      i := i + 1;
    }
    AllSorted(b, v);
  }

  lemma AllSorted(b: seq<nat>, v: seq<Option<nat>>)
    requires SortedTo(b, |b|, v)
    ensures Sorted(b, v)
  {}

  lemma SortNone(b: seq<nat>, v: seq<Option<nat>>)
    requires |b| <= N_MAX && |v| == N_MAX && (forall q :: 0 <= q < |v| ==> v[q] == None)
    ensures SortedTo(b, 0, v)
    ensures forall k: nat :: CountTo(b, 0, k) == 0
  {}

  lemma CountNext(b: seq<nat>, i: nat)
    requires i < |b|
    ensures forall k: nat :: CountTo(b, i + 1, k) == CountTo(b, i, k) + (if b[i] == k then 1 else 0)
  {}

  lemma SortedPlace(b: seq<nat>, i: nat)
    requires i < |b|
    ensures SortedAt(b, i) == Below(b, b[i]) + CountTo(b, i, b[i])
  {}

  lemma SortedSize(b: seq<nat>, i: nat, v: seq<Option<nat>>)
    requires i <= |b| && SortedTo(b, i, v)
    ensures |b| <= |v|
  {}

  lemma SortSkip(b: seq<nat>, i: nat, v: seq<Option<nat>>)
    requires i < |b| && SortedTo(b, i, v) && b[i] == 0
    ensures SortedTo(b, i + 1, v)
  {}
}
