/** The state of huft_build's main loop, and what each of its steps does to it. */
module HuftState {
  import opened Options
  import opened Bits
  import opened PrefixCodes
  import opened HuftTables
  import opened HuftSteps
  import opened HuftWalk
  import opened HuftLoop
  import opened HuftCounting
  import opened HuftSizing
  import opened HuftExactness

  /** What the main loop does not change: the arguments, the counts, the sorted values, g and l. */
  datatype Setup = Setup(C: Code, c: seq<nat>, v: seq<Option<nat>>, g: nat, l: nat)

  ghost predicate SetupOk(P: Setup) {
    CodeOk(P.C) && Counts(P.C.lens, P.c, P.g) && Sorted(P.C.lens, P.v) && 1 <= P.l <= P.g
  }

  /** The main loop will come to a code of length k and rank r. */
  ghost predicate CodeExists(P: Setup, k: nat, r: nat) {
    SetupOk(P) && 1 <= k <= P.g && r < P.c[k]
  }

  ghost predicate Base(P: Setup, B: Built, pos: nat) {
    SetupOk(P) && Shape(B, P.l) && Cells(P.C, B, P.l, pos) && Stack(B, P.l, pos) && Roomy(B, P.l, P.c)
    && (Suits(P.C.lens, P.l) ==> Narrow(B, P.l))
    && (forall i :: 0 <= i < |B.log| ==> B.log[i] <= M + 1)
    && (P.g <= P.l ==> |B.t| <= 1)
    && (if |B.u| == 0 then B.t == [] else B.u[0] == 0 && B.log[0] >= P.l) && Exact(P, B, pos)
  }

  ghost predicate Exact(P: Setup, B: Built, pos: nat)
    requires P.l >= 1 && Shape(B, P.l)
  {
    Neat(B, P.l, pos) && Wides(P.C.lens, P.l, B.pre, B.log)
  }

  ghost predicate Ready(P: Setup, B: Built, pos: nat) {
    Base(P, B, pos)
    && (|B.u| == 0 ==> pos == 0)
    && (|B.u| > 0 ==> ZeroFrom(pos, |B.pre[Top(B)]| + P.l) && (pos < Pow2(M) ==> B.pre[Top(B)] <= Pat(pos)))
  }

  /** After a code of length k: the tables it was the last one of are still on the stack. */
  ghost predicate Popping(P: Setup, B: Built, pos: nat, k: nat) {
    Base(P, B, pos) && |B.u| > 0 && 0 < pos <= Pow2(M)
    && |B.pre[Top(B)]| < k && Low(B.pre[Top(B)]) < pos <= End(B.pre[Top(B)])
    && ZeroFrom(pos, |B.pre[Top(B)]| + P.l)
  }

  // ---- Opening a table

  lemma FirstPrefix(P: Setup, B: Built, k: nat, r: nat)
    requires CodeExists(P, k, r) && Ready(P, B, PosOf(P.c, k, r)) && |B.u| == 0
    ensures AtPrefix(P.C.lens, P.c, P.g, k, r, 0, P.l)
  {}

  /** A table that gets a second level is at full width, and the new prefix has no earlier code. */
  lemma NextPrefix(P: Setup, B: Built, k: nat, r: nat)
    requires CodeExists(P, k, r) && Ready(P, B, PosOf(P.c, k, r)) && |B.u| > 0
    requires k > |B.pre[Top(B)]| + P.l
    ensures AtLink(P.C, B, P.l, PosOf(P.c, k, r))
    ensures AtPrefix(P.C.lens, P.c, P.g, k, r, |B.pre[Top(B)]| + P.l, P.l)
  {
    var pos, w := PosOf(P.c, k, r), |B.pre[Top(B)]| + P.l;
    PosFits(P.C.lens, P.c, P.g, k, r);
    Pow2Monotone(0, M - k);
    CodeBegins(pos, w);
    EndBelow(Pat(pos)[..w]);
    TopCovers(P, B, k, r);
    hide PosOf, Low, Pat, Pow2, Laid, Cells, Stack, Roomy, Exact;
  }

  /** Codes yet to come under the top table's prefix are no longer than the table has bits, unless it is
      at full width. */
  lemma TopCovers(P: Setup, B: Built, k: nat, r: nat)
    requires CodeExists(P, k, r) && Ready(P, B, PosOf(P.c, k, r)) && |B.u| > 0
    ensures B.log[Top(B)] < P.l ==> k <= |B.pre[Top(B)]| + B.log[Top(B)]
  {
    hide *;
    SetupFacts(P, k, r);
    CountsOf(P);
    ReadyFacts(P, B, PosOf(P.c, k, r));
    var pos, top := PosOf(P.c, k, r), Top(B);
    var pi := B.pre[top];
    PosFits(P.C.lens, P.c, P.g, k, r);
    PowPositive(M - k);
    ReadyTop(P, B, pos);
    PatInside(pi, pos);
    EndOf(pi);
    if B.log[top] < P.l && k > |pi| + B.log[top] {
      RoomyAt(P, B, top);
      LaidMonotone(P.c, |pi| + B.log[top], k - 1);
    }
  }

  lemma CountsOf(P: Setup)
    requires SetupOk(P)
    ensures Counts(P.C.lens, P.c, P.g)
  {}

  lemma ReadyTop(P: Setup, B: Built, pos: nat)
    requires Ready(P, B, pos) && |B.u| > 0
    ensures pos < Pow2(M) ==> B.pre[Top(B)] <= Pat(pos)
  {}

  lemma RoomyAt(P: Setup, B: Built, i: nat)
    requires Shape(B, P.l) && |P.c| == M + 1 && Roomy(B, P.l, P.c) && i < |B.t| && B.log[i] < P.l
    ensures |B.pre[i]| + B.log[i] <= M && End(B.pre[i]) <= Laid(P.c, |B.pre[i]| + B.log[i])
  {}

  lemma RoomyLinked(P: Setup, B: Built, B': Built, k: nat, r: nat, w: nat, j: nat)
    requires Shape(B, P.l) && Shape(B', P.l) && |P.c| == M + 1 && Roomy(B, P.l, P.c)
    requires AtPrefix(P.C.lens, P.c, P.g, k, r, w, P.l) && WidthOk(P.C.lens, P.c, P.g, k, r, w, P.l, j)
    requires |B'.t| == |B.t| + 1 && B.pre <= B'.pre && B'.log == B.log + [j] && |B'.pre[|B.t|]| == w
    requires Low(B'.pre[|B.t|]) == PosOf(P.c, k, r)
    ensures Roomy(B', P.l, P.c)
  {
    hide *;
    WidthCovers(P, k, r, w, j);
    Lengthened(B, B', P.l);
    forall i | 0 <= i < |B'.t| && B'.log[i] < P.l
      ensures End(B'.pre[i]) <= Laid(P.c, |B'.pre[i]| + B'.log[i])
    {
      if i < |B.t| {
        RoomyAt(P, B, i);
      } else {
        EndOf(B'.pre[i]);
      }
    }
    RoomyIntro(P, B');
  }

  lemma WidthCovers(P: Setup, k: nat, r: nat, w: nat, j: nat)
    requires AtPrefix(P.C.lens, P.c, P.g, k, r, w, P.l) && WidthOk(P.C.lens, P.c, P.g, k, r, w, P.l, j)
    ensures w <= M && |P.c| == M + 1 && 1 <= k <= M && r <= P.c[k]
    ensures j < P.l ==> w + j <= M && PosOf(P.c, k, r) + Pow2(M - w) <= Laid(P.c, w + j)
  {
    hide Suits, PosOf, Laid, Pow2, WidthExact, WidthClose;
  }

  lemma Lengthened(B: Built, B': Built, l: nat)
    requires Shape(B, l) && Shape(B', l) && |B'.t| == |B.t| + 1 && B.pre <= B'.pre && |B'.log| == |B.log| + 1
    ensures |B.t| == |B.pre| == |B.log| && |B'.t| == |B'.pre| == |B'.log|
    ensures forall i :: 0 <= i < |B'.t| ==> |B'.pre[i]| <= M && (B'.log[i] < l ==> |B'.pre[i]| + B'.log[i] <= M)
    ensures forall i :: 0 <= i < |B.t| ==> B'.pre[i] == B.pre[i]
  {}

  lemma RoomyIntro(P: Setup, B: Built)
    requires Shape(B, P.l) && |P.c| == M + 1 && |B.t| == |B.pre| == |B.log|
    requires forall i :: 0 <= i < |B.t| && B.log[i] < P.l ==> |B.pre[i]| <= M && |B.pre[i]| + B.log[i] <= M && End(B.pre[i]) <= Laid(P.c, |B.pre[i]| + B.log[i])
    ensures Roomy(B, P.l, P.c)
  {}

  lemma OpenFirst(P: Setup, B: Built, k: nat, r: nat, j: nat, q: seq<Huft>)
    requires CodeExists(P, k, r) && Ready(P, B, PosOf(P.c, k, r)) && |B.u| == 0
    requires AtPrefix(P.C.lens, P.c, P.g, k, r, 0, P.l) && WidthOk(P.C.lens, P.c, P.g, k, r, 0, P.l, j)
    requires |q| == Pow2(j) && Empty(q)
    ensures Ready(P, Built([q], [[]], [j], [0]), PosOf(P.c, k, r))
  {
    hide *;
    SetupFacts(P, k, r);
    NoneYet(P, B, PosOf(P.c, k, r));
    WidthBounds(P, k, r, 0, j);
    FirstTable(P.C, P.l, q, j);
    FirstNeat(P.C.lens, P.l, q, j);
    FirstFull(P, k, r, j);
    EmptyLow();
    PatZero();
    OneTableIs(q, j, P.l);
    var B' := Built([q], [[]], [j], [0]);
    RoomyLinked(P, B, B', k, r, 0, j);
    ExactIntro(P, B', 0);
    OneIsReady(P, B', q, j);
  }

  lemma NoneYet(P: Setup, B: Built, pos: nat)
    requires Ready(P, B, pos) && |B.u| == 0
    ensures pos == 0 && Shape(B, P.l) && P.l >= 1 && |P.c| == M + 1 && Roomy(B, P.l, P.c)
    ensures B.t == [] && B.pre == [] && B.log == []
  {
    hide Cells, Closed, StackLink, Roomy, Exact;
  }

  lemma OneTableIs(q: seq<Huft>, j: nat, l: nat)
    ensures var B := Built([q], [[]], [j], [0]);
            |B.t| == 1 && B.pre == [[]] && B.log == [j] && B.u == [0] && |B.pre[0]| == 0 && [] <= B.pre
            && B.log == [] + [j] && Top(B) == 0
  {}

  /** With one table, for the prefix of no bits, the loop is ready for the code at 0. */
  lemma OneIsReady(P: Setup, B: Built, q: seq<Huft>, j: nat)
    requires SetupOk(P) && B == Built([q], [[]], [j], [0]) && P.l <= j <= M + 1
    requires Shape(B, P.l) && Cells(P.C, B, P.l, 0) && Stack(B, P.l, 0) && Roomy(B, P.l, P.c) && Exact(P, B, 0)
    requires B.pre[0] <= Pat(0) && ZeroFrom(0, 0)
    ensures Ready(P, B, 0)
  {
    hide Cells, Stack, Roomy, Exact, SetupOk, Suits, Pat, Pow2;
    ZeroOn(0, 0, P.l);
  }

  lemma ZeroOn(pos: nat, from: nat, to: nat)
    requires ZeroFrom(pos, from) && from <= to
    ensures ZeroFrom(pos, to)
  {}

  lemma EmptyLow()
    ensures Low([]) == 0
  {}

  lemma PatZero()
    ensures ZeroFrom(0, 0)
  {
    ShlZero(M);
    MsbZeros(0, 0, M);
  }

  lemma ShlZero(n: nat)
    ensures Shl(0, n) == 0
  {}

  /** The first table is at full width: the longest codes are not covered by shorter ones. */
  lemma FirstFull(P: Setup, k: nat, r: nat, j: nat)
    requires SetupOk(P) && AtPrefix(P.C.lens, P.c, P.g, k, r, 0, P.l) && WidthOk(P.C.lens, P.c, P.g, k, r, 0, P.l, j)
    requires PosOf(P.c, k, r) == 0
    ensures j >= P.l
  {
    if j < P.l {
      PosFits(P.C.lens, P.c, P.g, P.g, 0);
      PosLast(P.c, P.g);
      LaidMonotone(P.c, j, P.g - 1);
      Pow2Monotone(0, M - P.g);
    }
  }

  lemma OpenNext(P: Setup, B: Built, k: nat, r: nat, j: nat, q: seq<Huft>)
    requires CodeExists(P, k, r) && Ready(P, B, PosOf(P.c, k, r)) && |B.u| > 0
    requires k > |B.pre[Top(B)]| + P.l
    requires AtPrefix(P.C.lens, P.c, P.g, k, r, |B.pre[Top(B)]| + P.l, P.l)
    requires WidthOk(P.C.lens, P.c, P.g, k, r, |B.pre[Top(B)]| + P.l, P.l, j)
    requires |q| == Pow2(j) && Empty(q)
    ensures Val(Pat(PosOf(P.c, k, r))[|B.pre[Top(B)]|..]) < |B.t[Top(B)]|
    ensures var B' := Linked(B, P.l, PosOf(P.c, k, r), q, j);
            Ready(P, B', PosOf(P.c, k, r)) && Top(B') == |B.t| && |B'.pre[|B.t|]| == |B.pre[Top(B)]| + P.l
  {
    hide *;
    SetupFacts(P, k, r);
    var pos := PosOf(P.c, k, r);
    ReadyFacts(P, B, pos);
    var w := |B.pre[Top(B)]| + P.l;
    NextPrefix(P, B, k, r);
    WidthBounds(P, k, r, w, j);
    LinkStep(P.C, B, P.l, pos, q, j);
    CodeBeginsLink(P, B, pos, w);
    var B' := Linked(B, P.l, pos, q, j);
    LinkedIs(P, B, pos, q, j);
    RoomyLinked(P, B, B', k, r, w, j);
    ExactLinked(P, B, k, r, w, q, j);
    OpenedReady(P, B, B', pos, w, j);
  }

  lemma WidthBounds(P: Setup, k: nat, r: nat, w: nat, j: nat)
    requires SetupOk(P) && AtPrefix(P.C.lens, P.c, P.g, k, r, w, P.l) && WidthOk(P.C.lens, P.c, P.g, k, r, w, P.l, j)
    ensures 1 <= j <= 32 && j <= M + 1 && w < P.g && w + Eff(j, P.l) <= M && (Suits(P.C.lens, P.l) && w >= P.l ==> j <= P.l)
  {
    hide Suits, PosOf, Laid, Pow2;
  }

  lemma CodeBeginsLink(P: Setup, B: Built, pos: nat, w: nat)
    requires AtLink(P.C, B, P.l, pos) && w == |B.pre[Top(B)]| + P.l
    ensures w <= M && Low(Pat(pos)[..w]) == pos
  {
    assert w <= M;
    CodeBegins(pos, w);
    hide *;
  }

  lemma LinkedIs(P: Setup, B: Built, pos: nat, q: seq<Huft>, j: nat)
    requires Shape(B, P.l) && |B.u| > 0 && Top(B) < |B.t| && |B.pre[Top(B)]| + P.l <= M
    requires Val(Pat(pos)[|B.pre[Top(B)]|..]) < |B.t[Top(B)]|
    ensures var B' := Linked(B, P.l, pos, q, j);
            |B'.t| == |B.t| + 1 && B'.pre == B.pre + [Pat(pos)[..|B.pre[Top(B)]| + P.l]]
            && B'.log == B.log + [j] && B'.u == B.u + [|B.t|] && Top(B') == |B.t|
  {}

  lemma ExactLinked(P: Setup, B: Built, k: nat, r: nat, w: nat, q: seq<Huft>, j: nat)
    requires CodeExists(P, k, r) && AtLink(P.C, B, P.l, PosOf(P.c, k, r)) && w == |B.pre[Top(B)]| + P.l
    requires Shape(B, P.l) && P.l >= 1 && Exact(P, B, PosOf(P.c, k, r)) && Empty(q) && 1 <= j <= M + 1
    requires AtPrefix(P.C.lens, P.c, P.g, k, r, w, P.l) && WidthOk(P.C.lens, P.c, P.g, k, r, w, P.l, j)
    requires Val(Pat(PosOf(P.c, k, r))[|B.pre[Top(B)]|..]) < |B.t[Top(B)]|
    requires Shape(Linked(B, P.l, PosOf(P.c, k, r), q, j), P.l)
    ensures Exact(P, Linked(B, P.l, PosOf(P.c, k, r), q, j), PosOf(P.c, k, r))
  {
    hide *;
    SetupFacts(P, k, r);
    var pos := PosOf(P.c, k, r);
    LinkFacts(P, B, pos);
    CodeBeginsLink(P, B, pos, w);
    TableFits(P.C.lens, P.c, P.g, k, r, w, P.l, j, Pat(pos)[..w]);
    LinkedWides(P.C.lens, P.l, B.pre, B.log, Top(B), Pat(pos)[..w], j);
    SmallWidth(j);
    LinkedNeat(P.C, B, P.l, pos, q, j);
    LinkedIs(P, B, pos, q, j);
    ExactIntro(P, Linked(B, P.l, pos, q, j), pos);
  }

  lemma SmallWidth(j: nat)
    ensures j <= M + 1 ==> 16 + j < INVALID
  {}

  lemma LinkFacts(P: Setup, B: Built, pos: nat)
    requires AtLink(P.C, B, P.l, pos) && P.l >= 1 && Exact(P, B, pos)
    ensures Shape(B, P.l) && |B.u| > 0 && Top(B) < |B.t| == |B.pre| == |B.log| && |B.pre[Top(B)]| + P.l <= M
    ensures Neat(B, P.l, pos) && Wides(P.C.lens, P.l, B.pre, B.log)
  {
    hide Cells, Closed, StackLink, Neat, Wides, Pat, Val, Pow2;
  }

  lemma ExactIntro(P: Setup, B: Built, pos: nat)
    requires P.l >= 1 && Shape(B, P.l) && Neat(B, P.l, pos) && Wides(P.C.lens, P.l, B.pre, B.log)
    ensures Exact(P, B, pos)
  {}

  lemma OpenedReady(P: Setup, B: Built, B': Built, pos: nat, w: nat, j: nat)
    requires Ready(P, B, pos) && |B.u| > 0 && w == |B.pre[Top(B)]| + P.l
    requires Shape(B', P.l) && Cells(P.C, B', P.l, pos) && Stack(B', P.l, pos) && Roomy(B', P.l, P.c) && P.l >= 1 && Exact(P, B', pos)
    requires B'.log == B.log + [j] && B'.u == B.u + [|B.t|] && |B'.t| == |B.t| + 1
    requires B'.pre[|B.t|] <= Pat(pos) && |B'.pre[|B.t|]| == w
    requires j <= M + 1 && w < P.g && (Suits(P.C.lens, P.l) && w >= P.l ==> j <= P.l)
    ensures Ready(P, B', pos)
  {
    hide Low, Pow2, Laid, PosOf, Suits, Cells, Closed, StackLink, Val, Roomy, Pat, SetupOk, Exact;
  }

  // ---- Storing a code, and leaving the tables it completes

  lemma CodeReady(P: Setup, B: Built, k: nat, r: nat)
    requires CodeExists(P, k, r) && Ready(P, B, PosOf(P.c, k, r)) && |B.u| > 0
    requires |B.pre[Top(B)]| < k <= |B.pre[Top(B)]| + P.l
    ensures AtCode(P.C, B, P.l, PosOf(P.c, k, r), k)
  {
    PosFits(P.C.lens, P.c, P.g, k, r);
    PosAligned(P.c, k, r);
    Pow2Monotone(0, M - k);
    TopCovers(P, B, k, r);
    hide PosOf, Low, Pat, Pow2, Laid, Cells, Stack, Roomy, Suits, Exact;
  }

  lemma LowInjective(s: seq<bool>, t: seq<bool>)
    requires |s| == |t| <= M && Low(s) == Low(t)
    ensures s == t
  {
    var a, b, p := MsbVal(s), MsbVal(t), Pow2(M - |s|);
    MulLt(a, b, p);
    MulLt(b, a, p);
    MsbInjective(s, t);
  }

  /** The entry that the source stores for the q-th code in order; slots never written give junk. */
  function EntryOf(P: Setup, q: nat, bits: nat): Huft
    requires SetupOk(P)
  {
    if q >= |P.C.lens| then Huft(INVALID, bits, 0)
    else if P.v[q].Some? && P.v[q].value < |P.C.lens| then SymbolEntry(P.C, P.v[q].value, bits)
    else Huft(JUNK, bits, 0)
  }

  /** The code of length k and rank r is the one of its symbol, or lies behind all symbols' codes. */
  lemma EntryIsGood(P: Setup, k: nat, r: nat, w: nat)
    requires CodeExists(P, k, r) && w < k
    ensures GoodEntry(P.C, EntryOf(P, Below(P.C.lens, k) + r, k - w), w, Pat(PosOf(P.c, k, r))[..k])
  {
    hide *;
    SetupFacts(P, k, r);
    CodeStart(P, k, r);
    if r < Count(P.C.lens, k) {
      SymbolCode(P, k, r, w);
    } else {
      DummyCode(P, k, r, k - w);
      DummyEntry(P.C, EntryOf(P, Below(P.C.lens, k) + r, k - w), w, Pat(PosOf(P.c, k, r))[..k]);
    }
  }

  /** The code's bits, followed by zeros, stand for its position. */
  lemma CodeStart(P: Setup, k: nat, r: nat)
    requires CodeExists(P, k, r)
    ensures Low(Pat(PosOf(P.c, k, r))[..k]) == PosOf(P.c, k, r)
  {
    hide *;
    SetupFacts(P, k, r);
    CountsOf(P);
    PosFits(P.C.lens, P.c, P.g, k, r);
    PowPositive(M - k);
    PosAligned(P.c, k, r);
    ZerosFrom(PosOf(P.c, k, r), k);
    CodeBegins(PosOf(P.c, k, r), k);
  }

  lemma ZerosFrom(pos: nat, n: nat)
    requires ZeroFrom(pos, n)
    ensures forall i :: n <= i < M ==> !Pat(pos)[i]
  {}

  lemma DummyEntry(C: Code, r: Huft, w: nat, cw: seq<bool>)
    requires |cw| <= M && Low(cw) >= Filled(C.lens, M) && Dead(r)
    ensures GoodEntry(C, r, w, cw)
  {}

  lemma SymbolCode(P: Setup, k: nat, r: nat, w: nat)
    requires CodeExists(P, k, r) && w < k && r < Count(P.C.lens, k)
    requires Low(Pat(PosOf(P.c, k, r))[..k]) == PosOf(P.c, k, r)
    ensures GoodEntry(P.C, EntryOf(P, Below(P.C.lens, k) + r, k - w), w, Pat(PosOf(P.c, k, r))[..k])
  {
    hide PosOf, Pat, Low, Pow2, Laid, Filled, Start, Below, CountTo, Codeword, Oversubscribed;
    var b := P.C.lens;
    CountIs(b, k);
    var n := NthOfLength(b, |b|, k, r);
    SortedAtRange(b, n);
    StartIsPos(P, n, r);
    LowOfCode(b, n);
    var cw := Pat(PosOf(P.c, k, r))[..k];
    LowInjective(Codeword(b, n), cw);
    assert EntryFor(P.C, EntryOf(P, SortedAt(b, n), k - w), w, cw, n);
  }

  lemma StartIsPos(P: Setup, n: nat, r: nat)
    requires SetupOk(P) && n < |P.C.lens| && 1 <= P.C.lens[n] <= P.g && CountTo(P.C.lens, n, P.C.lens[n]) == r
    ensures Start(P.C.lens, n) == PosOf(P.c, P.C.lens[n], r)
  {
    LaidIsFilled(P.C.lens, P.c, P.C.lens[n] - 1);
    StartIs(P.C.lens, n);
    hide Start, Filled, Laid, CountTo, Pow2;
  }

  lemma DummyCode(P: Setup, k: nat, r: nat, bits: nat)
    requires CodeExists(P, k, r) && r >= Count(P.C.lens, k)
    ensures PosOf(P.c, k, r) >= Filled(P.C.lens, M)
    ensures Dead(EntryOf(P, Below(P.C.lens, k) + r, bits))
  {
    var b := P.C.lens;
    LaidIsFilled(b, P.c, k - 1);
    FilledStays(b, P.g, M);
    BelowStays(b, P.g);
    MulLe(Count(b, k), r, Pow2(M - k));
  }

  lemma {:induction false} BelowStaysTo(b: seq<nat>, g: nat, k: nat)
    requires g < k && forall j :: g < j < k ==> Count(b, j) == 0
    ensures Below(b, k) == Below(b, g + 1)
    decreases k
  {
    if g + 1 < k { BelowStaysTo(b, g, k - 1); }
  }

  lemma BelowStays(b: seq<nat>, g: nat)
    requires g <= M && forall j :: g < j <= M ==> Count(b, j) == 0
    ensures Below(b, M + 1) == Below(b, g + 1)
  {
    BelowStaysTo(b, g, M + 1);
  }

  lemma SetupFacts(P: Setup, k: nat, r: nat)
    requires CodeExists(P, k, r)
    ensures SetupOk(P) && |P.c| == M + 1 && 1 <= k <= P.g <= M && r < P.c[k]
  {}

  lemma ReadyFacts(P: Setup, B: Built, pos: nat)
    requires Ready(P, B, pos) && |B.u| > 0
    ensures Shape(B, P.l) && Top(B) < |B.t| == |B.pre| == |B.log| && |B.pre[Top(B)]| < M && SetupOk(P)
    ensures |P.c| == M + 1 && Roomy(B, P.l, P.c) && P.l >= 1 && Exact(P, B, pos)
  {}

  lemma StoreStep(P: Setup, B: Built, k: nat, r: nat, q: seq<Huft>, entry: Huft)
    requires CodeExists(P, k, r) && Ready(P, B, PosOf(P.c, k, r)) && |B.u| > 0
    requires |B.pre[Top(B)]| < k <= |B.pre[Top(B)]| + P.l
    requires entry == EntryOf(P, Below(P.C.lens, k) + r, k - |B.pre[Top(B)]|)
    requires Filling(B.t[Top(B)], q, entry, k - |B.pre[Top(B)]|, Val(Pat(PosOf(P.c, k, r))[|B.pre[Top(B)]|..k]))
    ensures Popping(P, B.(t := B.t[Top(B) := q]), PosOf(P.c, k, r + 1), k)
  {
    hide *;
    SetupFacts(P, k, r);
    ReadyFacts(P, B, PosOf(P.c, k, r));
    var pos := PosOf(P.c, k, r);
    var B' := B.(t := B.t[Top(B) := q]);
    CodeReady(P, B, k, r);
    EntryIsGood(P, k, r, |B.pre[Top(B)]|);
    FillStep(P.C, B, P.l, pos, k, entry, q);
    PosNext(P.c, k, r);
    PosAligned(P.c, k, r + 1);
    CodeInTable(P, B, k, r);
    ExactStored(P, B, q, entry, k, r, pos);
    StoredPopping(P, B, B', pos, PosOf(P.c, k, r + 1), k);
  }

  lemma ExactStored(P: Setup, B: Built, q: seq<Huft>, entry: Huft, k: nat, r: nat, pos: nat)
    requires SetupOk(P) && AtCode(P.C, B, P.l, pos, k) && Exact(P, B, pos) && k <= |B.pre[Top(B)]| + P.l
    requires entry == EntryOf(P, Below(P.C.lens, k) + r, k - |B.pre[Top(B)]|)
    requires var w := |B.pre[Top(B)]|;
             Filling(B.t[Top(B)], q, entry, k - w, Val(Pat(pos)[w..k]))
    requires Shape(B.(t := B.t[Top(B) := q]), P.l)
    ensures Exact(P, B.(t := B.t[Top(B) := q]), pos + Pow2(M - k))
  {
    hide *;
    AtCodeFacts(P.C, B, P.l, pos, k);
    EntryPlain(P, Below(P.C.lens, k) + r, k - |B.pre[Top(B)]|);
    ExactParts(P, B, pos);
    StoredNeat(P.C, B, P.l, pos, k, entry, q);
    ExactIntro(P, B.(t := B.t[Top(B) := q]), pos + Pow2(M - k));
  }

  lemma ExactParts(P: Setup, B: Built, pos: nat)
    requires P.l >= 1 && Shape(B, P.l) && Exact(P, B, pos)
    ensures Neat(B, P.l, pos) && Wides(P.C.lens, P.l, B.pre, B.log)
  {}

  lemma EntryPlain(P: Setup, at: nat, bits: nat)
    requires SetupOk(P)
    ensures var r := EntryOf(P, at, bits); !IsLink(r) && r.b == bits
  {
    hide Counts, Sorted;
  }

  lemma StoredPopping(P: Setup, B: Built, B': Built, pos: nat, pos': nat, k: nat)
    requires Ready(P, B, pos) && |B.u| > 0 && B'.u == B.u && B'.pre == B.pre && B'.log == B.log
    requires Shape(B', P.l) && Cells(P.C, B', P.l, pos') && Stack(B', P.l, pos') && P.l >= 1 && Exact(P, B', pos')
    requires |B.pre[Top(B)]| < k <= |B.pre[Top(B)]| + P.l && ZeroFrom(pos', k)
    requires Low(B.pre[Top(B)]) < pos' <= End(B.pre[Top(B)]) && pos' <= Pow2(M)
    ensures Popping(P, B', pos', k)
  {
    hide Pat, Low, Pow2, Laid, Cells, Closed, StackLink, SetupOk, Suits, Exact;
  }

  lemma CodeInTable(P: Setup, B: Built, k: nat, r: nat)
    requires CodeExists(P, k, r) && AtCode(P.C, B, P.l, PosOf(P.c, k, r), k)
    ensures var pi, pos := B.pre[Top(B)], PosOf(P.c, k, r);
            Low(pi) <= pos < pos + Pow2(M - k) <= End(pi) && pos + Pow2(M - k) <= Pow2(M)
  {
    var pi, pos := B.pre[Top(B)], PosOf(P.c, k, r);
    CodeBegins(pos, k);
    hide PosOf, Pat, Low, Pow2, Laid, Cells, Stack;
    PrefixTake(pi, pi, Pat(pos), k);
    StretchesNest(pi, Pat(pos)[..k]);
  }

  /** The top table's prefix is not that of pos: the table ends at pos, and so may the one below. */
  lemma PopOne(P: Setup, B: Built, pos: nat, k: nat)
    requires Popping(P, B, pos, k) && !(B.pre[Top(B)] <= Pat(pos))
    ensures |B.u| > 1 && Popping(P, B.(u := B.u[..|B.u| - 1]), pos, k)
    ensures B.u[|B.u| - 2] < |B.t| && |B.pre[B.u[|B.u| - 2]]| + P.l == |B.pre[Top(B)]|
  {
    hide *;
    PopBelow(P, B, pos, k);
    var pi, below := B.pre[Top(B)], B.pre[B.u[|B.u| - 2]];
    EndsHere(pi, pos);
    EndAligned(pi, pos);
    PopStep(P.C, B, P.l, pos);
    StretchesNest(below, pi);
    LowBelow(below, pi, pos);
    ExactPopped(P, B, pos, k);
    Popped(P, B, pos, k);
  }

  lemma PopBelow(P: Setup, B: Built, pos: nat, k: nat)
    requires Popping(P, B, pos, k) && !(B.pre[Top(B)] <= Pat(pos))
    ensures |B.u| > 1 && B.u[|B.u| - 2] < |B.t| && Top(B) < |B.t| == |B.pre|
    ensures B.pre[B.u[|B.u| - 2]] <= B.pre[Top(B)] && |B.pre[B.u[|B.u| - 2]]| + P.l == |B.pre[Top(B)]|
    ensures Top(B.(u := B.u[..|B.u| - 1])) == B.u[|B.u| - 2]
    ensures Shape(B, P.l) && Cells(P.C, B, P.l, pos) && Stack(B, P.l, pos) && |B.pre[Top(B)]| < k && |B.pre[Top(B)]| <= M
    ensures Low(B.pre[Top(B)]) < pos <= End(B.pre[Top(B)]) && pos <= Pow2(M)
  {
    hide Pat, Low, Pow2, Cells, Closed, End, SetupOk, Roomy, Exact, Suits;
    OneTable(P, B, pos, k);
    assert StackLink(B, P.l, |B.u| - 2);
  }

  lemma OneTable(P: Setup, B: Built, pos: nat, k: nat)
    requires Popping(P, B, pos, k)
    ensures |B.u| == 1 ==> B.pre[Top(B)] <= Pat(pos)
  {
    hide Pat, Low, Pow2, Cells, Closed, End, SetupOk, Roomy, Exact, Suits, StackLink;
  }

  lemma Popped(P: Setup, B: Built, pos: nat, k: nat)
    requires Popping(P, B, pos, k) && |B.u| > 1
    requires var B' := B.(u := B.u[..|B.u| - 1]);
             Shape(B', P.l) && Cells(P.C, B', P.l, pos) && Stack(B', P.l, pos) && P.l >= 1 && Exact(P, B', pos)
             && Top(B') < |B.t| && |B.pre[Top(B')]| + P.l == |B.pre[Top(B)]|
             && Low(B.pre[Top(B')]) < pos <= End(B.pre[Top(B')]) && ZeroFrom(pos, |B.pre[Top(B)]|)
    ensures Popping(P, B.(u := B.u[..|B.u| - 1]), pos, k)
  {
    hide Pat, Low, Pow2, Cells, Stack, End, SetupOk, Suits, ZeroFrom, Exact;
  }

  lemma ExactPopped(P: Setup, B: Built, pos: nat, k: nat)
    requires Popping(P, B, pos, k) && Shape(B.(u := B.u[..|B.u| - 1]), P.l)
    ensures P.l >= 1 && Exact(P, B.(u := B.u[..|B.u| - 1]), pos)
  {
    var B' := B.(u := B.u[..|B.u| - 1]);
    forall i: nat, idx: nat | i < |B'.t| && idx < |B'.t[i]| && Low(Cell(B', P.l, i, idx)) >= pos
      ensures HuftExactness.IsBlank(B'.t[i][idx])
    {
      assert Cell(B', P.l, i, idx) == Cell(B, P.l, i, idx);
    }
    hide Entries, Repeats, Wides, Low, Pow2, ToBits;
  }

  lemma EndsHere(s: seq<bool>, pos: nat)
    requires |s| <= M && Low(s) < pos <= End(s) && pos <= Pow2(M) && !(s <= Pat(pos))
    ensures pos == End(s)
  {
    if pos < Pow2(M) {
      PatInside(s, pos);
    } else {
      EndBelow(s);
    }
  }

  lemma EndAligned(s: seq<bool>, pos: nat)
    requires |s| <= M && pos == End(s)
    ensures ZeroFrom(pos, |s|)
  {
    Distribute(MsbVal(s), 1, Pow2(M - |s|));
    MsbZeros(MsbVal(s) + 1, |s|, M - |s|);
    hide MsbBits, Pow2, MsbVal;
  }

  lemma LowBelow(s: seq<bool>, t: seq<bool>, pos: nat)
    requires s <= t && |t| <= M && Low(t) < pos <= End(t)
    ensures Low(s) < pos <= End(s)
  {
    StretchesNest(s, t);
  }

  lemma PopDone(P: Setup, B: Built, pos: nat, k: nat)
    requires Popping(P, B, pos, k) && (pos == Pow2(M) || B.pre[Top(B)] <= Pat(pos))
    ensures Ready(P, B, pos)
  {}

  /** The tables decode the code exactly when its lengths are straight; they are when they suit l. */
  lemma Finished(P: Setup, B: Built)
    requires Ready(P, B, Pow2(M))
    ensures CodeOk(P.C) && P.l >= 1
    ensures Decodes(P.C, B.t, P.l) <==> Straight(P.C.lens, P.l)
    ensures Suits(P.C.lens, P.l) ==> Decodes(P.C, B.t, P.l)
    ensures Misread(P.C, B.t, P.l)
  {
    hide *;
    RootFacts(P, B);
    SoundFacts(P.C, B, P.l);
    if Straight(P.C.lens, P.l) {
      StraightNoHits(P.C, B, P.l);
      FoundAll(P, B);
    } else {
      var n, w, t := NotStraight(P.C.lens, P.l);
      var S := FlagMisses(P.C, B, P.l, n, w, t);
      NotDecodes(P.C, B.t, P.l, S);
    }
    if Narrow(B, P.l) {
      NarrowNoHits(P.C, B, P.l);
      FoundAll(P, B);
    }
    forall n: nat, w: nat, S: seq<bool> | MisreadAt(P.C.lens, n, w, P.l, S)
      ensures !Finds(P.C, S, 0, Walk(B.t, 0, P.l, S, 0))
    {
      MisreadParts(P.C.lens, n, w, P.l, S);
      CodeMisses(P.C, B, P.l, n, w, S);
    }
    MisreadIntro(P.C, B.t, P.l);
  }

  lemma FoundAll(P: Setup, B: Built)
    requires Sound(P.C, B, P.l) && |B.pre| == |B.log| && NoHits(P.C, B, P.l)
    ensures CodeOk(P.C) && Decodes(P.C, B.t, P.l)
  {
    hide *;
    SoundFacts(P.C, B, P.l);
    RootIndex(B, P.l);
    forall S: seq<bool>, p: nat | p + M <= |S|
      ensures Finds(P.C, S, p, Walk(B.t, 0, P.l, S, p))
    {
      WalkFound(P.C, B, P.l, S, p, 0);
    }
    DecodesIntro(P.C, B.t, P.l);
  }

  /** S starts with the code of n, which is unread at its bit w + l. */
  ghost predicate MisreadAt(b: seq<nat>, n: nat, w: nat, l: nat, S: seq<bool>) {
    Unread(b, n, w, w + l, l) && CodeAt(b, S, 0, n) && |S| >= M
  }

  lemma MisreadParts(b: seq<nat>, n: nat, w: nat, l: nat, S: seq<bool>)
    requires MisreadAt(b, n, w, l, S)
    ensures Unread(b, n, w, w + l, l) && CodeAt(b, S, 0, n) && |S| >= M
  {}

  /** The tables do not decode what starts with a code that is unread just beyond the bits that are linked. */
  ghost predicate Misread(C: Code, t: seq<seq<Huft>>, bits: nat)
    requires CodeOk(C)
  {
    forall n: nat, w: nat, S: seq<bool> :: MisreadAt(C.lens, n, w, bits, S) ==> !Finds(C, S, 0, Walk(t, 0, bits, S, 0))
  }

  lemma MisreadIntro(C: Code, t: seq<seq<Huft>>, bits: nat)
    requires CodeOk(C)
    requires forall n: nat, w: nat, S: seq<bool> :: MisreadAt(C.lens, n, w, bits, S) ==> !Finds(C, S, 0, Walk(t, 0, bits, S, 0))
    ensures Misread(C, t, bits)
  {}

  /** Walking the tables t, the first of which is indexed by `bits` bits, decodes the code of C. */
  ghost predicate Decodes(C: Code, t: seq<seq<Huft>>, bits: nat)
    requires CodeOk(C)
  {
    forall S: seq<bool>, p: nat :: p + M <= |S| ==> Finds(C, S, p, Walk(t, 0, bits, S, p))
  }

  lemma DecodesIntro(C: Code, t: seq<seq<Huft>>, bits: nat)
    requires CodeOk(C) && forall S: seq<bool>, p: nat :: p + M <= |S| ==> Finds(C, S, p, Walk(t, 0, bits, S, p))
    ensures Decodes(C, t, bits)
  {}

  lemma NotDecodes(C: Code, t: seq<seq<Huft>>, bits: nat, S: seq<bool>)
    requires CodeOk(C) && |S| >= M && !Finds(C, S, 0, Walk(t, 0, bits, S, 0))
    ensures !Decodes(C, t, bits)
  {}

  lemma RootFacts(P: Setup, B: Built)
    requires Ready(P, B, Pow2(M))
    ensures P.l >= 1 && Sound(P.C, B, P.l) && |B.pre| == |B.log| && Wides(P.C.lens, P.l, B.pre, B.log)
    ensures Suits(P.C.lens, P.l) ==> Narrow(B, P.l)
  {
    RootNonempty(P, B);
    hide Cells, Closed, StackLink, Roomy, Entries, Repeats, Blank, Wides, Suits, Pow2, Oversubscribed;
  }

  lemma RootNonempty(P: Setup, B: Built)
    requires Ready(P, B, Pow2(M))
    ensures |B.u| > 0
  {}
}
