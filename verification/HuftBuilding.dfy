/** huft_build: from code lengths to multi-level lookup tables. */
module HuftBuilding {
  import opened Options
  import opened Bits
  import opened PrefixCodes
  import opened HuftTables
  import opened HuftSteps
  import opened HuftWalk
  import opened HuftLoop
  import opened HuftCounting
  import opened HuftSizing
  import opened HuftExactness
  import opened HuftState

  /** The loop's variables u, x, h, w and i against the tables: the top table and the code i at pos. */
  ghost predicate Tracks(l: nat, B: Built, t: seq<seq<Huft>>, u: seq<nat>, x: seq<nat>, h: int, w: int, i: nat, pos: nat) {
    |B.t| == |B.pre| && B.t == t && |u| == M && |x| == M + 1 && -1 <= h < M && B.u == u[..h + 1]
    && i == Val(Pat(pos))
    && (h < 0 ==> w + l == 0)
    && (h >= 0 ==> Top(B) < |B.t| && w == |B.pre[Top(B)]|)
    && (forall e :: 0 <= e <= h ==> B.u[e] < |B.t| && x[e] == Val(B.pre[B.u[e]]) && e <= |B.pre[B.u[e]]|)
  }

  ghost predicate AtTop(P: Setup, B: Built, t: seq<seq<Huft>>, u: seq<nat>, x: seq<nat>, h: int, w: int, i: nat, pos: nat) {
    Ready(P, B, pos) && Tracks(P.l, B, t, u, x, h, w, i, pos)
  }

  ghost predicate AtPop(P: Setup, B: Built, t: seq<seq<Huft>>, u: seq<nat>, x: seq<nat>, h: int, w: int, i: nat, pos: nat, k: nat) {
    Popping(P, B, pos, k) && Tracks(P.l, B, t, u, x, h, w, i, pos) && h >= 0
  }

  lemma IndexBits(i: nat, pos: nat, w: nat)
    requires i == Val(Pat(pos)) && w <= M
    ensures Shr(i, w) == Val(Pat(pos)[w..]) && LowBits(i, w) == Val(Pat(pos)[..w])
    ensures And(i, Pow2(w) - 1) == LowBits(i, w)
  {
    ValSplit(Pat(pos), w);
    ShrDiv(i, w);
    AndMask(i, w);
  }

  lemma OpenFirstStep(P: Setup, B: Built, t: seq<seq<Huft>>, u: seq<nat>, x: seq<nat>, w: int, i: nat,
                      k: nat, r: nat, j: nat, q: seq<Huft>)
    requires CodeExists(P, k, r) && AtTop(P, B, t, u, x, -1, w, i, PosOf(P.c, k, r)) && x[0] == 0
    requires AtPrefix(P.C.lens, P.c, P.g, k, r, 0, P.l) && WidthOk(P.C.lens, P.c, P.g, k, r, 0, P.l, j)
    requires |q| == Pow2(j) && Empty(q)
    ensures t == [] && AtTop(P, Built([q], [[]], [j], [0]), [q], u[0 := 0], x, 0, 0, i, PosOf(P.c, k, r))
  {
    hide PosOf, Pat, Low, Pow2, Laid, Suits, WidthOk, AtPrefix;
    OpenFirst(P, B, k, r, j, q);
    assert u[0 := 0][..1] == [0];
    hide Cells, Stack, Roomy;
  }

  lemma OpenNextStep(P: Setup, B: Built, t: seq<seq<Huft>>, u: seq<nat>, x: seq<nat>, h: int, w: int, i: nat,
                     k: nat, r: nat, pos: nat, j: nat, q: seq<Huft>)
    requires CodeExists(P, k, r) && pos == PosOf(P.c, k, r) && AtTop(P, B, t, u, x, h, w, i, pos) && 0 <= h && k > w + P.l
    requires AtPrefix(P.C.lens, P.c, P.g, k, r, w + P.l, P.l) && WidthOk(P.C.lens, P.c, P.g, k, r, w + P.l, P.l, j)
    requires |q| == Pow2(j) && Empty(q)
    ensures h + 1 < M && u[h] < |t| && Shr(i, w) < |t[u[h]]| && Shape(B, P.l)
            && |B.u| > 0 && Top(B) == u[h] && Top(B) < |B.t|
            && |B.pre[Top(B)]| + P.l <= M && Val(Pat(pos)[|B.pre[Top(B)]|..]) < |B.t[Top(B)]|
    ensures AtTop(P, Linked(B, P.l, pos, q, j),
                  (t + [q])[u[h] := t[u[h]][Shr(i, w) := Huft(16 + j, P.l, |t|)]],
                  u[h + 1 := |t|], x[h + 1 := i], h + 1, w + P.l, i, pos)
  {
    hide *;
    SetupFacts(P, k, r);
    TopFacts(P, B, t, u, x, h, w, i, pos);
    IndexBits(i, pos, w);
    NextPrefix(P, B, k, r);
    OpenNext(P, B, k, r, j, q);
    LinkIndex(P.C, B, P.l, pos);
    WholeCode(pos, i, w + P.l, P, k, r, B);
    var B' := Linked(B, P.l, pos, q, j);
    var t' := (t + [q])[u[h] := t[u[h]][Shr(i, w) := Huft(16 + j, P.l, |t|)]];
    LinkedParts(B, P.l, pos, q, j, t');
    TracksNext(P.l, B, B', t, t', u, x, h, w, i, pos);
    AtTopIntro(P, B', t', u[h + 1 := |t|], x[h + 1 := i], h + 1, w + P.l, i, pos);
  }

  lemma AtTopIntro(P: Setup, B: Built, t: seq<seq<Huft>>, u: seq<nat>, x: seq<nat>, h: int, w: int, i: nat, pos: nat)
    requires Ready(P, B, pos) && Tracks(P.l, B, t, u, x, h, w, i, pos)
    ensures AtTop(P, B, t, u, x, h, w, i, pos)
  {}

  lemma TopFacts(P: Setup, B: Built, t: seq<seq<Huft>>, u: seq<nat>, x: seq<nat>, h: int, w: int, i: nat, pos: nat)
    requires AtTop(P, B, t, u, x, h, w, i, pos) && 0 <= h
    ensures Ready(P, B, pos) && Tracks(P.l, B, t, u, x, h, w, i, pos) && SetupOk(P) && Shape(B, P.l)
    ensures |B.u| == h + 1 > 0 && h < M && |u| == M && |x| == M + 1 && B.t == t && i == Val(Pat(pos))
    ensures Top(B) == u[h] < |t| == |B.pre| == |B.log| && 0 <= h <= w == |B.pre[Top(B)]| < M
  {
    hide Cells, StackLink, Closed, Roomy, Suits, Pow2, Pat, Val;
  }

  /** All the code's bits before zeros: the saved pattern x[h]. */
  lemma WholeCode(pos: nat, i: nat, n: nat, P: Setup, k: nat, r: nat, B: Built)
    requires AtLink(P.C, B, P.l, pos) && n == |B.pre[Top(B)]| + P.l && i == Val(Pat(pos))
    ensures n <= M && i == Val(Pat(pos)[..n])
  {
    assert n <= M;
    ValTail(Pat(pos), 0, n);
    assert Pat(pos)[0..] == Pat(pos) && Pat(pos)[0..n] == Pat(pos)[..n];
    hide *;
  }

  lemma LinkedParts(B: Built, l: nat, pos: nat, q: seq<Huft>, j: nat, t': seq<seq<Huft>>)
    requires Shape(B, l) && |B.u| > 0 && Top(B) < |B.t| && |B.pre[Top(B)]| + l <= M
    requires Val(Pat(pos)[|B.pre[Top(B)]|..]) < |B.t[Top(B)]|
    requires t' == (B.t + [q])[Top(B) := B.t[Top(B)][Val(Pat(pos)[|B.pre[Top(B)]|..]) := Huft(16 + j, l, |B.t|)]]
    ensures var B' := Linked(B, l, pos, q, j);
            B'.t == t' && B'.u == B.u + [|B.t|] && B'.pre == B.pre + [Pat(pos)[..|B.pre[Top(B)]| + l]]
  {}

  lemma TracksNext(l: nat, B: Built, B': Built, t: seq<seq<Huft>>, t': seq<seq<Huft>>, u: seq<nat>, x: seq<nat>,
                   h: int, w: int, i: nat, pos: nat)
    requires Tracks(l, B, t, u, x, h, w, i, pos) && 0 <= h && h + 1 < M && w + l <= M && l >= 1
    requires B'.t == t' && |t'| == |t| + 1 && B'.u == B.u + [|t|] && B'.pre == B.pre + [Pat(pos)[..w + l]]
    requires i == Val(Pat(pos)[..w + l])
    ensures Tracks(l, B', t', u[h + 1 := |t|], x[h + 1 := i], h + 1, w + l, i, pos)
  {
    hide Val, Pat;
  }

  lemma StoreCodeStep(P: Setup, B: Built, t: seq<seq<Huft>>, u: seq<nat>, x: seq<nat>, h: int, w: int, i: nat,
                      k: nat, r: nat, q: seq<Huft>, i': nat)
    requires CodeExists(P, k, r) && AtTop(P, B, t, u, x, h, w, i, PosOf(P.c, k, r)) && 0 <= h && w < k <= w + P.l
    requires u[h] < |t| && |B.u| > 0 && Top(B) < |B.t|
    requires Filling(t[u[h]], q, EntryOf(P, Below(P.C.lens, k) + r, k - w), k - w, Shr(i, w))
    requires i' == Val(Pat(PosOf(P.c, k, r + 1)))
    ensures AtPop(P, B.(t := B.t[Top(B) := q]), t[u[h] := q], u, x, h, w, i', PosOf(P.c, k, r + 1), k)
  {
    hide *;
    SetupFacts(P, k, r);
    var pos := PosOf(P.c, k, r);
    TopFacts(P, B, t, u, x, h, w, i, pos);
    IndexBits(i, pos, w);
    CodeReady(P, B, k, r);
    CodeTail(P, B, pos, k, w);
    StoreStep(P, B, k, r, q, EntryOf(P, Below(P.C.lens, k) + r, k - w));
    var B' := B.(t := B.t[Top(B) := q]);
    TracksStored(P.l, B, B', t, t[u[h] := q], u, x, h, w, i, i', pos, PosOf(P.c, k, r + 1));
    AtPopIntro(P, B', t[u[h] := q], u, x, h, w, i', PosOf(P.c, k, r + 1), k);
  }

  lemma AtPopIntro(P: Setup, B: Built, t: seq<seq<Huft>>, u: seq<nat>, x: seq<nat>, h: int, w: int, i: nat, pos: nat, k: nat)
    requires Popping(P, B, pos, k) && Tracks(P.l, B, t, u, x, h, w, i, pos) && h >= 0
    ensures AtPop(P, B, t, u, x, h, w, i, pos, k)
  {}

  lemma CodeTail(P: Setup, B: Built, pos: nat, k: nat, w: nat)
    requires AtCode(P.C, B, P.l, pos, k) && w <= k
    ensures Val(Pat(pos)[w..]) == Val(Pat(pos)[w..k]) < Pow2(k - w)
  {
    ValTail(Pat(pos), w, k - w);
    hide *;
  }

  lemma TracksStored(l: nat, B: Built, B': Built, t: seq<seq<Huft>>, t': seq<seq<Huft>>, u: seq<nat>, x: seq<nat>,
                     h: int, w: int, i: nat, i': nat, pos: nat, pos': nat)
    requires Tracks(l, B, t, u, x, h, w, i, pos)
    requires B'.t == t' && |t'| == |t| && B'.u == B.u && B'.pre == B.pre && i' == Val(Pat(pos'))
    ensures Tracks(l, B', t', u, x, h, w, i', pos')
  {
    hide Val, Pat;
  }

  lemma PopFacts(P: Setup, B: Built, t: seq<seq<Huft>>, u: seq<nat>, x: seq<nat>, h: int, w: int, i: nat, pos: nat, k: nat)
    requires AtPop(P, B, t, u, x, h, w, i, pos, k)
    ensures Popping(P, B, pos, k) && Tracks(P.l, B, t, u, x, h, w, i, pos) && h >= 0 && i == Val(Pat(pos))
    ensures |B.u| == h + 1 && Top(B) < |B.t| == |B.pre| && 0 <= w == |B.pre[Top(B)]| < k && w <= M && |x| == M + 1 && h < M
    ensures x[h] == Val(B.pre[Top(B)]) && P.l >= 1 && (h > 0 ==> B.u[h - 1] < |B.t|)
  {
    hide Cells, StackLink, Closed, Roomy, Suits, Pow2, Pat, Val;
  }

  /** The pattern saved in x[h] is that of i exactly when the top table's prefix is that of pos. */
  lemma SavedPattern(pre: seq<bool>, i: nat, pos: nat, x: nat)
    requires |pre| <= M && i == Val(Pat(pos)) && x == Val(pre)
    ensures And(i, Pow2(|pre|) - 1) == x <==> pre <= Pat(pos)
  {
    IndexBits(i, pos, |pre|);
    hide Val, Pat, LowBits, And;
    if Val(pre) == Val(Pat(pos)[..|pre|]) {
      ValInjective(pre, Pat(pos)[..|pre|]);
    }
    if pre <= Pat(pos) {
      assert pre == Pat(pos)[..|pre|];
    }
  }

  lemma PopTableStep(P: Setup, B: Built, t: seq<seq<Huft>>, u: seq<nat>, x: seq<nat>, h: int, w: int, i: nat, pos: nat, k: nat)
    requires AtPop(P, B, t, u, x, h, w, i, pos, k)
    ensures 0 <= w <= M && 0 <= h < |x|
    ensures And(i, Pow2(w) - 1) != x[h]
            ==> |B.u| > 0 && h > 0 && k > w && AtPop(P, B.(u := B.u[..|B.u| - 1]), t, u, x, h - 1, w - P.l, i, pos, k)
    ensures And(i, Pow2(w) - 1) == x[h] ==> AtTop(P, B, t, u, x, h, w, i, pos)
  {
    hide *;
    PopFacts(P, B, t, u, x, h, w, i, pos, k);
    SavedPattern(B.pre[Top(B)], i, pos, x[h]);
    if And(i, Pow2(w) - 1) != x[h] {
      PopOne(P, B, pos, k);
      var B' := B.(u := B.u[..|B.u| - 1]);
      TracksPopped(P.l, B, t, u, x, h, w, i, pos);
      AtPopIntro(P, B', t, u, x, h - 1, w - P.l, i, pos, k);
    } else {
      PopDone(P, B, pos, k);
      AtTopIntro(P, B, t, u, x, h, w, i, pos);
    }
  }

  lemma TracksPopped(l: nat, B: Built, t: seq<seq<Huft>>, u: seq<nat>, x: seq<nat>, h: int, w: int, i: nat, pos: nat)
    requires Tracks(l, B, t, u, x, h, w, i, pos) && 0 < h && |B.u| == h + 1 && l >= 1
    requires B.u[h - 1] < |B.t| && |B.pre[B.u[h - 1]]| + l == w
    ensures Tracks(l, B.(u := B.u[..h]), t, u, x, h - 1, w - l, i, pos)
  {
    hide Val, Pat;
    assert u[..h + 1][..h] == u[..h];
  }

  function Min(a: nat, b: nat): nat { if a <= b then a else b }

  lemma StartState(P: Setup, u: seq<nat>, x: seq<nat>)
    requires SetupOk(P) && |u| == M && |x| == M + 1
    ensures AtTop(P, Built([], [], [], []), [], u, x, -1, -(P.l as int), 0, 0)
  {
    PatZero();
    PatZeroVal();
    hide Pat, Val, Pow2, Counts, Sorted, CodeOk;
  }

  lemma PatZeroVal()
    ensures Val(Pat(0)) == 0
  {
    PatZero();
    assert Pat(0) == Zeros(M);
    ValZeros(M);
    hide Pat, Val;
  }

  lemma NextLength(P: Setup, k: nat)
    requires SetupOk(P) && 1 <= k <= P.g
    ensures PosOf(P.c, k, P.c[k]) == Laid(P.c, k) && PosOf(P.c, k, 0) == Laid(P.c, k - 1)
    ensures k < P.g ==> P.c[k] == Count(P.C.lens, k)
    ensures Laid(P.c, P.g) == Pow2(M)
  {
    PosLast(P.c, k);
  }

  lemma {:induction false} NoShortCodes(P: Setup, k: nat)
    requires SetupOk(P) && 1 <= k <= P.g && forall j :: 1 <= j < k ==> P.c[j] == 0
    ensures Laid(P.c, k - 1) == 0 && Below(P.C.lens, k) == 0
  {
    if k > 1 {
      NoShortCodes(P, k - 1);
      ZeroTimes(Pow2(M - (k - 1)));
    }
  }

  /** The code at hand and the one after it, for the bit-reversed counter. */
  lemma CodeSpan(P: Setup, k: nat, r: nat)
    requires CodeExists(P, k, r)
    ensures PosOf(P.c, k, r) + Pow2(M - k) <= Pow2(M) && PosOf(P.c, k, r + 1) == PosOf(P.c, k, r) + Pow2(M - k)
  {
    PosFits(P.C.lens, P.c, P.g, k, r);
    PosNext(P.c, k, r);
  }

  /** The code's index in the top table, within the pattern size. */
  lemma CodeIndex(P: Setup, B: Built, t: seq<seq<Huft>>, u: seq<nat>, x: seq<nat>, h: int, w: int, i: nat, k: nat, r: nat)
    requires CodeExists(P, k, r) && AtTop(P, B, t, u, x, h, w, i, PosOf(P.c, k, r)) && 0 <= h && w < k <= w + P.l
    ensures 0 <= w <= M && Shr(i, w) < Pow2(k - w) && |u| == M && h < M && u[h] < |t| && |B.u| > 0
            && Top(B) == u[h] && Top(B) < |B.t| && B.t == t
            && i == Val(Pat(PosOf(P.c, k, r)))
  {
    hide *;
    SetupFacts(P, k, r);
    var pos := PosOf(P.c, k, r);
    TopFacts(P, B, t, u, x, h, w, i, pos);
    IndexBits(i, pos, w);
    CodeReady(P, B, k, r);
    CodeTail(P, B, pos, k, w);
  }

  /** The top of the stack is above every code still to come. */
  lemma WidthNow(P: Setup, B: Built, t: seq<seq<Huft>>, u: seq<nat>, x: seq<nat>, h: int, w: int, i: nat, k: nat, r: nat)
    requires CodeExists(P, k, r) && AtTop(P, B, t, u, x, h, w, i, PosOf(P.c, k, r)) && k > w + P.l
    ensures 0 <= w + P.l && AtPrefix(P.C.lens, P.c, P.g, k, r, w + P.l, P.l) && -1 <= h < M && (h < 0 ==> w + P.l == 0)
  {
    hide *;
    SetupFacts(P, k, r);
    if h < 0 {
      NoTables(P, B, t, u, x, h, w, i, PosOf(P.c, k, r));
      FirstPrefix(P, B, k, r);
    } else {
      TopFacts(P, B, t, u, x, h, w, i, PosOf(P.c, k, r));
      NextPrefix(P, B, k, r);
    }
  }

  lemma NoTables(P: Setup, B: Built, t: seq<seq<Huft>>, u: seq<nat>, x: seq<nat>, h: int, w: int, i: nat, pos: nat)
    requires AtTop(P, B, t, u, x, h, w, i, pos) && h < 0
    ensures Ready(P, B, pos) && |B.u| == 0 && w + P.l == 0 && h == -1
  {}

  /** The variables of the main loop: tables, table stack, saved patterns, level h with the w bits before
      its table, reversed code i, and the current table q with its z entries. */
  datatype Vars = Vars(t: seq<seq<Huft>>, u: seq<nat>, x: seq<nat>, h: int, w: int, i: nat, q: nat, z: nat)

  /** Between codes, when the next one has length k. */
  ghost predicate Holds(P: Setup, B: Built, V: Vars, pos: nat, k: nat) {
    AtTop(P, B, V.t, V.u, V.x, V.h, V.w, V.i, pos) && Current(P, V, k)
  }

  /** q is the table on top unless the next code needs a new one. */
  ghost predicate Current(P: Setup, V: Vars, k: nat) {
    -1 <= V.h < M && |V.u| == M && |V.x| == M + 1
    && (if V.h < 0 then V.x[0] == 0
        else 0 <= V.w < k && (k <= V.w + P.l ==> V.q == V.u[V.h] && V.q < |V.t| && V.z == |V.t[V.q]|))
  }

  /** Make tables up to the level of a code of length k. */
  method OpenTables(P: Setup, V0: Vars, k: nat, a: nat, ghost B0: Built, ghost r: nat) returns (V: Vars, ghost B: Built)
    requires CodeExists(P, k, r) && a + 1 == P.c[k] - r
    requires Holds(P, B0, V0, PosOf(P.c, k, r), k)
    ensures Holds(P, B, V, PosOf(P.c, k, r), k) && V.w < k <= V.w + P.l && V.h >= 0
  {
    hide *;
    V, B := V0, B0;
    SetupFacts(P, k, r);
    VarsFacts(P, B, V, PosOf(P.c, k, r), k);
    while k > V.w + P.l
      invariant Holds(P, B, V, PosOf(P.c, k, r), k)
      decreases k - V.w
    {
      VarsFacts(P, B, V, PosOf(P.c, k, r), k);
      WidthNow(P, B, V.t, V.u, V.x, V.h, V.w, V.i, k, r);
      var j := TableBits(P.c, k, V.w + P.l, P.g, P.l, a, P.C.lens, r);
      var z := Pow2(j);
      var table := seq(z, _ => Huft(JUNK, 0, 0));
      IsEmpty(table);
      if V.h < 0 {
        OpenFirstStep(P, B, V.t, V.u, V.x, V.w, V.i, k, r, j, table);
        B := Built([table], [[]], [j], [0]);
        V := Vars([table], V.u[0 := 0], V.x, 0, 0, V.i, 0, z);
        OpenedHolds(P, B, V, PosOf(P.c, k, r), k);
      } else {
        OpenNextStep(P, B, V.t, V.u, V.x, V.h, V.w, V.i, k, r, PosOf(P.c, k, r), j, table);
        B := Linked(B, P.l, PosOf(P.c, k, r), table, j);
        // push the new table, link it from the one below, and save the pattern for backing up
        var q := |V.t|;
        var t := (V.t + [table])[V.u[V.h] := V.t[V.u[V.h]][Shr(V.i, V.w) := Huft(16 + j, P.l, q)]];
        V := Vars(t, V.u[V.h + 1 := q], V.x[V.h + 1 := V.i], V.h + 1, V.w + P.l, V.i, q, z);
        OpenedHolds(P, B, V, PosOf(P.c, k, r), k);
      }
    }
    TopOpen(P, B, V, PosOf(P.c, k, r), k);
  }

  lemma IsEmpty(q: seq<Huft>)
    requires forall idx :: 0 <= idx < |q| ==> q[idx] == Huft(JUNK, 0, 0)
    ensures Empty(q)
  {}

  lemma VarsFacts(P: Setup, B: Built, V: Vars, pos: nat, k: nat)
    requires Holds(P, B, V, pos, k)
    ensures AtTop(P, B, V.t, V.u, V.x, V.h, V.w, V.i, pos)
    ensures -1 <= V.h < M && |V.u| == M && |V.x| == M + 1 && P.l >= 1
    ensures if V.h < 0 then V.x[0] == 0 && V.w + P.l == 0
            else 0 <= V.w < k && (k <= V.w + P.l ==> V.q == V.u[V.h] && V.q < |V.t| && V.z == |V.t[V.q]|)
  {}

  lemma OpenedHolds(P: Setup, B: Built, V: Vars, pos: nat, k: nat)
    requires AtTop(P, B, V.t, V.u, V.x, V.h, V.w, V.i, pos) && |V.u| == M && |V.x| == M + 1
    requires 0 <= V.h < M && 0 <= V.w < k && V.q == V.u[V.h] && V.q < |V.t| && V.z == |V.t[V.q]|
    ensures Holds(P, B, V, pos, k)
  {}

  /** Once a code of length k fits, there is a table: k is not 0. */
  lemma TopOpen(P: Setup, B: Built, V: Vars, pos: nat, k: nat)
    requires Holds(P, B, V, pos, k) && k >= 1 && k <= V.w + P.l
    ensures V.h >= 0 && V.w < k
  {}

  /** The entry for the next value, as the source picks it. */
  method NextEntry(P: Setup, p: nat, bits: nat, ghost at: nat) returns (entry: Huft, p': nat)
    requires SetupOk(P) && p == Min(at, |P.C.lens|)
    ensures entry == EntryOf(P, at, bits) && p' == Min(at + 1, |P.C.lens|)
  {
    p' := p;
    if p >= |P.C.lens| {
      entry := Huft(INVALID, bits, 0);
    } else {
      if P.v[p].Some? && P.v[p].value < |P.C.lens| {
        entry := SymbolEntry(P.C, P.v[p].value, bits);
      } else {
        entry := Huft(JUNK, bits, 0);
      }
      p' := p + 1;
    }
  }

  /** Store the code's entries, step to the next code, and back up over finished tables. */
  method StoreCode(P: Setup, V0: Vars, k: nat, entry: Huft, ghost B0: Built, ghost r: nat) returns (V: Vars, ghost B: Built)
    requires CodeExists(P, k, r) && Holds(P, B0, V0, PosOf(P.c, k, r), k) && V0.w < k <= V0.w + P.l && V0.h >= 0
    requires entry == EntryOf(P, Below(P.C.lens, k) + r, k - V0.w)
    ensures Holds(P, B, V, PosOf(P.c, k, r + 1), k)
  {
    hide *;
    V, B := V0, B0;
    SetupFacts(P, k, r);
    VarsFacts(P, B, V, PosOf(P.c, k, r), k);
    CodeIndex(P, B, V.t, V.u, V.x, V.h, V.w, V.i, k, r);
    var filled := FillEntries(V.t[V.q], Shr(V.i, V.w), k - V.w, V.z, entry);
    CodeSpan(P, k, r);
    var i := IncrementReversed(V.i, k, PosOf(P.c, k, r));
    StoreCodeStep(P, B, V.t, V.u, V.x, V.h, V.w, V.i, k, r, filled, i);
    B := B.(t := B.t[Top(B) := filled]);
    V := V.(t := V.t[V.q := filled], i := i);
    FillingLength(V0.t[V0.q], filled, entry, k - V0.w, Shr(V0.i, V0.w));
    StoredCurrent(P, V, k);
    V, B := LeaveTables(P, V, k, B, PosOf(P.c, k, r + 1));
  }

  lemma StoredCurrent(P: Setup, V: Vars, k: nat)
    requires 0 <= V.h < M && |V.u| == M && |V.x| == M + 1 && 0 <= V.w < k
    requires V.q == V.u[V.h] && V.q < |V.t| && V.z == |V.t[V.q]|
    ensures Current(P, V, k)
  {}

  lemma FillingLength(q: seq<Huft>, q': seq<Huft>, r: Huft, n: nat, j: nat)
    requires Filling(q, q', r, n, j)
    ensures |q'| == |q|
  {}

  method LeaveTables(P: Setup, V0: Vars, k: nat, ghost B0: Built, ghost pos: nat) returns (V: Vars, ghost B: Built)
    requires AtPop(P, B0, V0.t, V0.u, V0.x, V0.h, V0.w, V0.i, pos, k) && Current(P, V0, k) && V0.h >= 0
    ensures Holds(P, B, V, pos, k)
  {
    V, B := V0, B0;
    hide AtTop, AtPop;
    PopTableStep(P, B, V.t, V.u, V.x, V.h, V.w, V.i, pos, k);
    while And(V.i, Pow2(V.w) - 1) != V.x[V.h]
      invariant 0 <= V.w <= M && 0 <= V.h < |V.x|
      invariant AtPop(P, B, V.t, V.u, V.x, V.h, V.w, V.i, pos, k) && Current(P, V, k)
      decreases V.h
    {
      PopTableStep(P, B, V.t, V.u, V.x, V.h, V.w, V.i, pos, k);
      B := B.(u := B.u[..|B.u| - 1]);
      V := V.(h := V.h - 1, w := V.w - P.l);
      PopTableStep(P, B, V.t, V.u, V.x, V.h, V.w, V.i, pos, k);
    }
    PopTableStep(P, B, V.t, V.u, V.x, V.h, V.w, V.i, pos, k);
  }

  /** The main loop of huft_build: go through the codes in order of length, storing each one's entries. */
  method MakeTables(P: Setup, k0: nat) returns (t: seq<seq<Huft>>, ghost B: Built)
    requires SetupOk(P) && 1 <= k0 <= P.g && forall j :: 1 <= j < k0 ==> P.c[j] == 0
    ensures Ready(P, B, Pow2(M)) && B.t == t
  {
    hide *;
    var p, k := 0, k0;
    var V := Vars([], seq(M, _ => 0), seq(M + 1, _ => 0), -1, -(P.l as int), 0, 0, 0);
    B := Built([], [], [], []);
    SetupRange(P);
    NoShortCodes(P, k0);
    MinZero(|P.C.lens|);
    StartHolds(P, B, V, k);
    while k <= P.g
      invariant k0 <= k <= P.g + 1 && Holds(P, B, V, Laid(P.c, k - 1), k)
      invariant k <= P.g ==> p == Min(Below(P.C.lens, k), |P.C.lens|)
    {
      NextLength(P, k);
      V, p, B := CodesOfLength(P, V, k, p, B);
      k := k + 1;
    }
    NextLength(P, P.g);
    t := V.t;
    AllStored(P, B, V);
  }

  lemma MinZero(n: nat)
    ensures Min(0, n) == 0
  {}

  lemma SetupRange(P: Setup)
    requires SetupOk(P)
    ensures |P.c| == M + 1 && 1 <= P.g <= M
  {}

  lemma StartHolds(P: Setup, B: Built, V: Vars, k: nat)
    requires SetupOk(P) && |V.u| == M && |V.x| == M + 1 && V.x[0] == 0
    requires V == Vars([], V.u, V.x, -1, -(P.l as int), 0, 0, 0) && B == Built([], [], [], [])
    ensures Holds(P, B, V, 0, k)
  {
    StartState(P, V.u, V.x);
    hide AtTop, SetupOk;
  }

  lemma AllStored(P: Setup, B: Built, V: Vars)
    requires Holds(P, B, V, Pow2(M), P.g + 1)
    ensures Ready(P, B, Pow2(M)) && B.t == V.t
  {}

  method CodesOfLength(P: Setup, V0: Vars, k: nat, p0: nat, ghost B0: Built) returns (V: Vars, p: nat, ghost B: Built)
    requires SetupOk(P) && 1 <= k <= P.g && p0 == Min(Below(P.C.lens, k), |P.C.lens|)
    requires Holds(P, B0, V0, Laid(P.c, k - 1), k)
    ensures Holds(P, B, V, Laid(P.c, k), k + 1)
    ensures k < P.g ==> p == Min(Below(P.C.lens, k + 1), |P.C.lens|)
  {
    hide *;
    V, p, B := V0, p0, B0;
    SetupRange(P);
    var a := P.c[k];
    ghost var r := 0;
    NextLength(P, k);
    BelowNext(P.C.lens, k);
    while a != 0
      invariant r + a == P.c[k] && Holds(P, B, V, PosOf(P.c, k, r), k)
      invariant p == Min(Below(P.C.lens, k) + r, |P.C.lens|)
    {
      a := a - 1;
      CodeToCome(P, k, r);
      V, B := OpenTables(P, V, k, a, B, r);
      var entry: Huft;
      entry, p := NextEntry(P, p, k - V.w, Below(P.C.lens, k) + r);
      V, B := StoreCode(P, V, k, entry, B, r);
      r := r + 1;
    }
    LongerNext(P, B, V, Laid(P.c, k), k);
  }

  lemma CodeToCome(P: Setup, k: nat, r: nat)
    requires SetupOk(P) && 1 <= k <= P.g && r < P.c[k]
    ensures CodeExists(P, k, r)
  {}

  lemma LongerNext(P: Setup, B: Built, V: Vars, pos: nat, k: nat)
    requires Holds(P, B, V, pos, k)
    ensures Holds(P, B, V, pos, k + 1)
  {}

  // ---- The whole routine

  ghost predicate AllZero(b: seq<nat>) { forall i :: 0 <= i < |b| ==> b[i] == 0 }

  /** No code is longer than one bit. */
  ghost predicate OneBit(b: seq<nat>) { forall i :: 0 <= i < |b| ==> b[i] <= 1 }

  /** What huft_build says about a list of lengths: 0 for a complete code (or none, or an incomplete one of
      a single bit), 1 for an incomplete code, 2 for an oversubscribed one. */
  ghost function Verdict(b: seq<nat>): nat {
    if AllZero(b) then 0
    else if Oversubscribed(b) then 2
    else if !Complete(b) && !OneBit(b) then 1
    else 0
  }

  /** The least length in use. */
  function Shortest(b: seq<nat>): nat {
    if b == [] then 0
    else
      var r := Shortest(b[1..]);
      if b[0] != 0 && (r == 0 || b[0] < r) then b[0] else r
  }

  /** The index bits of the first table: m, or the shortest or longest length when m is beyond that. */
  function TableWidth(b: seq<nat>, m: nat): nat {
    var l := if m < Shortest(b) then Shortest(b) else m;
    if l > Longest(b) then Longest(b) else l
  }

  lemma {:induction false} ShortestIs(b: seq<nat>, k: nat)
    requires k > 0 && forall i :: 0 <= i < |b| ==> b[i] == 0 || b[i] >= k
    ensures Shortest(b) == 0 || Shortest(b) >= k
    ensures (exists i :: 0 <= i < |b| && b[i] == k) ==> Shortest(b) == k
  {
    if b != [] {
      ShortestIs(b[1..], k);
      if i :| 0 <= i < |b| && b[i] == k {
        if i > 0 { assert b[1..][i - 1] == k; }
      }
    }
  }

  lemma {:induction false} CountsNone(b: seq<nat>, n: nat, k: nat)
    requires n <= |b|
    ensures CountTo(b, n, k) == 0 <==> forall i :: 0 <= i < n ==> b[i] != k
  {
    if n > 0 { CountsNone(b, n - 1, k); }
  }

  lemma {:induction false} CountsAll(b: seq<nat>, n: nat, k: nat)
    requires n <= |b|
    ensures CountTo(b, n, k) == n <==> forall i :: 0 <= i < n ==> b[i] == k
  {
    if n > 0 { CountsAll(b, n - 1, k); }
  }

  lemma SomeLength(b: seq<nat>, c: seq<nat>)
    requires LensOk(b) && |c| == M + 1 && (forall k :: 0 <= k <= M ==> c[k] == Count(b, k))
    ensures c[0] == |b| <==> AllZero(b)
    ensures !AllZero(b) ==> exists j :: 1 <= j <= M && c[j] != 0
  {
    CountsAll(b, |b|, 0);
    if i :| 0 <= i < |b| && b[i] != 0 {
      CountsNone(b, |b|, b[i]);
      assert Count(b, b[i]) != 0;
    }
  }

  lemma LongestIs(b: seq<nat>, c: seq<nat>, g: nat)
    requires LensOk(b) && |c| == M + 1 && (forall k :: 0 <= k <= M ==> c[k] == Count(b, k))
    requires 1 <= g <= M && c[g] != 0 && forall j :: g < j <= M ==> c[j] == 0
    ensures forall i :: 0 <= i < |b| ==> b[i] <= g
    ensures g == 1 <==> OneBit(b)
  {
    forall i | 0 <= i < |b|
      ensures b[i] <= g
    {
      CountsNone(b, |b|, b[i]);
      assert Count(b, b[i]) != 0;
    }
    CountsNone(b, |b|, g);
  }

  /** With the unused codes added as dummies of the greatest length, the code fills the line. */
  lemma DummiesFill(b: seq<nat>, c: seq<nat>, g: nat, y: nat)
    requires LensOk(b) && |b| <= N_MAX && |c| == M + 1 && (forall k :: 0 <= k <= M ==> c[k] == Count(b, k))
    requires 1 <= g <= M && c[g] != 0 && (forall j :: g < j <= M ==> c[j] == 0)
    requires forall i :: 0 <= i < |b| ==> b[i] <= g
    requires !Oversubscribed(b) && Left(b, g, y) && (y == 0 <==> Complete(b))
    ensures Counts(b, c[g := c[g] + y], g)
  {
    var c' := c[g := c[g] + y];
    LaidIsFilled(b, c', g - 1);
    Distribute(c[g], y, Pow2(M - g));
  }

  method HuftBuild(b: seq<nat>, s: nat, d: seq<nat>, e: seq<nat>, m: nat)
    returns (r: nat, t: seq<seq<Huft>>, bits: nat)
    requires |b| <= N_MAX && CodeOk(Code(b, s, d, e))
    ensures r == Verdict(b)
    ensures AllZero(b) ==> t == [] && bits == 0
    ensures r <= 1 && !AllZero(b)
            ==> t != [] && bits == TableWidth(b, m) && 1 <= bits <= M && (bits >= m || forall i :: 0 <= i < |b| ==> b[i] <= bits)
    ensures r <= 1 && (forall i :: 0 <= i < |b| ==> b[i] <= bits) ==> |t| <= 1
    ensures r <= 1 && !AllZero(b)
            ==> (Decodes(Code(b, s, d, e), t, bits) <==> Straight(b, TableWidth(b, m))) && Misread(Code(b, s, d, e), t, bits)
    ensures r <= 1 && !AllZero(b) && Suits(b, bits) ==> Decodes(Code(b, s, d, e), t, bits)
  {
    hide *;
    t, bits := [], 0;
    LengthsOk(b, s, d, e);
    var c := CountLengths(b);
    SomeLength(b, c);
    if c[0] == |b| {
      r := 0;
      VerdictIs(b);
      return;
    }
    var k, g := LengthRange(c);
    LongestIs(b, c, g);
    bits := m;
    if bits < k {
      bits := k;
    }
    if bits > g {
      bits := g;
    }
    var y := UnusedCodes(b, c, k, g);
    VerdictIs(b);
    if y < 0 {
      r := 2;
      return;
    }
    ClampedWidth(b, c, k, g, m, bits);
    DummiesFill(b, c, g, y);
    var x := Offsets(b, c, g);
    var v := SortValues(b, g, x);
    var P := Setup(Code(b, s, d, e), c[g := c[g] + y], v, g, bits);
    SetupMade(P);
    ghost var B;
    t, B := MakeTables(P, k);
    TablesMade(P, B, t);
    LongestAppears(b, g);
    r := if y != 0 && g != 1 then 1 else 0;
  }

  lemma ClampedWidth(b: seq<nat>, c: seq<nat>, k: nat, g: nat, m: nat, l: nat)
    requires LensOk(b) && |c| == M + 1 && (forall j :: 0 <= j <= M ==> c[j] == Count(b, j))
    requires 1 <= k <= g <= M && c[k] != 0 && c[g] != 0 && forall j :: 1 <= j < k || g < j <= M ==> c[j] == 0
    requires k <= l <= g && (l > m ==> l == k) && (l < m ==> l == g)
    ensures l == TableWidth(b, m)
  {
    CountsNone(b, |b|, k);
    CountsNone(b, |b|, g);
    forall i | 0 <= i < |b|
      ensures b[i] == 0 || k <= b[i] <= g
    {
      CountsNone(b, |b|, b[i]);
      assert Count(b, b[i]) != 0;
    }
    hide Count;
    ShortestIs(b, k);
    LongestValue(b, g);
  }

  lemma LengthsOk(b: seq<nat>, s: nat, d: seq<nat>, e: seq<nat>)
    requires CodeOk(Code(b, s, d, e))
    ensures LensOk(b)
  {}

  lemma VerdictIs(b: seq<nat>)
    ensures Complete(b) ==> Verdict(b) == 0 && !AllZero(b) && !Oversubscribed(b)
    ensures AllZero(b) ==> Verdict(b) == 0
    ensures !AllZero(b) ==> Verdict(b) == if Oversubscribed(b) then 2 else if !Complete(b) && !OneBit(b) then 1 else 0
  {
    if AllZero(b) {
      forall k | 1 <= k <= M
        ensures Count(b, k) == 0
      {
        CountsNone(b, |b|, k);
      }
      FilledZero(b, M);
    }
  }

  lemma SetupMade(P: Setup)
    requires CodeOk(P.C) && Counts(P.C.lens, P.c, P.g) && Sorted(P.C.lens, P.v) && 1 <= P.l <= P.g
    ensures SetupOk(P)
  {}

  lemma TablesMade(P: Setup, B: Built, t: seq<seq<Huft>>)
    requires SetupOk(P) && Ready(P, B, Pow2(M)) && B.t == t
    ensures t != [] && CodeOk(P.C) && (P.g <= P.l ==> |t| <= 1) && P.l >= 1
    ensures Suits(P.C.lens, P.l) ==> Decodes(P.C, t, P.l)
    ensures (Decodes(P.C, t, P.l) <==> Straight(P.C.lens, P.l)) && Misread(P.C, t, P.l)
  {
    Finished(P, B);
    hide Cells, Closed, StackLink, Roomy, Exact, Decodes, Misread, Suits, Straight, Complete;
  }

  /** A complete code that the tables do not decode: for the lengths 1, 2, 3, 3 and a first table of one bit, whatever
      starts with the codeword 111 of the last symbol. */
  method MisreadExample() returns (r: nat, t: seq<seq<Huft>>, bits: nat)
    ensures var b := [1, 2, 3, 3];
            r == 0 && bits == 1 && CodeOk(Code(b, 4, [], [])) && !Decodes(Code(b, 4, [], []), t, bits)
            && forall S :: |S| >= M && [true, true, true] <= S
                           ==> Symbol(b, S, 0) == Some((3, 3)) && !Finds(Code(b, 4, [], []), S, 0, Walk(t, 0, bits, S, 0))
  {
    hide Decodes, Finds, Walk, Unread, Complete, Straight, Codeword, Verdict, Suits, Symbol, CodeAt;
    var b: seq<nat> := [1, 2, 3, 3];
    SomeBent();
    VerdictIs(b);
    assert TableWidth(b, 1) == 1;
    r, t, bits := HuftBuild(b, 4, [], [], 1);
    forall S: seq<bool> | |S| >= M && [true, true, true] <= S
      ensures Symbol(b, S, 0) == Some((3, 3)) && !Finds(Code(b, 4, [], []), S, 0, Walk(t, 0, bits, S, 0))
    {
      ReadsOnes(b, S);
      assert MisreadAt(b, 3, 1, 1, S);
    }
  }

  lemma ReadsOnes(b: seq<nat>, S: seq<bool>)
    requires b == [1, 2, 3, 3] && LensOk(b) && Complete(b) && Codeword(b, 3) == [true, true, true]
    requires |S| >= M && [true, true, true] <= S
    ensures CodeAt(b, S, 0, 3) && Symbol(b, S, 0) == Some((3, 3))
  {
    hide Codeword, Symbol;
    assert S[0..3] == [true, true, true];
    assert CodeAt(b, S, 0, 3);
    SymbolIs(b, S, 0, 3);
  }
}
