/** What build_tree does before and after the tree proper: symbols in use, forced codes, and what the result means. */
module Forcing {
  import opened Bits
  import opened PrefixCodes
  import opened Sums
  import opened Huffman
  import opened HuffmanRuns
  import opened Trees
  import opened Heaps
  import opened Merging
  import opened BitLengths
  import opened FirstPass
  import opened SecondPass

  /** The symbols with a frequency. */
  ghost function Used(F: seq<nat>): (s: set<nat>)
    ensures forall x: nat :: x in s <==> x < |F| && F[x] != 0
  {
    set x | 0 <= x < |F| && F[x] != 0
  }

  /** F with the symbols xs given frequency 1. */
  function Force(F: seq<nat>, xs: seq<nat>): (r: seq<nat>)
    ensures |r| == |F|
  {
    if xs == [] then F
    else
      var g := Force(F, xs[..|xs| - 1]);
      var x := xs[|xs| - 1];
      if x < |g| then g[x := 1] else g
  }

  lemma ForceOne(F: seq<nat>, xs: seq<nat>, x: nat)
    requires x < |F|
    ensures Force(F, xs + [x]) == Force(F, xs)[x := 1]
  {
    assert (xs + [x])[..|xs|] == xs;
  }

  /** Only symbols without a frequency were forced, each once. */
  ghost predicate Forcible(F: seq<nat>, xs: seq<nat>) {
    forall j :: 0 <= j < |xs| ==> xs[j] < 3 && xs[j] < |F| && Force(F, xs[..j])[xs[j]] == 0
  }

  lemma ForcibleOne(F: seq<nat>, xs: seq<nat>, x: nat)
    requires Forcible(F, xs) && x < 3 && x < |F| && Force(F, xs)[x] == 0
    ensures Forcible(F, xs + [x])
  {
    var ys := xs + [x];
    forall j | 0 <= j < |ys|
      ensures ys[j] < 3 && ys[j] < |F| && Force(F, ys[..j])[ys[j]] == 0
    {
      assert ys[..j] == xs[..j];
    }
  }

  function SumAt(xs: seq<nat>, bits: seq<nat>): nat {
    if xs == [] then 0
    else SumAt(xs[..|xs| - 1], bits) + (if xs[|xs| - 1] < |bits| then bits[xs[|xs| - 1]] else 0)
  }

  lemma SumAtOne(xs: seq<nat>, x: nat, bits: seq<nat>)
    requires x < |bits|
    ensures SumAt(xs + [x], bits) == SumAt(xs, bits) + bits[x]
  {
    assert (xs + [x])[..|xs|] == xs;
  }

  lemma UsedForced(F: seq<nat>, x: nat)
    requires x < |F| && F[x] == 0
    ensures Used(F[x := 1]) == Used(F) + {x} && x !in Used(F)
  {}

  /** Forcing one symbol adds its bits, and 1 to the sum of the frequencies. */
  lemma CostForced(F: seq<nat>, x: nat, bits: seq<nat>)
    requires x < |F| == |bits| && F[x] == 0
    ensures Cost(Used(F[x := 1]), F[x := 1], bits) == Cost(Used(F), F, bits) + bits[x]
    ensures Total(Used(F[x := 1]), F[x := 1]) == Total(Used(F), F) + 1
  {
    var F' := F[x := 1];
    UsedForced(F, x);
    SumSame(Used(F), Used(F), Costs(F, bits), Costs(F', bits), |F|);
    SumSame(Used(F), Used(F), F, F', |F|);
    AddMember(Used(F), x, Costs(F', bits));
    AddMember(Used(F), x, F');
    assert Product(1, bits[x]) == bits[x];
  }

  lemma {:induction false} CostForce(F: seq<nat>, xs: seq<nat>, bits: seq<nat>)
    requires |F| == |bits| && Forcible(F, xs)
    ensures Cost(Used(Force(F, xs)), Force(F, xs), bits) == Cost(Used(F), F, bits) + SumAt(xs, bits)
    ensures Total(Used(Force(F, xs)), Force(F, xs)) == Total(Used(F), F) + |xs|
  {
    hide Cost, Total;
    if xs != [] {
      var ys := xs[..|xs| - 1];
      ForceStep(F, xs);
      CostForce(F, ys, bits);
      CostForced(Force(F, ys), xs[|xs| - 1], bits);
    }
  }

  lemma {:induction false} SumAtSame(xs: seq<nat>, a: seq<nat>, b: seq<nat>)
    requires |a| == |b| && forall j :: 0 <= j < |xs| && xs[j] < |a| ==> a[xs[j]] == b[xs[j]]
    ensures SumAt(xs, a) == SumAt(xs, b)
  {
    if xs != [] { SumAtSame(xs[..|xs| - 1], a, b); }
  }

  lemma {:induction false} SumAtOnes(xs: seq<nat>, a: seq<nat>)
    requires forall j :: 0 <= j < |xs| ==> xs[j] < |a| && a[xs[j]] == 1
    ensures SumAt(xs, a) == |xs|
  {
    if xs != [] { SumAtOnes(xs[..|xs| - 1], a); }
  }

  lemma {:induction false} ForcedUsed(F: seq<nat>, xs: seq<nat>)
    requires Forcible(F, xs)
    ensures Used(F) <= Used(Force(F, xs))
    ensures forall j :: 0 <= j < |xs| ==> xs[j] in Used(Force(F, xs))
    ensures forall i :: 0 <= i < |F| && F[i] != 0 ==> Force(F, xs)[i] == F[i]
  {
    if xs != [] {
      var ys, x := xs[..|xs| - 1], xs[|xs| - 1];
      ForceStep(F, xs);
      ForcedUsed(F, ys);
      UsedForced(Force(F, ys), x);
      hide Force, Used;
      assert forall j :: 0 <= j < |xs| - 1 ==> xs[j] == ys[j];
    }
  }

  lemma ForceStep(F: seq<nat>, xs: seq<nat>)
    requires xs != [] && Forcible(F, xs)
    ensures var ys, x := xs[..|xs| - 1], xs[|xs| - 1];
            Forcible(F, ys) && x < |F| && Force(F, ys)[x] == 0 && Force(F, xs) == Force(F, ys)[x := 1]
  {
    var ys := xs[..|xs| - 1];
    forall j | 0 <= j < |ys|
      ensures ys[j] < 3 && ys[j] < |F| && Force(F, ys[..j])[ys[j]] == 0
    {
      assert xs[..j] == ys[..j];
    }
    assert Force(F, xs[..|xs| - 1])[xs[|xs| - 1]] == 0;
  }

  // ---- The queue of leaves

  lemma PushNode(heap: seq<nat>, len: nat, n: nat, bound: nat)
    requires len + 1 < |heap| && Nodes(heap, len, bound) && n !in Members(heap, len) && n < bound
    ensures Nodes(heap[len + 1 := n], len + 1, bound)
    ensures Members(heap[len + 1 := n], len + 1) == Members(heap, len) + {n}
  {
    var h := heap[len + 1 := n];
    assert forall i :: 1 <= i <= len ==> h[i] == heap[i];
    forall x | x in Members(heap, len) + {n}
      ensures x in Members(h, len + 1)
    {
      if x == n {
        assert h[len + 1] == x;
      } else {
        var i :| 1 <= i <= len && heap[i] == x;
        assert h[i] == x;
      }
    }
    forall x | x in Members(h, len + 1)
      ensures x in Members(heap, len) + {n}
    {
      var i :| 1 <= i <= len + 1 && h[i] == x;
      if i <= len { assert heap[i] == x; }
    }
    forall i | 1 <= i <= len
      ensures h[i] != n
    {
      assert heap[i] in Members(heap, len);
    }
  }

  lemma EmptyNodes(heap: seq<nat>, bound: nat)
    requires |heap| > 0
    ensures Nodes(heap, 0, bound) && Members(heap, 0) == {}
  {}

  // ---- What the result means

  /** Optimal for the whole tree is optimal for its leaves. */
  lemma OptimalPrefix(L: set<nat>, w: seq<nat>, D: seq<nat>, n: nat)
    requires Optimal(L, w, D) && n <= |w| && forall x :: x in L ==> x < n
    ensures Optimal(L, w[..n], D[..n])
  {
    SumShort(L, Costs(w, D), Costs(w[..n], D[..n]), n);
    forall other: seq<nat>, B: nat | |other| == n && Feasible(L, other, B)
      ensures Cost(L, w[..n], D[..n]) <= Cost(L, w[..n], other)
    {
      var long := other + seq(|w| - n, _ => 0);
      SumShort(L, Costs(w, long), Costs(w[..n], other), n);
      SumShort(L, Shares(long, B), Shares(other, B), n);
      FeasibleLong(L, other, long, B);
    }
  }

  lemma FeasibleLong(L: set<nat>, other: seq<nat>, long: seq<nat>, B: nat)
    requires Feasible(L, other, B) && other <= long && Kraft(L, long, B) == Kraft(L, other, B)
    ensures Feasible(L, long, B)
  {
    hide Kraft;
  }

  lemma SumShort(L: set<nat>, g: seq<int>, h: seq<int>, n: nat)
    requires n == |h| <= |g| && (forall x :: x in L ==> x < n) && forall i :: 0 <= i < n && i in L ==> g[i] == h[i]
    ensures Total(L, g) == Total(L, h)
  {
    SumBeyond(L, g, n, |g|);
    SumSame(L, L, g, h, n);
  }

  /** The depths of a grown tree cost the least of all. */
  lemma GrownOptimal(G: Grown, D: seq<nat>)
    requires GrownOk(G) && Deep(G, D)
    ensures |G.F| <= |D| && Best(G.leaves, G.F, D[..|G.F|])
  {
    hide *;
    GrownFacts(G);
    DeepIs(G, D);
    HistoryIs(G);
    WeightsAre(G);
    LiveFirst(G.leaves, G.hist, |G.F|);
    HuffmanOptimal(G.leaves, G.hist, Weights(G.tree), D, |G.F| + |G.hist| - 1);
    OptimalPrefix(G.leaves, Weights(G.tree), D, |G.F|);
    var B := DepthsFeasible(G.leaves, G.hist, |G.F|, |G.F| + |G.hist| - 1, D);
    BestIs(G.leaves, G.F, D, B);
  }

  /** Depths of a whole tree, seen at its leaves. */
  lemma BestIs(L: set<nat>, F: seq<nat>, D: seq<nat>, B: nat)
    requires |F| <= |D| && Optimal(L, F, D[..|F|]) && Kraft(L, D, B) == Pow2(B)
    requires (forall i :: 0 <= i < |D| ==> D[i] < B) && forall x :: x in L ==> x < |F|
    ensures Best(L, F, D[..|F|])
  {
    hide Optimal;
    SumShort(L, Shares(D, B), Shares(D[..|F|], B), |F|);
    assert Feasible(L, D[..|F|], B);
  }

  lemma HistoryIs(G: Grown)
    requires GrownOk(G)
    ensures |G.F| + |G.hist| >= 1 && History(G.leaves, G.hist, Weights(G.tree), |G.F| + |G.hist| - 1)
  {
    GrownFacts(G);
    hide GrownOk, Live, Numbered, PlacedOk, DadsOk, LeavesOk, SortedOk;
  }

  lemma WeightsAre(G: Grown)
    requires GrownOk(G)
    ensures |G.F| <= |G.tree| == |Weights(G.tree)| && Weights(G.tree)[..|G.F|] == G.F
  {
    GrownFacts(G);
    hide GrownOk, Live, Numbered, PlacedOk, DadsOk, SortedOk, AllJoin;
  }

  /** A tree of a single merge has two leaves, of depth 1. */
  lemma OneMerge(G: Grown, D: seq<nat>)
    requires GrownOk(G) && Deep(G, D) && |G.hist| == 1
    ensures forall x :: x in G.leaves ==> x < |D| && D[x] == 1
  {
    hide *;
    GrownFacts(G);
    DeepIs(G, D);
    DepthAt(G.hist, D, |G.F|, 0);
    NumberedAt(G.leaves, G.hist, |G.F|, 0);
    LiveNext(G.leaves, G.hist, 0);
    LiveFirst(G.leaves, G.hist, |G.F|);
    RootDepth(G.hist, D, |G.F|);
    var n, m := G.hist[0].n, G.hist[0].m;
    assert forall x :: x in G.leaves && x != n && x != m ==> x in Live(G.leaves, G.hist, 1);
  }

  lemma RootDepth(hist: seq<Merge>, D: seq<nat>, root: nat)
    requires Depths(hist, D, root)
    ensures root < |D| && D[root] == 0
  {}

  /** The code lengths t for the frequencies F: every symbol in use has a length, and no other; together they
      are a complete code. The depths in the tree are lengths of a prefix code, and none costs less. When they fit, they
      are the lengths; otherwise a more frequent symbol never has the longer length. */
  ghost predicate GoodLengths(F: seq<nat>, lens: seq<nat>, maxCode: nat, maxLen: nat, depths: seq<nat>) {
    |F| == |lens| == |depths| && maxCode < |F| && F[maxCode] > 0
    && (forall i :: 0 <= i < |F| ==> (F[i] == 0 ==> lens[i] == 0) && (F[i] > 0 ==> i <= maxCode && 1 <= lens[i] <= maxLen))
    && Complete(lens[..maxCode + 1]) && Best(Used(F), F, depths)
    && if forall i :: 0 <= i < |F| && F[i] > 0 ==> depths[i] <= maxLen then
         forall i :: 0 <= i < |F| && F[i] > 0 ==> lens[i] == depths[i]
       else
         forall i, j :: 0 <= i < |F| && 0 <= j < |F| && 0 < F[i] < F[j] ==> lens[j] <= lens[i]
  }

  lemma GoodMade(G: Grown, D: seq<nat>, t: seq<CtData>, maxLen: nat, bl: seq<nat>, maxCode: nat)
    requires GrownOk(G) && Deep(G, D) && Lengthened(G, D, t, maxLen, bl) && Limited(G, D, t, maxLen) && maxLen <= MAX_BITS
    requires G.leaves == Used(G.F) && maxCode < |G.F| && G.F[maxCode] > 0 && forall x :: x in G.leaves ==> x <= maxCode
    ensures |G.F| <= |t| && |G.F| <= |D| && GoodLengths(G.F, Dls(t)[..|G.F|], maxCode, maxLen, D[..|G.F|])
    ensures Lens(t, maxCode + 1) == Dls(t)[..maxCode + 1] && |bl| == MAX_BITS + 1 && bl[0] == 0
    ensures forall b :: 1 <= b <= MAX_BITS ==> bl[b] == Count(Lens(t, maxCode + 1), b)
  {
    hide *;
    GrownOptimal(G, D);
    LengthsOf(G, D, t, maxLen, bl);
    DlsOf(t, maxCode + 1, |G.F|);
    BitLimits();
    ListComplete(G.leaves, t, maxCode + 1, bl);
    UsedIs(G.F);
    LimitedMeans(G, D, t, maxLen);
    GoodIs(G.F, Dls(t)[..|G.F|], maxCode, maxLen, D[..|G.F|]);
  }

  lemma UsedIs(F: seq<nat>)
    ensures forall x: nat :: x in Used(F) <==> x < |F| && F[x] != 0
  {}

  lemma DlsOf(t: seq<CtData>, n: nat, m: nat)
    requires n <= m <= |t|
    ensures Lens(t, n) == Dls(t)[..n] == Dls(t)[..m][..n] && |Dls(t)| == |t| && |Lens(t, n)| == n
    ensures forall i :: 0 <= i < |t| ==> Dls(t)[i] == t[i].dl
  {}

  lemma LimitedMeans(G: Grown, D: seq<nat>, t: seq<CtData>, maxLen: nat)
    requires Limited(G, D, t, maxLen) && |G.F| <= |D| && |G.F| <= |t|
    requires forall x: nat :: x in G.leaves <==> x < |G.F| && G.F[x] != 0
    ensures if forall i :: 0 <= i < |G.F| && G.F[i] > 0 ==> D[i] <= maxLen then
              forall i :: 0 <= i < |G.F| && G.F[i] > 0 ==> t[i].dl == D[i]
            else
              forall i, j :: 0 <= i < |G.F| && 0 <= j < |G.F| && 0 < G.F[i] < G.F[j] ==> t[j].dl <= t[i].dl
  {}

  lemma GoodIs(F: seq<nat>, lens: seq<nat>, maxCode: nat, maxLen: nat, depths: seq<nat>)
    requires |F| == |lens| == |depths| && maxCode < |F| && F[maxCode] > 0
    requires forall i :: 0 <= i < |F| ==> (F[i] == 0 ==> lens[i] == 0) && (F[i] > 0 ==> i <= maxCode && 1 <= lens[i] <= maxLen)
    requires Complete(lens[..maxCode + 1]) && Best(Used(F), F, depths)
    requires if forall i :: 0 <= i < |F| && F[i] > 0 ==> depths[i] <= maxLen then
               forall i :: 0 <= i < |F| && F[i] > 0 ==> lens[i] == depths[i]
             else
               forall i, j :: 0 <= i < |F| && 0 <= j < |F| && 0 < F[i] < F[j] ==> lens[j] <= lens[i]
    ensures GoodLengths(F, lens, maxCode, maxLen, depths)
  {
    hide Complete, Best;
  }

  lemma LengthsOf(G: Grown, D: seq<nat>, t: seq<CtData>, maxLen: nat, bl: seq<nat>)
    requires GrownOk(G) && Lengthened(G, D, t, maxLen, bl)
    ensures |t| == |G.tree| == |D| && |G.F| <= |t| && |bl| == MAX_BITS + 1 && bl[0] == 0
    ensures Counted(G.leaves, Dls(t), bl) && Spread(bl, MAX_BITS) == Pow2(M)
    ensures forall x :: x in G.leaves ==> x < |G.F| && 1 <= t[x].dl <= maxLen
    ensures forall x :: 0 <= x < |G.F| && x !in G.leaves ==> t[x].dl == 0
  {
    GrownFacts(G);
    hide GrownOk, Live, Numbered, PlacedOk, DadsOk, SortedOk, AllJoin, LeavesOk, Spread, Pow2, Total;
  }

  // ---- The forced codes cost nothing in the end

  /** With forced codes there are just two, of one bit each. */
  lemma ForcedFree(F: seq<nat>, xs: seq<nat>, lens: seq<nat>, X: seq<nat>)
    requires |F| == |X| <= |lens| && Forcible(F, xs)
    requires forall j :: 0 <= j < |xs| ==> xs[j] < |X| && lens[xs[j]] == 1 && X[xs[j]] == 0
    ensures Cost(Used(Force(F, xs)), Force(F, xs), BitsOf(lens, X)) - |xs| == Cost(Used(F), F, BitsOf(lens, X))
  {
    hide Forcible, Cost, Used;
    CostForce(F, xs, BitsOf(lens, X));
    SumAtOnes(xs, BitsOf(lens, X));
  }

  lemma ForcedStatic(F: seq<nat>, xs: seq<nat>, S: seq<nat>, X: seq<nat>)
    requires |F| == |X| <= |S| && Forcible(F, xs) && forall j :: 0 <= j < |xs| ==> xs[j] < |X| && X[xs[j]] == 0
    ensures Cost(Used(Force(F, xs)), Force(F, xs), BitsOf(S, X)) - SumAt(xs, S[..|X|]) == Cost(Used(F), F, BitsOf(S, X))
  {
    hide Forcible, Cost, Used;
    CostForce(F, xs, BitsOf(S, X));
    SumAtSame(xs, BitsOf(S, X), S[..|X|]);
  }

  lemma ForcibleRange(F: seq<nat>, xs: seq<nat>)
    requires Forcible(F, xs)
    ensures forall j :: 0 <= j < |xs| ==> xs[j] < 3 && xs[j] < |F|
  {
    hide Force;
  }

  lemma NothingForced(F: seq<nat>, S: seq<nat>)
    ensures Forcible(F, []) && Force(F, []) == F && SumAt([], S) == 0
  {}

  /** The sum of the frequencies over the tree. */
  lemma LeafTotal(t: seq<CtData>, F: seq<nat>)
    requires |F| <= |t| && forall i :: 0 <= i < |F| ==> t[i].fc == F[i]
    ensures Total(Used(F), Weights(t)) == Total(Used(F), F)
  {
    SumShort(Used(F), Weights(t), F, |F|);
    hide Total;
  }

  /** Some symbol to force. */
  lemma Forceable(F: seq<nat>, heap: seq<nat>, len: nat, maxCode: int)
    requires 3 <= |F| && len < 2 && len < |heap| && Members(heap, len) == Used(F) && -1 <= maxCode < |F|
    requires (forall i :: maxCode < i < |F| ==> F[i] == 0) && (maxCode >= 0 ==> F[maxCode] > 0)
    ensures var x := if maxCode < 2 then maxCode + 1 else 0;
            0 <= x < 3 && F[x] == 0
  {
    if maxCode >= 2 {
      assert maxCode in Members(heap, len);
      assert forall x, y :: x in Members(heap, len) && y in Members(heap, len) ==> x == y;
      assert F[0] != 0 <==> 0 in Used(F);
    }
  }

  lemma ForcedTotals(F: seq<nat>, xs: seq<nat>)
    requires Forcible(F, xs)
    ensures Total(Used(Force(F, xs)), Force(F, xs)) == Total(Used(F), F) + |xs|
    ensures forall i :: 0 <= i < |F| && F[i] != 0 ==> Force(F, xs)[i] == F[i]
    ensures xs == [] ==> Force(F, xs) == F
  {
    CostForce(F, xs, F);
    ForcedUsed(F, xs);
  }

  lemma TreeTotal(t: seq<CtData>, F: seq<nat>)
    requires LeavesOk(t, Used(F), F)
    ensures Total(Used(F), Weights(t)) == Total(Used(F), F)
  {
    LeafTotal(t, F);
    hide Total;
  }

  lemma CodeRange(F: seq<nat>, maxCode: int, heap: seq<nat>, len: nat)
    requires -1 <= maxCode < |F| && 1 <= len < |heap| && Members(heap, len) == Used(F)
    requires forall i :: maxCode < i < |F| ==> F[i] == 0
    ensures maxCode >= 0 && forall x :: x in Used(F) ==> x <= maxCode
  {
    assert heap[1] in Members(heap, len);
  }

  /** What the forced codes change in the two sums. */
  lemma BillForced(G: Grown, D: seq<nat>, t: seq<CtData>, maxLen: nat, bl: seq<nat>, F0: seq<nat>, xs: seq<nat>,
                   X: seq<nat>, S: seq<nat>)
    requires GrownOk(G) && Deep(G, D) && Lengthened(G, D, t, maxLen, bl) && Limited(G, D, t, maxLen) && maxLen >= 1
    requires Forcible(F0, xs) && G.F == Force(F0, xs) && G.leaves == Used(G.F) && (xs != [] ==> |G.hist| == 1)
    requires |X| == |F0| && (S == [] || |X| <= |S|) && forall i :: 0 <= i < 3 && i < |X| ==> X[i] == 0
    ensures |X| <= |t|
    ensures Cost(G.leaves, G.F, BitsOf(Dls(t), X)) - |xs| == Cost(Used(F0), F0, BitsOf(Dls(t), X))
    ensures S != [] ==> Cost(G.leaves, G.F, BitsOf(S, X)) - SumAt(xs, S[..|X|]) == Cost(Used(F0), F0, BitsOf(S, X))
    ensures xs != [] ==> forall i :: 0 <= i < |G.F| && G.F[i] > 0 ==> t[i].dl == 1
  {
    hide *;
    LengthsOf(G, D, t, maxLen, bl);
    ForcibleRange(F0, xs);
    ForcedUsed(F0, xs);
    UsedIs(G.F);
    DlsOf(t, 0, 0);
    if xs != [] {
      OneMerge(G, D);
      LimitedMeans(G, D, t, maxLen);
    }
    ForcedFree(F0, xs, Dls(t), X);
    if S != [] {
      ForcedStatic(F0, xs, S, X);
    }
  }

  lemma CodeLengthsOk(F: seq<nat>, lens: seq<nat>, maxCode: nat, maxLen: nat, depths: seq<nat>)
    requires GoodLengths(F, lens, maxCode, maxLen, depths) && maxLen <= MAX_BITS
    ensures maxCode < |lens| && forall i :: 0 <= i <= maxCode ==> lens[i] <= MAX_BITS
    ensures Complete(lens[..maxCode + 1]) && !Oversubscribed(lens[..maxCode + 1])
  {
    hide Best, Filled;
  }

  lemma SameDls(t: seq<CtData>, t': seq<CtData>)
    requires |t| == |t'| && forall i :: 0 <= i < |t| ==> t[i].dl == t'[i].dl
    ensures Dls(t) == Dls(t') && forall n :: 0 <= n <= |t| ==> Lens(t, n) == Lens(t', n)
  {}
}
