/** The first pass of gen_bitlen: lengths from the root down, cut off at the greatest length allowed. */
module FirstPass {
  import opened Bits
  import opened PrefixCodes
  import opened Sums
  import opened Huffman
  import opened HuffmanRuns
  import opened Trees
  import opened Merging
  import opened BitLengths

  /** A finished tree: its nodes, the heap array that lists them, and how it came about. */
  datatype Grown = Grown(tree: seq<CtData>, heap: seq<nat>, max: nat, leaves: set<nat>, hist: seq<Merge>, F: seq<nat>)

  ghost predicate GrownOk(G: Grown) { Built(G.tree, G.heap, G.max, G.leaves, G.hist, G.F) }

  lemma GrownFacts(G: Grown)
    requires GrownOk(G)
    ensures var root := |G.F| + |G.hist| - 1;
            1 <= |G.hist| < |G.F| && 2 * |G.F| < |G.tree| <= |G.heap| && G.max < |G.heap| && G.heap[G.max] == root
            && root < |G.tree| && Live(G.leaves, G.hist, |G.hist|) == {root} && Numbered(G.leaves, G.hist, |G.F|)
            && PlacedOk(G.heap, G.max + 1, G.hist) && G.max + 1 + 2 * |G.hist| == |G.heap|
            && AllJoin(G.leaves, G.hist, Weights(G.tree)) && DadsOk(G.tree, G.hist, |G.F|)
            && LeavesOk(G.tree, G.leaves, G.F) && SortedOk(G.tree, G.heap, G.max, {})
  {
    hide Built;
    BuiltFacts(G.tree, G.heap, G.max, G.leaves, G.hist, G.F);
    hide Live, Numbered, AllJoin, DadsOk, LeavesOk, SortedOk, PlacedOk;
  }

  function Root(G: Grown): int { |G.F| + |G.hist| - 1 }

  /** D gives the depth of every node. */
  ghost predicate Deep(G: Grown, D: seq<nat>) {
    |D| == |G.tree| && Root(G) >= 0 && Depths(G.hist, D, Root(G)) && Sized(G.hist, |D|)
  }

  lemma DepthsExist(G: Grown) returns (D: seq<nat>)
    requires GrownOk(G)
    ensures Deep(G, D)
  {
    hide *;
    GrownFacts(G);
    SizedRun(G.leaves, G.hist, |G.F|, |G.tree|);
    DepthsIs(G.leaves, G.hist, |G.F|, |G.F| + |G.hist| - 1, |G.tree|);
    D := MakeDepths(G.hist, |G.tree|);
    DeepIs(G, D);
  }

  lemma MakeDepths(hist: seq<Merge>, size: nat) returns (D: seq<nat>)
    requires Sized(hist, size)
    ensures D == DepthFrom(hist, 0, size) && |D| == size
  {
    D := DepthFrom(hist, 0, size);
  }

  lemma DeepIs(G: Grown, D: seq<nat>)
    ensures Deep(G, D)
        <==> |D| == |G.tree| && |G.F| + |G.hist| >= 1 && Depths(G.hist, D, |G.F| + |G.hist| - 1) && Sized(G.hist, |D|)
  {}

  lemma SizedRun(leaves: set<nat>, hist: seq<Merge>, elems: nat, size: nat)
    requires Numbered(leaves, hist, elems) && elems + |hist| <= size
    ensures Sized(hist, size)
  {
    hide Numbered, Live;
    forall i | 0 <= i < |hist|
      ensures hist[i].n < size && hist[i].m < size && hist[i].z < size
    {
      NumberedAt(leaves, hist, elems, i);
      Gone(leaves, hist, elems, i, i + 1);
    }
  }

  // ---- Where the pass stands

  /** done are the nodes whose lengths are set; heap[h] is next. `half`: one node of the pair of step k - 1 is done. */
  ghost predicate PassAt(G: Grown, D: seq<nat>, maxLen: nat, t: seq<CtData>, h: nat, k: nat, half: bool, done: set<nat>) {
    k <= |G.hist| && (half ==> k >= 1) && Root(G) >= 0 && |t| == |G.tree| == |D|
    && done == (if half then From(G.hist, Root(G), k) + {G.hist[k - 1].m} else From(G.hist, Root(G), k))
    && h == |G.heap| - 2 * k + (if half then 1 else 0)
    && forall x :: 0 <= x < |t| ==> t[x].fc == G.tree[x].fc && t[x].dl == if x in done then Cut(D[x], maxLen) else G.tree[x].dl
  }

  lemma PassStarts(G: Grown, D: seq<nat>, maxLen: nat)
    requires GrownOk(G) && Deep(G, D)
    ensures Root(G) < |G.tree| && G.max < |G.heap| && G.heap[G.max] == Root(G) >= 0 && D[Root(G)] == 0
    ensures PassAt(G, D, maxLen, G.tree[Root(G) := G.tree[Root(G)].(dl := 0)], G.max + 1, |G.hist|, false, {Root(G) as nat})
  {
    hide Built;
    GrownFacts(G);
    FromNext(G.hist, Root(G), |G.hist|);
    hide From, Numbered, PlacedOk;
    assert Cut(0, maxLen) == 0;
  }

  lemma DadIs(tree: seq<CtData>, hist: seq<Merge>, elems: nat, k: nat)
    requires DadsOk(tree, hist, elems) && k < |hist|
    ensures hist[k].n < |tree| && hist[k].m < |tree| && tree[hist[k].n].dl == tree[hist[k].m].dl == elems + k
  {}

  lemma DepthAt(hist: seq<Merge>, D: seq<nat>, root: nat, k: nat)
    requires Depths(hist, D, root) && k < |hist|
    ensures hist[k].n < |D| && hist[k].m < |D| && hist[k].z < |D| && D[hist[k].n] == D[hist[k].m] == D[hist[k].z] + 1
  {}

  /** The node the pass comes to next. */
  lemma NextNode(G: Grown, D: seq<nat>, k: nat, half: bool)
    requires GrownOk(G) && Deep(G, D) && 1 <= k <= |G.hist|
    ensures Root(G) >= 0
    ensures var h := |G.heap| - 2 * k + (if half then 1 else 0);
            var done := if half then From(G.hist, Root(G), k) + {G.hist[k - 1].m} else From(G.hist, Root(G), k);
            0 <= h < |G.heap| && G.heap[h] == (if half then G.hist[k - 1].n else G.hist[k - 1].m)
            && var n := G.heap[h];
               n < |G.tree| && n !in done
               && G.tree[n].dl == G.hist[k - 1].z < |D| && G.hist[k - 1].z in done && D[n] == D[G.hist[k - 1].z] + 1
  {
    hide *;
    GrownFacts(G);
    DeepIs(G, D);
    PlacedAt(G.heap, G.max + 1, G.hist, k - 1);
    RootIs(G);
    FreshPair(G.leaves, G.hist, |G.F|, Root(G), k - 1);
    DadIs(G.tree, G.hist, |G.F|, k - 1);
    DepthAt(G.hist, D, Root(G), k - 1);
  }

  lemma RootIs(G: Grown)
    ensures Root(G) == |G.F| + |G.hist| - 1
  {}

  lemma CutNext(d: nat, max: nat)
    ensures Cut(Cut(d, max) + 1, max) == Cut(d + 1, max)
    ensures Cut(d, max) + 1 > max <==> d + 1 > max
  {}

  lemma PassRange(G: Grown, D: seq<nat>, maxLen: nat, t: seq<CtData>, h: nat, k: nat, half: bool, done: set<nat>)
    requires PassAt(G, D, maxLen, t, h, k, half, done) && h < |G.heap|
    ensures 1 <= k <= |G.hist| && Root(G) >= 0 && h == |G.heap| - 2 * k + (if half then 1 else 0) && |t| == |G.tree| == |D|
    ensures done == if half then From(G.hist, Root(G), k) + {G.hist[k - 1].m} else From(G.hist, Root(G), k)
    ensures forall x :: 0 <= x < |t| ==> t[x].fc == G.tree[x].fc && t[x].dl == if x in done then Cut(D[x], maxLen) else G.tree[x].dl
  {
    hide From, Root;
  }

  /** One node's length follows from its father's. */
  lemma PassStep(G: Grown, D: seq<nat>, maxLen: nat, t: seq<CtData>, h: nat, k: nat, half: bool, done: set<nat>)
    requires GrownOk(G) && Deep(G, D) && PassAt(G, D, maxLen, t, h, k, half, done) && h < |G.heap|
    ensures var n := G.heap[h];
            n < |t| == |D| && t[n].dl < |t| && n !in done && D[n] >= 1
            && t[n].fc == G.tree[n].fc
            && Cut(t[t[n].dl].dl + 1, maxLen) == Cut(D[n], maxLen)
            && (t[t[n].dl].dl + 1 > maxLen <==> D[n] > maxLen)
    ensures var n := G.heap[h];
            1 <= k <= |G.hist| && Root(G) >= 0
            && PassAt(G, D, maxLen, t[n := t[n].(dl := Cut(D[n], maxLen))], h + 1, if half then k - 1 else k, !half, done + {n})
    ensures G.heap[h] < |G.F| ==> G.heap[h] in G.leaves
  {
    hide *;
    PassRange(G, D, maxLen, t, h, k, half, done);
    NextNode(G, D, k, half);
    CutNext(D[G.hist[k - 1].z], maxLen);
    PassStepped(G, D, maxLen, t, h, k, half, done);
    IsLeaf(G, k, half);
  }

  lemma IsLeaf(G: Grown, k: nat, half: bool)
    requires GrownOk(G) && 1 <= k <= |G.hist|
    ensures var n := if half then G.hist[k - 1].n else G.hist[k - 1].m;
            n < |G.F| ==> n in G.leaves
  {
    hide *;
    GrownFacts(G);
    NumberedAt(G.leaves, G.hist, |G.F|, k - 1);
    LiveBound(G.leaves, G.hist, |G.F|, k - 1);
  }

  lemma PassStepped(G: Grown, D: seq<nat>, maxLen: nat, t: seq<CtData>, h: nat, k: nat, half: bool, done: set<nat>)
    requires PassAt(G, D, maxLen, t, h, k, half, done) && 1 <= k <= |G.hist| && Root(G) >= 0 && h < |G.heap|
    requires G.heap[h] == (if half then G.hist[k - 1].n else G.hist[k - 1].m) && G.heap[h] < |t|
    ensures var n := G.heap[h];
            |t| == |D|
            && PassAt(G, D, maxLen, t[n := t[n].(dl := Cut(D[n], maxLen))], h + 1, if half then k - 1 else k, !half, done + {n})
  {
    FromNext(G.hist, Root(G), k - 1);
    hide From, Cut, Root;
  }

  // ---- What the pass adds up

  /** Bits sent for each symbol: code length and extra bits. */
  function BitsOf(lens: seq<nat>, X: seq<nat>): (s: seq<nat>)
    requires |X| <= |lens|
    ensures |s| == |X| && forall i :: 0 <= i < |X| ==> s[i] == lens[i] + X[i]
  {
    seq(|X|, i requires 0 <= i < |X| => lens[i] + X[i])
  }

  ghost function LeavesIn(done: set<nat>, elems: nat): (s: set<nat>)
    ensures forall x :: x in s <==> x in done && x < elems
  {
    set x | x in done && x < elems
  }

  /** C are the lengths, S those of the fixed code (or none); `opt` and `stat` are added to opt_len and static_len. */
  ghost predicate Added(F: seq<nat>, D: seq<nat>, maxLen: nat, X: seq<nat>, S: seq<nat>, done: set<nat>,
                        overflow: nat, bl: seq<nat>, opt: int, stat: int)
  {
    var L, C := LeavesIn(done, |F|), Capped(D, maxLen);
    |F| == |X| <= |D| && (S == [] || |X| <= |S|)
    && overflow == Total(done, Above(D, maxLen)) && Counted(L, C, bl) && Kraft(L, C, M) == Spread(bl, MAX_BITS)
    && Codes(bl, MAX_BITS) == |L| && opt == Cost(L, F, BitsOf(C, X))
    && stat == if S == [] then 0 else Cost(L, F, BitsOf(S, X))
  }

  lemma AddedStarts(F: seq<nat>, D: seq<nat>, maxLen: nat, X: seq<nat>, S: seq<nat>, root: nat, bl: seq<nat>)
    requires |F| == |X| <= root < |D| && D[root] == 0 && (S == [] || |X| <= |S|)
    requires |bl| == MAX_BITS + 1 && forall b :: 0 <= b <= MAX_BITS ==> bl[b] == 0
    ensures Added(F, D, maxLen, X, S, {root}, 0, bl, 0, 0)
  {
    var C := Capped(D, maxLen);
    CountedNone(C, bl);
    assert LeavesIn({root}, |F|) == {};
    TotalOne(root, Above(D, maxLen));
    SumZero({}, Costs(F, BitsOf(C, X)), |F|);
    if S != [] { SumZero({}, Costs(F, BitsOf(S, X)), |F|); }
    hide Counted, Spread, Codes;
  }

  lemma InnerAdded(F: seq<nat>, D: seq<nat>, maxLen: nat, X: seq<nat>, S: seq<nat>, done: set<nat>,
                   overflow: nat, bl: seq<nat>, opt: int, stat: int, x: nat)
    requires Added(F, D, maxLen, X, S, done, overflow, bl, opt, stat) && |F| <= x < |D| && x !in done
    ensures Added(F, D, maxLen, X, S, done + {x}, overflow + (if D[x] > maxLen then 1 else 0), bl, opt, stat)
  {
    AddMember(done, x, Above(D, maxLen));
    assert LeavesIn(done + {x}, |F|) == LeavesIn(done, |F|);
    hide Total, Counted, Spread, Codes, Cost, Kraft;
  }

  lemma LeafAdded(F: seq<nat>, D: seq<nat>, maxLen: nat, X: seq<nat>, S: seq<nat>, done: set<nat>,
                  overflow: nat, bl: seq<nat>, opt: int, stat: int, x: nat, bl': seq<nat>)
    requires Added(F, D, maxLen, X, S, done, overflow, bl, opt, stat) && x < |F| && x !in done
    requires x < |D| && 1 <= Cut(D[x], maxLen) <= MAX_BITS && Changed(bl, bl', Cut(D[x], maxLen), 1)
    ensures x < |X| && (S != [] ==> x < |S|)
    ensures Added(F, D, maxLen, X, S, done + {x}, overflow + (if D[x] > maxLen then 1 else 0), bl',
                  opt + Product(F[x], Cut(D[x], maxLen) + X[x]),
                  stat + if S == [] then 0 else Product(F[x], S[x] + X[x]))
  {
    var L, C := LeavesIn(done, |F|), Capped(D, maxLen);
    assert LeavesIn(done + {x}, |F|) == L + {x};
    AddedFacts(F, D, maxLen, X, S, done, overflow, bl, opt, stat);
    hide Added, Total, Counted, Spread, Codes, Changed, Product, Cut;
    AddMember(done, x, Above(D, maxLen));
    CountedAdd(L, C, bl, bl', x);
    KraftAdd(L, C, bl, bl', x);
    CostAdd(L, F, BitsOf(C, X), x);
    if S != [] { CostAdd(L, F, BitsOf(S, X), x); }
    AddedIs(F, D, maxLen, X, S, done + {x}, overflow + (if D[x] > maxLen then 1 else 0), bl',
            opt + Product(F[x], Cut(D[x], maxLen) + X[x]), stat + if S == [] then 0 else Product(F[x], S[x] + X[x]));
  }

  lemma CostAdd(L: set<nat>, w: seq<nat>, lens: seq<nat>, x: nat)
    requires |w| == |lens| && x < |w| && x !in L
    ensures Cost(L + {x}, w, lens) == Cost(L, w, lens) + Product(w[x], lens[x])
  {
    AddMember(L, x, Costs(w, lens));
    hide Total;
  }

  lemma AddedFacts(F: seq<nat>, D: seq<nat>, maxLen: nat, X: seq<nat>, S: seq<nat>, done: set<nat>,
                   overflow: nat, bl: seq<nat>, opt: int, stat: int)
    requires Added(F, D, maxLen, X, S, done, overflow, bl, opt, stat)
    ensures var L, C := LeavesIn(done, |F|), Capped(D, maxLen);
            |F| == |X| <= |D| && (S == [] || |X| <= |S|) && |bl| == MAX_BITS + 1
            && overflow == Total(done, Above(D, maxLen)) && Counted(L, C, bl) && Kraft(L, C, M) == Spread(bl, MAX_BITS)
            && Codes(bl, MAX_BITS) == |L| && opt == Cost(L, F, BitsOf(C, X))
            && stat == if S == [] then 0 else Cost(L, F, BitsOf(S, X))
  {
    hide Total, Spread, Codes, Cost, Kraft;
  }

  lemma AddedIs(F: seq<nat>, D: seq<nat>, maxLen: nat, X: seq<nat>, S: seq<nat>, done: set<nat>,
                overflow: nat, bl: seq<nat>, opt: int, stat: int)
    requires var L, C := LeavesIn(done, |F|), Capped(D, maxLen);
             |F| == |X| <= |D| && (S == [] || |X| <= |S|) && |bl| == MAX_BITS + 1
             && overflow == Total(done, Above(D, maxLen)) && Counted(L, C, bl) && Kraft(L, C, M) == Spread(bl, MAX_BITS)
             && Codes(bl, MAX_BITS) == |L| && opt == Cost(L, F, BitsOf(C, X))
             && stat == if S == [] then 0 else Cost(L, F, BitsOf(S, X))
    ensures Added(F, D, maxLen, X, S, done, overflow, bl, opt, stat)
  {
    hide Total, Counted, Spread, Codes, Cost, Kraft;
  }

  // ---- Both together

  /** The state of the pass before heap[h]. */
  ghost predicate Passing(G: Grown, D: seq<nat>, maxLen: nat, X: seq<nat>, S: seq<nat>, t: seq<CtData>, h: nat,
                          k: nat, half: bool, done: set<nat>, overflow: nat, bl: seq<nat>, opt: int, stat: int)
  {
    PassAt(G, D, maxLen, t, h, k, half, done) && Added(G.F, D, maxLen, X, S, done, overflow, bl, opt, stat)
  }

  lemma PassingStarts(G: Grown, D: seq<nat>, maxLen: nat, X: seq<nat>, S: seq<nat>, bl: seq<nat>)
    requires GrownOk(G) && Deep(G, D) && |X| == |G.F| && (S == [] || |X| <= |S|)
    requires |bl| == MAX_BITS + 1 && forall b :: 0 <= b <= MAX_BITS ==> bl[b] == 0
    ensures Root(G) >= 0 && Root(G) < |G.tree| && G.max < |G.heap| && G.heap[G.max] == Root(G)
    ensures Passing(G, D, maxLen, X, S, G.tree[Root(G) := G.tree[Root(G)].(dl := 0)], G.max + 1, |G.hist|, false,
                    {Root(G) as nat}, 0, bl, 0, 0)
  {
    GrownFacts(G);
    hide GrownOk, Live, Numbered, PlacedOk, AllJoin, DadsOk, LeavesOk, SortedOk, PassAt, Added, Deep;
    DeepIs(G, D);
    PassStarts(G, D, maxLen);
    AddedStarts(G.F, D, maxLen, X, S, Root(G), bl);
  }

  lemma PassingAt(G: Grown, D: seq<nat>, maxLen: nat, X: seq<nat>, S: seq<nat>, t: seq<CtData>, h: nat,
                  k: nat, half: bool, done: set<nat>, overflow: nat, bl: seq<nat>, opt: int, stat: int)
    requires Passing(G, D, maxLen, X, S, t, h, k, half, done, overflow, bl, opt, stat)
    ensures PassAt(G, D, maxLen, t, h, k, half, done) && Added(G.F, D, maxLen, X, S, done, overflow, bl, opt, stat)
  {
    hide PassAt, Added;
  }

  lemma PassingIs(G: Grown, D: seq<nat>, maxLen: nat, X: seq<nat>, S: seq<nat>, t: seq<CtData>, h: nat,
                  k: nat, half: bool, done: set<nat>, overflow: nat, bl: seq<nat>, opt: int, stat: int)
    requires PassAt(G, D, maxLen, t, h, k, half, done) && Added(G.F, D, maxLen, X, S, done, overflow, bl, opt, stat)
    ensures Passing(G, D, maxLen, X, S, t, h, k, half, done, overflow, bl, opt, stat)
  {
    hide PassAt, Added;
  }

  /** What the loop may read for heap[h]. */
  lemma PassingNode(G: Grown, D: seq<nat>, maxLen: nat, X: seq<nat>, S: seq<nat>, t: seq<CtData>, h: nat,
                    k: nat, half: bool, done: set<nat>, overflow: nat, bl: seq<nat>, opt: int, stat: int)
    requires GrownOk(G) && Deep(G, D) && h < |G.heap| && 1 <= maxLen
    requires Passing(G, D, maxLen, X, S, t, h, k, half, done, overflow, bl, opt, stat)
    ensures |t| == |D| && G.heap[h] < |t| && t[G.heap[h]].dl < |t| && 1 <= k && |bl| == MAX_BITS + 1
    ensures G.heap[h] < |G.F| ==> G.heap[h] in G.leaves && t[G.heap[h]].fc == G.F[G.heap[h]]
  {
    hide *;
    PassingAt(G, D, maxLen, X, S, t, h, k, half, done, overflow, bl, opt, stat);
    PassStep(G, D, maxLen, t, h, k, half, done);
    AddedFacts(G.F, D, maxLen, X, S, done, overflow, bl, opt, stat);
    if G.heap[h] < |G.F| { LeafWeight(G, G.heap[h]); }
  }

  lemma LeafWeight(G: Grown, x: nat)
    requires GrownOk(G) && x < |G.F|
    ensures x < |G.tree| && G.tree[x].fc == G.F[x]
  {
    hide Live, Numbered, AllJoin;
  }

  lemma CutRange(d: nat, max: nat)
    requires 1 <= d && 1 <= max
    ensures 1 <= Cut(d, max) <= max
  {}

  /** One round of the pass. */
  lemma PassingStep(G: Grown, D: seq<nat>, maxLen: nat, X: seq<nat>, S: seq<nat>, t: seq<CtData>, h: nat,
                    k: nat, half: bool, done: set<nat>, overflow: nat, bl: seq<nat>, opt: int, stat: int,
                    d: nat, bl': seq<nat>, opt': int, stat': int)
    requires GrownOk(G) && Deep(G, D) && h < |G.heap| && 1 <= maxLen <= MAX_BITS
    requires Passing(G, D, maxLen, X, S, t, h, k, half, done, overflow, bl, opt, stat)
    requires G.heap[h] < |t| && t[G.heap[h]].dl < |t| && d == t[t[G.heap[h]].dl].dl + 1 && k >= 1
    requires G.heap[h] >= |G.F| ==> bl' == bl && opt' == opt && stat' == stat
    requires G.heap[h] < |G.F|
             ==> var n := G.heap[h];
                 Changed(bl, bl', Cut(d, maxLen), 1) && n < |X| && (S != [] ==> n < |S|)
                 && opt' == opt + Product(t[n].fc, Cut(d, maxLen) + X[n])
                 && stat' == stat + if S == [] then 0 else Product(t[n].fc, S[n] + X[n])
    ensures var n := G.heap[h];
            Passing(G, D, maxLen, X, S, t[n := t[n].(dl := Cut(d, maxLen))], h + 1, if half then k - 1 else k, !half,
                    done + {n}, overflow + (if d > maxLen then 1 else 0), bl', opt', stat')
  {
    hide *;
    var n := G.heap[h];
    PassingAt(G, D, maxLen, X, S, t, h, k, half, done, overflow, bl, opt, stat);
    PassStep(G, D, maxLen, t, h, k, half, done);
    CutRange(D[n], maxLen);
    if n < |G.F| {
      LeafWeight(G, n);
      LeafAdded(G.F, D, maxLen, X, S, done, overflow, bl, opt, stat, n, bl');
    } else {
      InnerAdded(G.F, D, maxLen, X, S, done, overflow, bl, opt, stat, n);
    }
    PassingIs(G, D, maxLen, X, S, t[n := t[n].(dl := Cut(d, maxLen))], h + 1, if half then k - 1 else k, !half,
              done + {n}, overflow + (if d > maxLen then 1 else 0), bl', opt', stat');
  }

  // ---- The end of the pass

  lemma PassEnds(G: Grown, D: seq<nat>, maxLen: nat, t: seq<CtData>, h: nat, k: nat, half: bool, done: set<nat>)
    requires GrownOk(G) && Deep(G, D) && PassAt(G, D, maxLen, t, h, k, half, done) && h >= |G.heap|
    ensures LeavesIn(done, |G.F|) == G.leaves && Root(G) >= 0 && done == From(G.hist, Root(G), 0)
    ensures |t| == |G.tree| == |D|
    ensures forall x :: 0 <= x < |t| ==> t[x].fc == G.tree[x].fc
    ensures forall x :: x in G.leaves ==> x < |G.F| && x < |t| && t[x].dl == Cut(D[x], maxLen)
    ensures forall x :: 0 <= x < |G.F| && x !in G.leaves ==> t[x].dl == 0
  {
    hide *;
    PassOver(G, D, maxLen, t, h, k, half, done);
    GrownFacts(G);
    RootIs(G);
    FromLeaves(G.leaves, G.hist, |G.F|, Root(G), 0);
    LiveFirst(G.leaves, G.hist, |G.F|);
    LeavesAt(G);
    LeavesOnly(G, done);
  }

  lemma LeavesOnly(G: Grown, done: set<nat>)
    requires (forall x :: x in done && x < |G.F| ==> x in G.leaves) && G.leaves <= done
    requires forall x :: x in G.leaves ==> x < |G.F|
    ensures LeavesIn(done, |G.F|) == G.leaves
  {}

  lemma PassOver(G: Grown, D: seq<nat>, maxLen: nat, t: seq<CtData>, h: nat, k: nat, half: bool, done: set<nat>)
    requires PassAt(G, D, maxLen, t, h, k, half, done) && h >= |G.heap|
    ensures Root(G) >= 0 && done == From(G.hist, Root(G), 0) && |t| == |G.tree| == |D|
    ensures forall x :: 0 <= x < |t| ==> t[x].fc == G.tree[x].fc && t[x].dl == if x in done then Cut(D[x], maxLen) else G.tree[x].dl
  {
    hide From, Cut, Root;
    assert k == 0 && !half;
  }

  lemma LeavesAt(G: Grown)
    requires GrownOk(G)
    ensures |G.F| <= |G.tree| && forall x :: 0 <= x < |G.F| && x !in G.leaves ==> G.tree[x].dl == 0
  {
    hide Live, Numbered, AllJoin;
  }

  lemma {:induction false} LeafDepth(G: Grown, D: seq<nat>, x: nat, k: nat)
    requires GrownOk(G) && Deep(G, D) && Root(G) >= 0 && k <= |G.hist| && x in From(G.hist, Root(G), k) && x < |G.F|
    ensures x < |D| && D[x] >= 1
    decreases |G.hist| - k
  {
    hide *;
    GrownFacts(G);
    RootIs(G);
    DeepIs(G, D);
    FromNext(G.hist, Root(G), k);
    if k < |G.hist| {
      DepthAt(G.hist, D, Root(G), k);
      if x != G.hist[k].n && x != G.hist[k].m {
        LeafDepth(G, D, x, k + 1);
      }
    }
  }

  lemma AllDeep(G: Grown, D: seq<nat>)
    requires GrownOk(G) && Deep(G, D)
    ensures forall x :: x in G.leaves ==> x < |D| && x < |G.F| && D[x] >= 1
  {
    hide *;
    GrownFacts(G);
    RootIs(G);
    LiveFirst(G.leaves, G.hist, |G.F|);
    FromLeaves(G.leaves, G.hist, |G.F|, Root(G), 0);
    forall x | x in G.leaves
      ensures x < |D| && x < |G.F| && D[x] >= 1
    {
      LeafDepth(G, D, x, 0);
    }
  }

  /** The counts of a code whose lengths were cut off: too full by one least share for every two nodes cut off. */
  lemma PassResult(G: Grown, D: seq<nat>, maxLen: nat, overflow: nat, bl: seq<nat>)
    requires GrownOk(G) && Deep(G, D) && 2 <= maxLen <= MAX_BITS && Root(G) >= 0 && |G.leaves| <= Pow2(maxLen)
    requires overflow == Total(From(G.hist, Root(G), 0), Above(D, maxLen)) && Counted(G.leaves, Capped(D, maxLen), bl)
    requires Kraft(G.leaves, Capped(D, maxLen), M) == Spread(bl, MAX_BITS) && Codes(bl, MAX_BITS) == |G.leaves|
    ensures overflow % 2 == 0 && |bl| == MAX_BITS + 1 && bl[0] == 0
    ensures overflow == 0 ==> Spread(bl, MAX_BITS) == Pow2(M)
    ensures overflow > 0 ==> Overfull(bl, maxLen, overflow / 2, |G.leaves|)
    ensures overflow == 0 <==> forall x :: x in G.leaves ==> x < |D| && D[x] <= maxLen
  {
    hide *;
    GrownFacts(G);
    DeepIs(G, D);
    RootIs(G);
    DeepPairs(G.leaves, G.hist, |G.F|, Root(G), D, maxLen, 0);
    BitLimits();
    CappedKraft(G.leaves, G.hist, |G.F|, Root(G), D, maxLen, M, 0);
    CappedLongest(G.leaves, G.hist, |G.F|, Root(G), D, maxLen, 0);
    LiveFirst(G.leaves, G.hist, |G.F|);
    AllDeep(G, D);
    NoOther(G.leaves, D, maxLen, bl);
    CountedIs(G.leaves, Capped(D, maxLen), bl);
    OverfullMade(bl, maxLen, TooDeep(G.hist, D, maxLen, 0), |G.leaves|);
    NoneAbove(G, D, maxLen);
    ZeroProduct(Share(maxLen, M));
  }

  lemma BitLimits()
    ensures MAX_BITS == 15 && M == 16
  {}

  lemma ZeroProduct(c: nat)
    ensures Product(0, c) == 0
  {}

  lemma CountedIs(L: set<nat>, lens: seq<nat>, bl: seq<nat>)
    requires Counted(L, lens, bl)
    ensures |bl| == MAX_BITS + 1 && forall b :: 0 <= b <= MAX_BITS ==> bl[b] == Total(L, Ones(lens, b))
  {}

  lemma NoOther(L: set<nat>, D: seq<nat>, maxLen: nat, bl: seq<nat>)
    requires Counted(L, Capped(D, maxLen), bl) && maxLen >= 1
    requires forall x :: x in L ==> x < |D| && D[x] >= 1
    ensures |bl| == MAX_BITS + 1 && bl[0] == 0 && forall b :: maxLen < b <= MAX_BITS ==> bl[b] == 0
  {
    var C := Capped(D, maxLen);
    forall b | 0 <= b <= MAX_BITS && (b == 0 || b > maxLen)
      ensures bl[b] == 0
    {
      SumZero(L, Ones(C, b), |C|);
    }
  }

  lemma OverfullMade(bl: seq<nat>, maxLen: nat, ov: nat, n: nat)
    ensures |bl| == MAX_BITS + 1 && 2 <= maxLen <= MAX_BITS && bl[0] == 0 && (forall b :: maxLen < b <= MAX_BITS ==> bl[b] == 0)
            && Spread(bl, MAX_BITS) == Pow2(M) + Product(ov, Share(maxLen, M)) && Codes(bl, MAX_BITS) == n <= Pow2(maxLen)
            && bl[maxLen] >= ov + 1
            ==> Overfull(bl, maxLen, ov, n)
  {
    hide Spread, Codes, Product, Share, Pow2;
  }

  /** No node is too deep exactly when no leaf is. */
  lemma NoneAbove(G: Grown, D: seq<nat>, maxLen: nat)
    requires GrownOk(G) && Deep(G, D) && Root(G) >= 0
    ensures Total(From(G.hist, Root(G), 0), Above(D, maxLen)) == 0
        <==> forall x :: x in G.leaves ==> x < |D| && D[x] <= maxLen
  {
    hide *;
    GrownFacts(G);
    RootIs(G);
    DeepIs(G, D);
    FromLeaves(G.leaves, G.hist, |G.F|, Root(G), 0);
    LiveFirst(G.leaves, G.hist, |G.F|);
    AboveRange(D, maxLen);
    FromBound(G.leaves, G.hist, |G.F|, Root(G), 0, |D|);
    var all, g := From(G.hist, Root(G), 0), Above(D, maxLen);
    if Total(all, g) == 0 {
      forall x | x in G.leaves
        ensures x < |D| && D[x] <= maxLen
      {
        MemberLe(all, x, g);
      }
    }
    if forall x :: x in G.leaves ==> x < |D| && D[x] <= maxLen {
      forall x | x in all
        ensures D[x] <= maxLen
      {
        ShallowerThanLeaf(G, D, maxLen, x);
      }
      AllZeroTotal(all, g);
    }
  }

  lemma AboveRange(D: seq<nat>, maxLen: nat)
    ensures |Above(D, maxLen)| == |D| && forall i :: 0 <= i < |D| ==> Above(D, maxLen)[i] == if D[i] > maxLen then 1 else 0
  {}

  lemma AllZeroTotal(L: set<nat>, g: seq<int>)
    requires forall i :: 0 <= i < |g| && i in L ==> g[i] == 0
    ensures Total(L, g) == 0
  {
    SumZero(L, g, |g|);
  }

  lemma {:induction false} FromBound(leaves: set<nat>, hist: seq<Merge>, elems: nat, root: nat, k: nat, size: nat)
    requires Sized(hist, size) && root < size && k <= |hist|
    ensures forall x :: x in From(hist, root, k) ==> x < size
    decreases |hist| - k
  {
    hide *;
    FromNext(hist, root, k);
    SizedAt(hist, size);
    if k < |hist| { FromBound(leaves, hist, elems, root, k + 1, size); }
  }

  /** Below every inner node there is a leaf. */
  lemma {:induction false} ShallowerThanLeaf(G: Grown, D: seq<nat>, maxLen: nat, x: nat)
    requires GrownOk(G) && Deep(G, D) && Root(G) >= 0 && x in From(G.hist, Root(G), 0) && x < |D|
    requires forall y :: y in G.leaves ==> y < |D| && D[y] <= maxLen
    ensures D[x] <= maxLen
    decreases x
  {
    hide *;
    GrownFacts(G);
    RootIs(G);
    DeepIs(G, D);
    FromLeaves(G.leaves, G.hist, |G.F|, Root(G), 0);
    if x >= |G.F| {
      FromInner(G.leaves, G.hist, |G.F|, Root(G), 0);
      var k := x - |G.F|;
      NumberedAt(G.leaves, G.hist, |G.F|, k);
      DepthAt(G.hist, D, Root(G), k);
      FreshPair(G.leaves, G.hist, |G.F|, Root(G), k);
      FromGrows(G.hist, Root(G), 0, k);
      FromNext(G.hist, Root(G), k);
      ShallowerThanLeaf(G, D, maxLen, G.hist[k].n);
    }
  }

  lemma {:induction false} FromGrows(hist: seq<Merge>, root: nat, j: nat, k: nat)
    requires j <= k <= |hist|
    ensures From(hist, root, k) <= From(hist, root, j)
    decreases k - j
  {
    hide *;
    FromNext(hist, root, j);
    if j < k { FromGrows(hist, root, j + 1, k); }
  }

  lemma {:induction false} FromInner(leaves: set<nat>, hist: seq<Merge>, elems: nat, root: nat, k: nat)
    requires Numbered(leaves, hist, elems) && k <= |hist| && |hist| >= 1 && root == elems + |hist| - 1
    ensures forall x :: x in From(hist, root, k) ==> x < elems + |hist|
    decreases |hist| - k
  {
    hide *;
    FromNext(hist, root, k);
    if k < |hist| {
      FromInner(leaves, hist, elems, root, k + 1);
      Gone(leaves, hist, elems, k, k + 1);
    }
  }
}
