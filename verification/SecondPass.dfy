/** The last pass of gen_bitlen: lengths handed out anew, the longest to the least frequent symbols. */
module SecondPass {
  import opened Bits
  import opened PrefixCodes
  import opened Sums
  import opened Huffman
  import opened HuffmanRuns
  import opened Trees
  import opened Merging
  import opened BitLengths
  import opened FirstPass

  function Dls(t: seq<CtData>): (s: seq<nat>)
    ensures |s| == |t| && forall i :: 0 <= i < |t| ==> s[i] == t[i].dl
  {
    Lens(t, |t|)
  }

  /** The leaves among heap[h..] are done. */
  ghost predicate DoneFrom(G: Grown, h: nat, done: set<nat>) {
    G.max < h <= |G.heap| && done <= G.leaves
    && (forall i :: h <= i < |G.heap| && G.heap[i] in G.leaves ==> G.heap[i] in done)
    && forall x :: x in done ==> exists i :: h <= i < |G.heap| && G.heap[i] == x
  }

  /** Their lengths are at least `bits` and do not decrease towards the end. */
  ghost predicate Falling(G: Grown, t: seq<CtData>, h: nat, bits: nat) {
    (forall i :: h <= i < |G.heap| && G.heap[i] in G.leaves ==> G.heap[i] < |t| && t[G.heap[i]].dl >= bits)
    && (forall i, j :: (h <= i <= j < |G.heap| && G.heap[i] in G.leaves && G.heap[j] in G.leaves
                        && G.heap[i] < |t| && G.heap[j] < |t|) ==> t[G.heap[i]].dl <= t[G.heap[j]].dl)
  }

  function Expected(bl: seq<nat>, bits: nat, left: nat, b: nat): int
    requires bits < |bl| && b < |bl|
  {
    if b > bits then bl[b] else if b == bits then bl[b] - left else 0
  }

  /** So many codes of each length have been handed out. */
  ghost predicate HandedOut(t: seq<CtData>, bl: seq<nat>, bits: nat, left: nat, done: set<nat>) {
    |bl| == MAX_BITS + 1 && bits <= MAX_BITS
    && forall b :: 0 <= b <= MAX_BITS ==> Total(done, Ones(Dls(t), b)) == Expected(bl, bits, left, b)
  }

  /** Nothing else has changed. */
  ghost predicate OnlyDone(G: Grown, t0: seq<CtData>, t: seq<CtData>, done: set<nat>) {
    |t| == |t0| == |G.tree| && forall x :: 0 <= x < |t| ==> t[x].fc == t0[x].fc && (x !in done ==> t[x].dl == t0[x].dl)
  }

  ghost predicate Assigning(G: Grown, t0: seq<CtData>, t: seq<CtData>, maxLen: nat, bl: seq<nat>,
                            h: nat, bits: nat, left: nat, done: set<nat>)
  {
    DoneFrom(G, h, done) && Falling(G, t, h, bits) && HandedOut(t, bl, bits, left, done) && OnlyDone(G, t0, t, done)
    && |done| + left + (if bits == 0 then 0 else Codes(bl, bits - 1)) == |G.leaves|
    && (forall x :: x in done ==> x < |t| && t[x].dl <= maxLen) && bits <= maxLen <= MAX_BITS
  }

  lemma AssignStarts(G: Grown, t: seq<CtData>, maxLen: nat, bl: seq<nat>)
    requires |t| == |G.tree| && G.max < |G.heap| && 1 <= maxLen <= MAX_BITS && |bl| == MAX_BITS + 1
    requires (forall b :: maxLen < b <= MAX_BITS ==> bl[b] == 0) && Codes(bl, MAX_BITS) == |G.leaves|
    ensures Assigning(G, t, t, maxLen, bl, |G.heap|, maxLen, bl[maxLen], {})
  {
    forall b | 0 <= b <= MAX_BITS
      ensures Total({}, Ones(Dls(t), b)) == Expected(bl, maxLen, bl[maxLen], b)
    {
      SumZero({}, Ones(Dls(t), b), |t|);
    }
    CodesFrom(bl, maxLen, MAX_BITS);
    hide Total;
  }

  lemma {:induction false} CodesFrom(bl: seq<nat>, k: nat, n: nat)
    requires 1 <= k <= n < |bl| && forall b :: k < b <= n ==> bl[b] == 0
    ensures Codes(bl, n) == Codes(bl, k - 1) + bl[k]
  {
    if n > k { CodesFrom(bl, k, n - 1); }
  }

  /** The next shorter length. */
  lemma AssignShorter(G: Grown, t0: seq<CtData>, t: seq<CtData>, maxLen: nat, bl: seq<nat>, h: nat, bits: nat, done: set<nat>)
    requires Assigning(G, t0, t, maxLen, bl, h, bits, 0, done) && bits >= 1 && |bl| > 0 && bl[0] == 0
    ensures |bl| == MAX_BITS + 1 && bits <= MAX_BITS
    ensures Assigning(G, t0, t, maxLen, bl, h, bits - 1, bl[bits - 1], done)
  {
    hide Total, DoneFrom, OnlyDone;
    if bits > 1 {
      CodesFrom(bl, bits - 1, bits - 1);
    }
  }

  lemma AssignFacts(G: Grown, t0: seq<CtData>, t: seq<CtData>, maxLen: nat, bl: seq<nat>, h: nat, bits: nat, left: nat, done: set<nat>)
    requires Assigning(G, t0, t, maxLen, bl, h, bits, left, done)
    ensures G.max < h <= |G.heap| && |bl| == MAX_BITS + 1 && |t| == |t0| == |G.tree| && bits <= maxLen <= MAX_BITS
    ensures forall x :: 0 <= x < |t| ==> t[x].fc == t0[x].fc
    ensures done <= G.leaves
  {
    hide Total, Falling, Expected;
  }

  /** With codes left to hand out there is a leaf left to give one to. */
  lemma LeafLeft(G: Grown, t0: seq<CtData>, t: seq<CtData>, maxLen: nat, bl: seq<nat>, h: nat, bits: nat, left: nat, done: set<nat>)
    requires Assigning(G, t0, t, maxLen, bl, h, bits, left, done) && left > 0 && Listed(G.heap, G.max, G.leaves)
    ensures h - 1 > G.max
  {
    Difference(done, G.leaves);
    var x :| x in G.leaves - done;
    var i :| G.max < i < |G.heap| && G.heap[i] == x;
    hide Falling, HandedOut, OnlyDone;
  }

  /** An inner node is passed over. */
  lemma AssignInner(G: Grown, t0: seq<CtData>, t: seq<CtData>, maxLen: nat, bl: seq<nat>, h: nat, bits: nat, left: nat, done: set<nat>)
    requires Assigning(G, t0, t, maxLen, bl, h, bits, left, done) && h - 1 > G.max && G.heap[h - 1] !in G.leaves
    ensures Assigning(G, t0, t, maxLen, bl, h - 1, bits, left, done)
  {
    hide Total, HandedOut, OnlyDone;
  }

  lemma DoneLeaf(G: Grown, h: nat, done: set<nat>)
    requires DoneFrom(G, h, done) && h - 1 > G.max && G.heap[h - 1] in G.leaves && Listed(G.heap, G.max, G.leaves)
    ensures G.heap[h - 1] !in done && DoneFrom(G, h - 1, done + {G.heap[h - 1]})
    ensures forall i :: h <= i < |G.heap| ==> G.heap[i] != G.heap[h - 1]
  {
    var m := G.heap[h - 1];
    assert forall i :: h <= i < |G.heap| ==> G.heap[i] != m;
    forall x | x in done + {m}
      ensures exists i :: h - 1 <= i < |G.heap| && G.heap[i] == x
    {
      if x == m {
        assert G.heap[h - 1] == x;
      } else {
        var i :| h <= i < |G.heap| && G.heap[i] == x;
        assert h - 1 <= i;
      }
    }
  }

  lemma FallingLeaf(G: Grown, t: seq<CtData>, h: nat, bits: nat)
    requires Falling(G, t, h, bits) && 1 <= h <= |G.heap| && G.heap[h - 1] < |t|
    requires forall i :: h <= i < |G.heap| ==> G.heap[i] != G.heap[h - 1]
    ensures var m := G.heap[h - 1];
            Falling(G, t[m := t[m].(dl := bits)], h - 1, bits)
  {}

  lemma HandOne(t: seq<CtData>, bl: seq<nat>, bits: nat, left: nat, done: set<nat>, m: nat)
    requires HandedOut(t, bl, bits, left, done) && left > 0 && m < |t| && m !in done
    ensures HandedOut(t[m := t[m].(dl := bits)], bl, bits, left - 1, done + {m})
  {
    var t' := t[m := t[m].(dl := bits)];
    forall b | 0 <= b <= MAX_BITS
      ensures Total(done + {m}, Ones(Dls(t'), b)) == Expected(bl, bits, left - 1, b)
    {
      var g, g' := Ones(Dls(t), b), Ones(Dls(t'), b);
      SumSame(done, done, g, g', |t|);
      AddMember(done, m, g');
      hide Total;
    }
  }

  /** A leaf gets the length being handed out. */
  lemma AssignLeaf(G: Grown, t0: seq<CtData>, t: seq<CtData>, maxLen: nat, bl: seq<nat>, h: nat, bits: nat, left: nat, done: set<nat>)
    requires Assigning(G, t0, t, maxLen, bl, h, bits, left, done) && left > 0 && Listed(G.heap, G.max, G.leaves)
    requires h - 1 > G.max && G.heap[h - 1] in G.leaves && G.heap[h - 1] < |t|
    ensures var m := G.heap[h - 1];
            m !in done && Assigning(G, t0, t[m := t[m].(dl := bits)], maxLen, bl, h - 1, bits, left - 1, done + {m})
  {
    hide DoneFrom, Falling, HandedOut, Listed;
    AssignFacts(G, t0, t, maxLen, bl, h, bits, left, done);
    DoneLeaf(G, h, done);
    FallingLeaf(G, t, h, bits);
    HandOne(t, bl, bits, left, done, G.heap[h - 1]);
  }

  /** What opt_len gains. */
  lemma CostMoves(L: set<nat>, F: seq<nat>, X: seq<nat>, t: seq<CtData>, m: nat, bits: nat)
    requires |F| == |X| <= |t| && m in L && m < |F|
    ensures Cost(L, F, BitsOf(Dls(t[m := t[m].(dl := bits)]), X))
            == Cost(L, F, BitsOf(Dls(t), X)) + (bits - t[m].dl) * F[m]
  {
    var b := BitsOf(Dls(t), X);
    assert BitsOf(Dls(t[m := t[m].(dl := bits)]), X) == b[m := bits + X[m]];
    CostChange(L, F, b, m, bits + X[m]);
    hide Cost, Dls, BitsOf;
    ProductDiff(F[m], bits, t[m].dl, X[m]);
  }

  lemma ProductDiff(w: nat, a: nat, b: nat, x: nat)
    ensures Product(w, a + x) - Product(w, b + x) == (a - b) * w
  {}

  /** All leaves are done once all codes are handed out. */
  lemma AssignEnds(G: Grown, t0: seq<CtData>, t: seq<CtData>, maxLen: nat, bl: seq<nat>, h: nat, done: set<nat>)
    requires Assigning(G, t0, t, maxLen, bl, h, 0, 0, done) && Listed(G.heap, G.max, G.leaves) && |bl| > 0 && bl[0] == 0
    ensures done == G.leaves && Counted(G.leaves, Dls(t), bl)
    ensures forall x :: x in G.leaves ==> x < |t| && t[x].dl <= maxLen
    ensures |t| == |t0| && forall x :: 0 <= x < |t| ==> t[x].fc == t0[x].fc && (x !in G.leaves ==> t[x].dl == t0[x].dl)
    ensures Falling(G, t, h, 0) && G.max < h
    ensures forall i :: G.max < i < h && i < |G.heap| ==> G.heap[i] !in G.leaves
  {
    assert done == G.leaves by { SameSize(done, G.leaves); }
    forall i | G.max < i < h && i < |G.heap|
      ensures G.heap[i] !in G.leaves
    {
      assert forall j :: h <= j < |G.heap| ==> G.heap[j] != G.heap[i];
    }
    hide Total, Falling;
  }

  lemma SameSize(a: set<nat>, b: set<nat>)
    requires a <= b && |a| == |b|
    ensures a == b
  {
    Difference(a, b);
    assert b - a == {};
    forall x | x in b
      ensures x in a
    {
      assert x !in b - a;
    }
  }

  lemma Difference(a: set<nat>, b: set<nat>)
    requires a <= b
    ensures |b - a| == |b| - |a|
  {
    assert b == a + (b - a);
  }

  /** A more frequent symbol never has the longer code. */
  lemma FrequentShorter(G: Grown, t: seq<CtData>, h: nat, x: nat, y: nat)
    requires GrownOk(G) && Falling(G, t, h, 0) && G.max < h && x in G.leaves && y in G.leaves && x < |t| && y < |t|
    requires forall i :: G.max < i < h && i < |G.heap| ==> G.heap[i] !in G.leaves
    requires x < |G.F| && y < |G.F| && G.F[x] < G.F[y]
    ensures t[y].dl <= t[x].dl
  {
    GrownFacts(G);
    hide GrownOk;
    AllListed(G.tree, G.heap, G.max, G.leaves, G.hist, G.F);
    var i :| G.max < i < |G.heap| && G.heap[i] == x;
    var j :| G.max < j < |G.heap| && G.heap[j] == y;
    hide Live, Numbered, PlacedOk, AllJoin, DadsOk;
    assert j <= i;
  }

  // ---- The lengths as a list

  lemma {:induction false} CountsAgree(L: set<nat>, t: seq<CtData>, n: nat, k: nat, b: nat)
    requires k <= n <= |t| && b >= 1 && forall i :: 0 <= i < n && i !in L ==> t[i].dl == 0
    ensures CountTo(Lens(t, n), k, b) == SumIn(L, Ones(Dls(t), b), k)
  {
    if k > 0 { CountsAgree(L, t, n, k - 1, b); }
  }

  lemma {:induction false} SumBeyond(L: set<nat>, g: seq<int>, k: nat, n: nat)
    requires k <= n <= |g| && forall i :: k <= i < n ==> i !in L
    ensures SumIn(L, g, n) == SumIn(L, g, k)
  {
    if k < n { SumBeyond(L, g, k, n - 1); }
  }

  /** The counts are those of the list of lengths, which is a complete code. */
  lemma ListComplete(L: set<nat>, t: seq<CtData>, n: nat, bl: seq<nat>)
    requires n <= |t| && (forall x :: x in L ==> x < n) && Counted(L, Dls(t), bl) && Spread(bl, MAX_BITS) == Pow2(M)
    requires forall i :: 0 <= i < n && i !in L ==> t[i].dl == 0
    requires forall i :: 0 <= i < n ==> t[i].dl <= MAX_BITS
    ensures Complete(Lens(t, n)) && forall b :: 1 <= b <= MAX_BITS ==> bl[b] == Count(Lens(t, n), b)
  {
    var lens := Lens(t, n);
    forall b | 1 <= b <= MAX_BITS
      ensures bl[b] == Count(lens, b)
    {
      CountDealt(L, t, n, bl, b);
    }
    FilledSpread(lens, bl, MAX_BITS);
    NoneOf(lens, n, M);
    FilledNext(lens, M);
    hide Filled, CountTo, Spread, Counted, Dls, Pow2;
  }

  lemma CountDealt(L: set<nat>, t: seq<CtData>, n: nat, bl: seq<nat>, b: nat)
    requires n <= |t| && (forall x :: x in L ==> x < n) && Counted(L, Dls(t), bl) && 1 <= b <= MAX_BITS
    requires forall i :: 0 <= i < n && i !in L ==> t[i].dl == 0
    ensures bl[b] == Count(Lens(t, n), b)
  {
    CountsAgree(L, t, n, n, b);
    SumBeyond(L, Ones(Dls(t), b), n, |t|);
    hide CountTo, Pow2;
  }

  // ---- Small facts for gen_bitlen

  lemma CountedSame(L: set<nat>, a: seq<nat>, b: seq<nat>, bl: seq<nat>)
    requires Counted(L, a, bl) && |a| == |b| && forall x :: x in L ==> x < |a| && a[x] == b[x]
    ensures Counted(L, b, bl)
  {
    forall k | 0 <= k <= MAX_BITS
      ensures bl[k] == Total(L, Ones(b, k))
    {
      SumSame(L, L, Ones(a, k), Ones(b, k), |a|);
    }
  }

  lemma CostSame(L: set<nat>, F: seq<nat>, X: seq<nat>, a: seq<nat>, b: seq<nat>)
    requires |F| == |X| <= |a| && |X| <= |b| && forall x :: x in L && x < |X| ==> a[x] == b[x]
    ensures Cost(L, F, BitsOf(a, X)) == Cost(L, F, BitsOf(b, X))
  {
    SumSame(L, L, Costs(F, BitsOf(a, X)), Costs(F, BitsOf(b, X)), |F|);
  }

  lemma NoneEmpty(L: set<nat>, lens: seq<nat>, bl: seq<nat>, x: nat)
    requires Counted(L, lens, bl) && bl[0] == 0 && x in L && x < |lens|
    ensures lens[x] >= 1
  {
    MemberLe(L, x, Ones(lens, 0));
    hide Total;
  }

  /** The lengths gen_bitlen gives to a tree. */
  ghost predicate Lengthened(G: Grown, D: seq<nat>, t: seq<CtData>, maxLen: nat, bl: seq<nat>) {
    |t| == |G.tree| == |D| && (forall x :: 0 <= x < |t| ==> t[x].fc == G.tree[x].fc)
    && (forall x :: x in G.leaves ==> x < |G.F| && x < |t| && 1 <= t[x].dl <= maxLen)
    && (forall x :: 0 <= x < |G.F| && x < |t| && x !in G.leaves ==> t[x].dl == 0)
    && Counted(G.leaves, Dls(t), bl) && bl[0] == 0 && Spread(bl, MAX_BITS) == Pow2(M)
  }

  /** They are the depths when no depth is too great; otherwise none is longer for being more frequent. */
  ghost predicate Limited(G: Grown, D: seq<nat>, t: seq<CtData>, maxLen: nat) {
    if forall x :: x in G.leaves && x < |D| ==> D[x] <= maxLen then
      forall x :: x in G.leaves && x < |D| && x < |t| ==> t[x].dl == D[x]
    else
      forall x, y :: x in G.leaves && y in G.leaves && x < |t| && y < |t| && x < |G.F| && y < |G.F| && G.F[x] < G.F[y]
                     ==> t[y].dl <= t[x].dl
  }

  lemma UncutLengths(G: Grown, D: seq<nat>, t: seq<CtData>, maxLen: nat, bl: seq<nat>, X: seq<nat>)
    requires GrownOk(G) && Deep(G, D) && 1 <= maxLen && Counted(G.leaves, Capped(D, maxLen), bl) && bl[0] == 0
    requires |t| == |G.tree| && (forall x :: 0 <= x < |t| ==> t[x].fc == G.tree[x].fc)
    requires forall x :: x in G.leaves ==> x < |t| && x < |D| && t[x].dl == Cut(D[x], maxLen)
    requires forall x :: 0 <= x < |G.F| && x < |t| && x !in G.leaves ==> t[x].dl == 0
    requires |X| == |G.F|
    ensures |D| == |t| && |G.F| <= |t| && Counted(G.leaves, Dls(t), bl)
    ensures Cost(G.leaves, G.F, BitsOf(Capped(D, maxLen), X)) == Cost(G.leaves, G.F, BitsOf(Dls(t), X))
    ensures Spread(bl, MAX_BITS) == Pow2(M) ==> Lengthened(G, D, t, maxLen, bl)
    ensures (forall x :: x in G.leaves ==> D[x] <= maxLen) ==> Limited(G, D, t, maxLen)
  {
    hide *;
    GrownFacts(G);
    DeepIs(G, D);
    AllDeep(G, D);
    CappedIs(D, maxLen);
    CountedSame(G.leaves, Capped(D, maxLen), Dls(t), bl);
    CostSame(G.leaves, G.F, X, Capped(D, maxLen), Dls(t));
    UncutRange(G, D, t, maxLen);
    LengthenedIs(G, D, t, maxLen, bl);
    LimitedUncut(G, D, t, maxLen);
  }

  lemma CappedIs(D: seq<nat>, max: nat)
    ensures |Capped(D, max)| == |D| && forall i :: 0 <= i < |D| ==> Capped(D, max)[i] == Cut(D[i], max)
  {}

  lemma UncutRange(G: Grown, D: seq<nat>, t: seq<CtData>, maxLen: nat)
    requires 1 <= maxLen && forall x :: x in G.leaves ==> x < |t| && x < |D| && D[x] >= 1 && t[x].dl == Cut(D[x], maxLen)
    ensures forall x :: x in G.leaves ==> 1 <= t[x].dl <= maxLen
  {}

  lemma LengthenedIs(G: Grown, D: seq<nat>, t: seq<CtData>, maxLen: nat, bl: seq<nat>)
    requires |t| == |G.tree| == |D| && (forall x :: 0 <= x < |t| ==> t[x].fc == G.tree[x].fc) && |bl| == MAX_BITS + 1
    requires forall x :: x in G.leaves ==> x < |G.F| && x < |t| && 1 <= t[x].dl <= maxLen
    requires forall x :: 0 <= x < |G.F| && x < |t| && x !in G.leaves ==> t[x].dl == 0
    requires Counted(G.leaves, Dls(t), bl) && bl[0] == 0
    ensures Spread(bl, MAX_BITS) == Pow2(M) ==> Lengthened(G, D, t, maxLen, bl)
  {
    hide Counted, Spread, Pow2;
  }

  lemma LimitedUncut(G: Grown, D: seq<nat>, t: seq<CtData>, maxLen: nat)
    requires forall x :: x in G.leaves ==> x < |t| && x < |D| && t[x].dl == Cut(D[x], maxLen)
    ensures (forall x :: x in G.leaves ==> D[x] <= maxLen) ==> Limited(G, D, t, maxLen)
  {}

  lemma ReassignedLengths(G: Grown, D: seq<nat>, t: seq<CtData>, maxLen: nat, bl: seq<nat>, h: nat)
    requires GrownOk(G) && Deep(G, D) && Counted(G.leaves, Dls(t), bl) && bl[0] == 0 && Spread(bl, MAX_BITS) == Pow2(M)
    requires |t| == |G.tree| && (forall x :: 0 <= x < |t| ==> t[x].fc == G.tree[x].fc)
    requires forall x :: x in G.leaves ==> x < |t| && t[x].dl <= maxLen
    requires forall x :: 0 <= x < |G.F| && x < |t| && x !in G.leaves ==> t[x].dl == 0
    requires Falling(G, t, h, 0) && G.max < h && (forall i :: G.max < i < h && i < |G.heap| ==> G.heap[i] !in G.leaves)
    requires exists x :: x in G.leaves && (x < |D| ==> D[x] > maxLen)
    ensures Lengthened(G, D, t, maxLen, bl) && Limited(G, D, t, maxLen)
  {
    hide Counted, Spread, Pow2, Falling, GrownOk, Deep;
    DeepIs(G, D);
    AllDeep(G, D);
    forall x | x in G.leaves
      ensures 1 <= t[x].dl
    {
      NoneEmpty(G.leaves, Dls(t), bl, x);
    }
    forall x, y | x in G.leaves && y in G.leaves && x < |t| && y < |t| && x < |G.F| && y < |G.F| && G.F[x] < G.F[y]
      ensures t[y].dl <= t[x].dl
    {
      FrequentShorter(G, t, h, x, y);
    }
  }
}
