/** Huffman's theorem: lengths that come from merging two least weights again and again cost the least of
    all lengths that satisfy Kraft's inequality. */
module Huffman {
  import opened Bits
  import opened Sums

  // ---- Kraft's inequality and the cost of code lengths

  function Share(len: nat, D: nat): nat { if len <= D then Pow2(D - len) else 0 }

  function Shares(lens: seq<nat>, D: nat): (s: seq<int>)
    ensures |s| == |lens| && forall i :: 0 <= i < |lens| ==> s[i] == Share(lens[i], D)
  {
    seq(|lens|, i requires 0 <= i < |lens| => Share(lens[i], D))
  }

  function Product(a: nat, b: nat): nat { a * b }

  function Costs(w: seq<nat>, lens: seq<nat>): (s: seq<int>)
    requires |w| == |lens|
    ensures |s| == |lens| && forall i :: 0 <= i < |lens| ==> s[i] == Product(w[i], lens[i])
  {
    seq(|lens|, i requires 0 <= i < |lens| => Product(w[i], lens[i]))
  }

  function Kraft(L: set<nat>, lens: seq<nat>, D: nat): int { Total(L, Shares(lens, D)) }

  function Cost(L: set<nat>, w: seq<nat>, lens: seq<nat>): int
    requires |w| == |lens|
  {
    Total(L, Costs(w, lens))
  }

  /** Lengths up to D for the members of L that a prefix code can have. */
  ghost predicate Feasible(L: set<nat>, lens: seq<nat>, D: nat) {
    (forall i :: i in L ==> i < |lens|) && (forall i :: i in L ==> lens[i] <= D) && Kraft(L, lens, D) <= Pow2(D)
  }

  /** No prefix code for L costs less. */
  ghost predicate Optimal(L: set<nat>, w: seq<nat>, lens: seq<nat>) {
    |w| == |lens|
    && forall other: seq<nat>, D: nat :: |other| == |w| && Feasible(L, other, D) ==> Cost(L, w, lens) <= Cost(L, w, other)
  }

  /** Lengths that a prefix code for L can have, and none costs less. */
  ghost predicate Best(L: set<nat>, w: seq<nat>, lens: seq<nat>) {
    Optimal(L, w, lens) && exists D: nat :: Feasible(L, lens, D)
  }

  // ---- Changing one length

  lemma KraftChange(L: set<nat>, lens: seq<nat>, D: nat, z: nat, v: nat)
    requires z < |lens|
    ensures Kraft(L, lens[z := v], D) == Kraft(L, lens, D) + if z in L then Share(v, D) - Share(lens[z], D) else 0
  {
    hide Share;
    assert Shares(lens[z := v], D) == Shares(lens, D)[z := Share(v, D)];
    SumUpdate(L, Shares(lens, D), z, Share(v, D), |lens|);
  }

  lemma CostChange(L: set<nat>, w: seq<nat>, lens: seq<nat>, z: nat, v: nat)
    requires z < |lens| == |w|
    ensures Cost(L, w, lens[z := v]) == Cost(L, w, lens) + if z in L then Product(w[z], v) - Product(w[z], lens[z]) else 0
  {
    hide Product;
    assert Costs(w, lens[z := v]) == Costs(w, lens)[z := Product(w[z], v)];
    SumUpdate(L, Costs(w, lens), z, Product(w[z], v), |lens|);
  }

  function Swapped(lens: seq<nat>, x: nat, y: nat): (s: seq<nat>)
    requires x < |lens| && y < |lens|
    ensures |s| == |lens|
  {
    lens[x := lens[y]][y := lens[x]]
  }

  /** Giving the longer of two lengths to the lighter of two symbols costs no more. */
  lemma SwapCheaper(L: set<nat>, w: seq<nat>, lens: seq<nat>, D: nat, x: nat, y: nat)
    requires |w| == |lens| && Feasible(L, lens, D) && x in L && y in L && w[x] <= w[y] && lens[x] <= lens[y]
    ensures Feasible(L, Swapped(lens, x, y), D) && Cost(L, w, Swapped(lens, x, y)) <= Cost(L, w, lens)
  {
    hide Kraft, Cost;
    var mid := lens[x := lens[y]];
    KraftChange(L, lens, D, x, lens[y]);
    KraftChange(L, mid, D, y, lens[x]);
    CostChange(L, w, lens, x, lens[y]);
    CostChange(L, w, mid, y, lens[x]);
    Rearrange(w[x], w[y], lens[x], lens[y]);
    hide Share, Product;
  }

  lemma Rearrange(a: nat, b: nat, s: nat, t: nat)
    requires a <= b && s <= t
    ensures Product(a, t) + Product(b, s) <= Product(a, s) + Product(b, t)
  {
    var d: nat := t - s;
    assert a * (s + d) == a * s + a * d && b * (s + d) == b * s + b * d;
    assert a * d <= b * d by { MulLe(a, b, d); }
  }

  // ---- Two symbols of the greatest length

  lemma {:induction false} Longest(L: set<nat>, lens: seq<nat>) returns (a: nat)
    requires L != {} && forall i :: i in L ==> i < |lens|
    ensures a in L && forall i :: i in L ==> lens[i] <= lens[a]
    decreases |L|
  {
    var x :| x in L;
    if L == {x} {
      a := x;
    } else {
      var rest := L - {x};
      a := Longest(rest, lens);
      forall i | i in L ensures lens[i] <= if lens[a] < lens[x] then lens[x] else lens[a] {
        if i != x { assert i in rest; }
      }
      if lens[a] < lens[x] { a := x; }
    }
  }

  lemma ShareMultiple(len: nat, j: nat, D: nat)
    requires len <= j <= D
    ensures Share(len, D) == Pow2(j - len) * Share(j, D)
  {
    Pow2Add(j - len, D - j);
  }

  lemma NextMultiple(q: int, p: nat, s: nat, r: nat)
    requires p > 0 && r > 0 && q * p + r <= s * p
    ensures q * p + p <= s * p
  {
    TimesAtMost(s, q, p);
    TimesAtMost(q + 1, s, p);
    Distribute(q, 1, p);
  }

  lemma TimesAtMost(a: int, b: int, p: int)
    requires p >= 0
    ensures a <= b ==> a * p <= b * p
  {}

  lemma TotalLength(L: set<nat>, lens: seq<nat>, D: nat, a: nat)
    requires a in L && a < |lens|
    ensures Kraft(L, lens, D) == Kraft(L - {a}, lens, D) + Share(lens[a], D)
  {
    DropMember(L, a, Shares(lens, D));
    hide Share;
  }

  /** A symbol longer than all others can be as short as the longest of them. */
  lemma ShortenFeasible(L: set<nat>, lens: seq<nat>, D: nat, a: nat, j: nat)
    requires Feasible(L, lens, D) && a in L && j < lens[a] && forall i :: i in L && i != a ==> lens[i] <= j
    ensures Feasible(L, lens[a := j], D)
  {
    var rest, p := L - {a}, Share(j, D);
    var g := Shares(lens, D);
    TotalLength(L, lens, D, a);
    KraftChange(L, lens, D, a, j);
    ShareMultiple(0, j, D);
    var s := Pow2(j);
    forall i | 0 <= i < |g| && i in rest
      ensures exists k: int :: g[i] == k * p
    {
      ShareMultiple(lens[i], j, D);
      var k: int := Pow2(j - lens[i]);
      assert g[i] == k * p;
    }
    var q := SumMultiple(rest, g, |g|, p);
    NextMultiple(q, p, s, Share(lens[a], D));
    hide Kraft;
  }

  lemma ShortenCheaper(L: set<nat>, w: seq<nat>, lens: seq<nat>, a: nat, j: nat)
    requires a < |lens| == |w| && j <= lens[a]
    ensures Cost(L, w, lens[a := j]) <= Cost(L, w, lens)
  {
    CostChange(L, w, lens, a, j);
    MulLe(j, lens[a], w[a]);
    assert w[a] * j <= w[a] * lens[a];
    hide Cost;
  }

  /** n and m share the greatest length, which is not 0. */
  ghost predicate Siblings(L: set<nat>, lens: seq<nat>, n: nat, m: nat) {
    n < |lens| && m < |lens| && n in L && m in L && 1 <= lens[n] == lens[m]
  }

  lemma NotBothZero(L: set<nat>, lens: seq<nat>, D: nat, a: nat, b: nat)
    requires Feasible(L, lens, D) && a in L && b in L && a != b
    ensures lens[a] > 0 || lens[b] > 0
  {
    TotalLength(L, lens, D, a);
    TotalLength(L - {a}, lens, D, b);
    SumNonNegative(L - {a} - {b}, Shares(lens, D), |lens|);
    assert Share(0, D) == Pow2(D);
    hide Kraft, Shares;
  }

  /** Two least weights can be given the same greatest length at no cost. */
  lemma MakeSiblings(L: set<nat>, w: seq<nat>, lens: seq<nat>, D: nat, n: nat, m: nat) returns (r: seq<nat>)
    requires |w| == |lens| && Feasible(L, lens, D) && n in L && m in L && n != m
    requires (forall x :: x in L ==> w[n] <= w[x]) && forall x :: x in L && x != n ==> w[m] <= w[x]
    ensures |r| == |lens| && Feasible(L, r, D) && Siblings(L, r, n, m) && Cost(L, w, r) <= Cost(L, w, lens)
  {
    hide Cost;
    var a := Longest(L, lens);
    assert L - {a} != {} by { assert n in L - {a} || m in L - {a}; }
    var b := Longest(L - {a}, lens);
    r := lens;
    if lens[b] < lens[a] {
      ShortenFeasible(L, lens, D, a, lens[b]);
      ShortenCheaper(L, w, lens, a, lens[b]);
      r := lens[a := lens[b]];
    }
    hide Feasible;
    FeasibleRange(L, r, D);
    assert r[a] == r[b] && forall i :: i in L ==> r[i] <= r[a];
    NotBothZero(L, r, D, a, b);
    if n == b {
      SwapCheaper(L, w, r, D, m, a);
      r := Swapped(r, m, a);
    } else {
      SwapCheaper(L, w, r, D, n, a);
      r := Swapped(r, n, a);
      SwapCheaper(L, w, r, D, m, b);
      r := Swapped(r, m, b);
    }
  }

  lemma FeasibleRange(L: set<nat>, lens: seq<nat>, D: nat)
    requires Feasible(L, lens, D)
    ensures forall i :: i in L ==> i < |lens|
  {}

  // ---- One merge

  /** z stands for n and m after they are merged. */
  function Merged(L: set<nat>, n: nat, m: nat, z: nat): set<nat> { L - {n} - {m} + {z} }

  lemma MergedTotal(L: set<nat>, g: seq<int>, n: nat, m: nat, z: nat)
    requires n < |g| && m < |g| && z < |g| && n in L && m in L && n != m && z !in L
    ensures Total(Merged(L, n, m, z), g) == Total(L, g) - g[n] - g[m] + g[z]
  {
    DropMember(L, n, g);
    DropMember(L - {n}, m, g);
    AddMember(L - {n} - {m}, z, g);
    hide Total;
  }

  lemma HalfShare(len: nat, D: nat)
    requires 1 <= len <= D
    ensures Share(len - 1, D) == Share(len, D) + Share(len, D)
  {}

  lemma ProductStep(a: nat, b: nat, len: nat)
    ensures Product(a + b, len) + a + b == Product(a, len + 1) + Product(b, len + 1)
  {
    assert (a + b) * len == a * len + b * len;
    assert a * (len + 1) == a * len + a && b * (len + 1) == b * len + b;
  }

  /** What a merge does to feasibility and cost. */
  lemma MergeCost(L: set<nat>, w: seq<nat>, lens: seq<nat>, n: nat, m: nat, z: nat)
    requires |w| == |lens| && z < |lens| && z !in L && n in L && m in L && n != m && n < |lens| && m < |lens|
    requires w[z] == w[n] + w[m] && lens[n] == lens[m] == lens[z] + 1
    ensures Cost(L, w, lens) == Cost(Merged(L, n, m, z), w, lens) + w[n] + w[m]
  {
    MergedTotal(L, Costs(w, lens), n, m, z);
    ProductStep(w[n], w[m], lens[z]);
    hide Total, Product;
  }

  lemma MergeFeasible(L: set<nat>, lens: seq<nat>, D: nat, n: nat, m: nat, z: nat)
    requires Feasible(L, lens, D) && z < |lens| && z !in L && n in L && m in L && n != m
    requires lens[n] == lens[m] == lens[z] + 1
    ensures Feasible(Merged(L, n, m, z), lens, D)
  {
    MergedTotal(L, Shares(lens, D), n, m, z);
    HalfShare(lens[n], D);
    hide Total, Share;
  }

  /** Optimal lengths after a merge of two least weights come from optimal lengths before it. */
  lemma MergeOptimal(L: set<nat>, w: seq<nat>, lens: seq<nat>, n: nat, m: nat, z: nat)
    requires Optimal(Merged(L, n, m, z), w, lens) && |w| == |lens| && z < |lens| && z !in L
    requires n in L && m in L && n != m && n < |lens| && m < |lens|
    requires (forall x :: x in L ==> x < |w| && w[n] <= w[x]) && forall x :: x in L && x != n ==> x < |w| && w[m] <= w[x]
    requires w[z] == w[n] + w[m] && lens[n] == lens[m] == lens[z] + 1
    ensures Optimal(L, w, lens)
  {
    forall other: seq<nat>, D: nat | |other| == |w| && Feasible(L, other, D)
      ensures Cost(L, w, lens) <= Cost(L, w, other)
    {
      hide Cost, Feasible, Merged;
      var r := MakeSiblings(L, w, other, D, n, m);
      var s := r[z := r[n] - 1];
      SameOutside(L, w, r, s, D, z, r[n] - 1);
      MergeFeasible(L, s, D, n, m, z);
      MergeCost(L, w, s, n, m, z);
      MergeCost(L, w, lens, n, m, z);
    }
  }

  /** A length outside L does not matter. */
  lemma SameOutside(L: set<nat>, w: seq<nat>, r: seq<nat>, s: seq<nat>, D: nat, z: nat, v: nat)
    requires |w| == |r| && z < |r| && z !in L && s == r[z := v] && Feasible(L, r, D)
    ensures Feasible(L, s, D) && Cost(L, w, s) == Cost(L, w, r)
  {
    KraftChange(L, r, D, z, v);
    CostChange(L, w, r, z, v);
    hide Kraft, Cost;
  }

  // ---- A whole run of merges

  datatype Merge = Merge(n: nat, m: nat, z: nat)

  /** The nodes without a parent after the first k merges. */
  ghost function Live(leaves: set<nat>, hist: seq<Merge>, k: nat): set<nat>
    requires k <= |hist|
  {
    if k == 0 then leaves else Merged(Live(leaves, hist, k - 1), hist[k - 1].n, hist[k - 1].m, hist[k - 1].z)
  }

  /** Step k merges two of the nodes there are into a new one. */
  ghost predicate Joins(leaves: set<nat>, hist: seq<Merge>, w: seq<nat>, k: nat)
    requires k < |hist|
  {
    var L, s := Live(leaves, hist, k), hist[k];
    s.n in L && s.m in L && s.n != s.m && s.z !in L && s.n < |w| && s.m < |w| && s.z < |w|
    && w[s.z] == w[s.n] + w[s.m]
  }

  /** They are the two of least weight. */
  ghost predicate JoinsLeast(leaves: set<nat>, hist: seq<Merge>, w: seq<nat>, k: nat)
    requires k < |hist|
  {
    var L, s := Live(leaves, hist, k), hist[k];
    s.n < |w| && s.m < |w| && (forall x :: x in L ==> x < |w| && w[s.n] <= w[x])
    && forall x :: x in L && x != s.n ==> x < |w| && w[s.m] <= w[x]
  }

  ghost predicate History(leaves: set<nat>, hist: seq<Merge>, w: seq<nat>, root: nat) {
    Live(leaves, hist, |hist|) == {root} && root < |w|
    && (forall k :: 0 <= k < |hist| ==> Joins(leaves, hist, w, k))
    && forall k :: 0 <= k < |hist| ==> JoinsLeast(leaves, hist, w, k)
  }

  /** Each merged node lies one below the node it was merged into. */
  ghost predicate Depths(hist: seq<Merge>, lens: seq<nat>, root: nat) {
    root < |lens| && lens[root] == 0
    && forall k :: 0 <= k < |hist| ==>
         hist[k].n < |lens| && hist[k].m < |lens| && hist[k].z < |lens|
         && lens[hist[k].n] == lens[hist[k].m] == lens[hist[k].z] + 1
  }

  lemma RootOptimal(root: nat, w: seq<nat>, lens: seq<nat>)
    requires root < |lens| == |w| && lens[root] == 0
    ensures Optimal({root}, w, lens)
  {
    TotalOne(root, Costs(w, lens));
    assert Product(w[root], 0) == 0;
    forall other: seq<nat>, D: nat | |other| == |w| && Feasible({root}, other, D)
      ensures Cost({root}, w, lens) <= Cost({root}, w, other)
    {
      SumNonNegative({root}, Costs(w, other), |w|);
    }
  }

  lemma {:induction false} OptimalAt(leaves: set<nat>, hist: seq<Merge>, w: seq<nat>, lens: seq<nat>, root: nat, k: nat)
    requires History(leaves, hist, w, root) && Depths(hist, lens, root) && |w| == |lens| && k <= |hist|
    ensures Optimal(Live(leaves, hist, k), w, lens)
    decreases |hist| - k
  {
    if k == |hist| {
      RootOptimal(root, w, lens);
    } else {
      OptimalAt(leaves, hist, w, lens, root, k + 1);
      assert Joins(leaves, hist, w, k) && JoinsLeast(leaves, hist, w, k);
      hide Optimal, Merged;
      MergeOptimal(Live(leaves, hist, k), w, lens, hist[k].n, hist[k].m, hist[k].z);
    }
  }

  /** Huffman's theorem. */
  lemma HuffmanOptimal(leaves: set<nat>, hist: seq<Merge>, w: seq<nat>, lens: seq<nat>, root: nat)
    requires History(leaves, hist, w, root) && Depths(hist, lens, root) && |w| == |lens|
    ensures Optimal(leaves, w, lens)
  {
    OptimalAt(leaves, hist, w, lens, root, 0);
  }
}
