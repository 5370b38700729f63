/** A run of merges with new nodes numbered in order: which nodes each step leaves, how deep they end up,
    and what cutting the depths off at a greatest length does to Kraft's sum. */
module HuffmanRuns {
  import opened Bits
  import opened Sums
  import opened Huffman

  /** Step k joins two of the nodes there are into node elems + k. */
  ghost predicate Numbered(leaves: set<nat>, hist: seq<Merge>, elems: nat) {
    (forall x :: x in leaves ==> x < elems)
    && forall k :: 0 <= k < |hist| ==>
         hist[k].z == elems + k && hist[k].n in Live(leaves, hist, k) && hist[k].m in Live(leaves, hist, k)
         && hist[k].n != hist[k].m
  }

  lemma NumberedAt(leaves: set<nat>, hist: seq<Merge>, elems: nat, k: nat)
    requires Numbered(leaves, hist, elems) && k < |hist|
    ensures var s, L := hist[k], Live(leaves, hist, k);
            s.z == elems + k && s.n in L && s.m in L && s.n != s.m
  {
    hide Live;
  }

  lemma LiveNext(leaves: set<nat>, hist: seq<Merge>, k: nat)
    requires k < |hist|
    ensures Live(leaves, hist, k + 1) == Live(leaves, hist, k) - {hist[k].n} - {hist[k].m} + {hist[k].z}
  {}

  lemma LiveFirst(leaves: set<nat>, hist: seq<Merge>, elems: nat)
    requires Numbered(leaves, hist, elems)
    ensures Live(leaves, hist, 0) == leaves && forall x :: x in leaves ==> x < elems
  {}

  lemma {:induction false} LiveBound(leaves: set<nat>, hist: seq<Merge>, elems: nat, k: nat)
    requires Numbered(leaves, hist, elems) && k <= |hist|
    ensures forall x :: x in Live(leaves, hist, k) ==> x < elems + k && (x < elems ==> x in leaves)
  {
    hide *;
    if k == 0 {
      LiveFirst(leaves, hist, elems);
    } else {
      LiveBound(leaves, hist, elems, k - 1);
      NumberedAt(leaves, hist, elems, k - 1);
      LiveNext(leaves, hist, k - 1);
    }
  }

  /** A merged node does not come back. */
  lemma {:induction false} Gone(leaves: set<nat>, hist: seq<Merge>, elems: nat, k: nat, j: nat)
    requires Numbered(leaves, hist, elems) && k < j <= |hist|
    ensures hist[k].n !in Live(leaves, hist, j) && hist[k].m !in Live(leaves, hist, j)
    ensures hist[k].n < elems + k && hist[k].m < elems + k
    decreases j
  {
    hide *;
    LiveBound(leaves, hist, elems, k);
    NumberedAt(leaves, hist, elems, k);
    NumberedAt(leaves, hist, elems, j - 1);
    LiveNext(leaves, hist, j - 1);
    if j > k + 1 {
      Gone(leaves, hist, elems, k, j - 1);
    }
  }

  // ---- The nodes removed from some step on

  /** The nodes merged in step k or later, and the root. */
  ghost function From(hist: seq<Merge>, root: nat, k: nat): set<nat>
    requires k <= |hist|
    decreases |hist| - k
  {
    if k == |hist| then {root} else From(hist, root, k + 1) + {hist[k].m} + {hist[k].n}
  }

  lemma FromNext(hist: seq<Merge>, root: nat, k: nat)
    requires k <= |hist|
    ensures From(hist, root, k) == if k == |hist| then {root} else From(hist, root, k + 1) + {hist[k].m} + {hist[k].n}
  {}

  lemma {:induction false} LiveFrom(leaves: set<nat>, hist: seq<Merge>, elems: nat, root: nat, k: nat)
    requires Numbered(leaves, hist, elems) && Live(leaves, hist, |hist|) == {root} && k <= |hist|
    ensures Live(leaves, hist, k) <= From(hist, root, k)
    decreases |hist| - k
  {
    hide *;
    FromNext(hist, root, k);
    if k < |hist| {
      LiveFrom(leaves, hist, elems, root, k + 1);
      LiveNext(leaves, hist, k);
    }
  }

  /** No node is merged twice. */
  lemma {:induction false} NotAgain(leaves: set<nat>, hist: seq<Merge>, elems: nat, root: nat, k: nat, j: nat)
    requires Numbered(leaves, hist, elems) && Live(leaves, hist, |hist|) == {root} && k < j <= |hist|
    ensures hist[k].n !in From(hist, root, j) && hist[k].m !in From(hist, root, j)
    decreases |hist| - j
  {
    hide *;
    Gone(leaves, hist, elems, k, j);
    FromNext(hist, root, j);
    if j < |hist| {
      NumberedAt(leaves, hist, elems, j);
      NotAgain(leaves, hist, elems, root, k, j + 1);
    }
  }

  lemma FreshPair(leaves: set<nat>, hist: seq<Merge>, elems: nat, root: nat, k: nat)
    requires Numbered(leaves, hist, elems) && Live(leaves, hist, |hist|) == {root} && k < |hist|
    ensures var later := From(hist, root, k + 1);
            hist[k].m !in later && hist[k].n !in later + {hist[k].m} && hist[k].z in later
            && hist[k].n < elems + k && hist[k].m < elems + k && hist[k].z == elems + k
  {
    hide *;
    Gone(leaves, hist, elems, k, k + 1);
    NotAgain(leaves, hist, elems, root, k, k + 1);
    LiveFrom(leaves, hist, elems, root, k + 1);
    LiveNext(leaves, hist, k);
    NumberedAt(leaves, hist, elems, k);
  }

  /** The leaves among the nodes merged from step k on are leaves, and in the end all of them. */
  lemma {:induction false} FromLeaves(leaves: set<nat>, hist: seq<Merge>, elems: nat, root: nat, k: nat)
    requires Numbered(leaves, hist, elems) && Live(leaves, hist, |hist|) == {root} && k <= |hist| && root >= elems
    ensures forall x :: x in From(hist, root, k) && x < elems ==> x in leaves
    ensures k == 0 ==> leaves <= From(hist, root, k)
    decreases |hist| - k
  {
    hide *;
    FromNext(hist, root, k);
    if k < |hist| {
      FromLeaves(leaves, hist, elems, root, k + 1);
      LiveBound(leaves, hist, elems, k);
      NumberedAt(leaves, hist, elems, k);
    }
    if k == 0 {
      LiveFrom(leaves, hist, elems, root, 0);
      LiveFirst(leaves, hist, elems);
    }
  }

  // ---- Depths

  /** How deep the nodes removed from step k on lie. */
  ghost function DepthFrom(hist: seq<Merge>, k: nat, size: nat): (d: seq<nat>)
    requires k <= |hist| && forall i :: 0 <= i < |hist| ==> hist[i].n < size && hist[i].m < size && hist[i].z < size
    ensures |d| == size
    decreases |hist| - k
  {
    if k == |hist| then seq(size, _ => 0)
    else
      var d := DepthFrom(hist, k + 1, size);
      var below := d[hist[k].z] + 1;
      d[hist[k].n := below][hist[k].m := below]
  }

  ghost predicate Sized(hist: seq<Merge>, size: nat) {
    forall i :: 0 <= i < |hist| ==> hist[i].n < size && hist[i].m < size && hist[i].z < size
  }

  lemma {:induction false} DepthsFrom(leaves: set<nat>, hist: seq<Merge>, elems: nat, root: nat, k: nat, size: nat)
    requires Numbered(leaves, hist, elems) && Live(leaves, hist, |hist|) == {root} && k <= |hist| && Sized(hist, size)
    requires root < size
    ensures var d := DepthFrom(hist, k, size);
            d[root] == 0 && forall j :: k <= j < |hist| ==> d[hist[j].n] == d[hist[j].m] == d[hist[j].z] + 1
    decreases |hist| - k
  {
    hide Live, Numbered, DepthFrom;
    DepthEnd(hist, size);
    SizedAt(hist, size);
    if k < |hist| {
      DepthsFrom(leaves, hist, elems, root, k + 1, size);
      Gone(leaves, hist, elems, k, |hist|);
      DepthStep(hist, k, size);
      var d, d' := DepthFrom(hist, k + 1, size), DepthFrom(hist, k, size);
      forall j | k <= j < |hist|
        ensures d'[hist[j].n] == d'[hist[j].m] == d'[hist[j].z] + 1
      {
        OtherNodes(leaves, hist, elems, k, j);
      }
    }
  }

  lemma SizedAt(hist: seq<Merge>, size: nat)
    requires Sized(hist, size)
    ensures forall i :: 0 <= i < |hist| ==> hist[i].n < size && hist[i].m < size && hist[i].z < size
  {}

  lemma DepthEnd(hist: seq<Merge>, size: nat)
    requires Sized(hist, size)
    ensures var d := DepthFrom(hist, |hist|, size);
            forall i :: 0 <= i < size ==> d[i] == 0
  {}

  lemma OtherNodes(leaves: set<nat>, hist: seq<Merge>, elems: nat, k: nat, j: nat)
    requires Numbered(leaves, hist, elems) && k <= j < |hist|
    ensures hist[j].z != hist[k].n && hist[j].z != hist[k].m
    ensures j > k ==> hist[j].n != hist[k].n && hist[j].n != hist[k].m && hist[j].m != hist[k].n && hist[j].m != hist[k].m
  {
    hide *;
    LiveBound(leaves, hist, elems, k);
    NumberedAt(leaves, hist, elems, k);
    NumberedAt(leaves, hist, elems, j);
    if j > k { Gone(leaves, hist, elems, k, j); }
  }

  lemma DepthStep(hist: seq<Merge>, k: nat, size: nat)
    requires k < |hist| && Sized(hist, size)
    ensures var d, d' := DepthFrom(hist, k + 1, size), DepthFrom(hist, k, size);
            |d'| == |d| == size && hist[k].n < size && hist[k].m < size && hist[k].z < size
            && forall i :: 0 <= i < size ==> d'[i] == if i == hist[k].n || i == hist[k].m then d[hist[k].z] + 1 else d[i]
  {}

  lemma DepthsIs(leaves: set<nat>, hist: seq<Merge>, elems: nat, root: nat, size: nat)
    requires Numbered(leaves, hist, elems) && Live(leaves, hist, |hist|) == {root} && Sized(hist, size) && root < size
    ensures Depths(hist, DepthFrom(hist, 0, size), root)
  {
    DepthsFrom(leaves, hist, elems, root, 0, size);
  }

  // ---- Cutting depths off at a greatest length

  function Cut(d: nat, max: nat): nat { if d > max then max else d }

  function Capped(depths: seq<nat>, max: nat): (s: seq<nat>)
    ensures |s| == |depths| && forall i :: 0 <= i < |depths| ==> s[i] == Cut(depths[i], max)
  {
    seq(|depths|, i requires 0 <= i < |depths| => Cut(depths[i], max))
  }

  /** How many of the steps from k on put their nodes too deep. */
  ghost function TooDeep(hist: seq<Merge>, depths: seq<nat>, max: nat, k: nat): nat
    requires k <= |hist| && Sized(hist, |depths|)
    decreases |hist| - k
  {
    if k == |hist| then 0
    else TooDeep(hist, depths, max, k + 1) + (if depths[hist[k].z] >= max then 1 else 0)
  }

  function Ones(lens: seq<nat>, v: nat): (s: seq<int>)
    ensures |s| == |lens| && forall i :: 0 <= i < |lens| ==> s[i] == if lens[i] == v then 1 else 0
  {
    seq(|lens|, i requires 0 <= i < |lens| => if lens[i] == v then 1 else 0)
  }

  lemma Step(leaves: set<nat>, hist: seq<Merge>, elems: nat, k: nat)
    requires Numbered(leaves, hist, elems) && k < |hist|
    ensures var s, L := hist[k], Live(leaves, hist, k);
            s.n in L && s.m in L && s.n != s.m && s.z !in L && Live(leaves, hist, k + 1) == Merged(L, s.n, s.m, s.z)
  {
    hide Live, Numbered;
    NumberedAt(leaves, hist, elems, k);
    LiveNext(leaves, hist, k);
    LiveBound(leaves, hist, elems, k);
  }

  lemma CutShare(d: nat, max: nat, D: nat)
    requires max <= D
    ensures Share(Cut(d + 1, max), D) + Share(Cut(d + 1, max), D)
            == Share(Cut(d, max), D) + if d >= max then Share(max, D) else 0
  {
    if d < max { HalfShare(d + 1, D); }
  }

  /** What step k of the run does to a sum over the live nodes. */
  lemma LiveTotal(leaves: set<nat>, hist: seq<Merge>, elems: nat, k: nat, g: seq<int>)
    requires Numbered(leaves, hist, elems) && k < |hist| && Sized(hist, |g|)
    ensures var s := hist[k];
            s.n < |g| && s.m < |g| && s.z < |g|
            && Total(Live(leaves, hist, k), g) == Total(Live(leaves, hist, k + 1), g) + g[s.n] + g[s.m] - g[s.z]
  {
    Step(leaves, hist, elems, k);
    hide Merged, Live, Total, Numbered;
    var s := hist[k];
    MergedTotal(Live(leaves, hist, k), g, s.n, s.m, s.z);
  }

  lemma CapStep(hist: seq<Merge>, depths: seq<nat>, root: nat, max: nat, D: nat, k: nat)
    requires Depths(hist, depths, root) && Sized(hist, |depths|) && k < |hist| && max <= D
    ensures var s, g, ones := hist[k], Shares(Capped(depths, max), D), Ones(Capped(depths, max), max);
            s.n < |depths| && s.m < |depths| && s.z < |depths|
            && g[s.n] + g[s.m] == g[s.z] + (if depths[s.z] >= max then Share(max, D) else 0)
            && ones[s.n] + ones[s.m] >= ones[s.z] + (if depths[s.z] >= max then 1 else 0)
            && (depths[s.z] >= max ==> ones[s.z] == 1)
  {
    hide Share, Cut;
    CutShare(depths[hist[k].z], max, D);
    CutIs(depths[hist[k].z], max);
  }

  lemma CutIs(d: nat, max: nat)
    ensures d >= max ==> Cut(d, max) == max && Cut(d + 1, max) == max
    ensures d < max ==> Cut(d, max) == d < max && Cut(d + 1, max) == d + 1
  {}

  lemma TooDeepStep(hist: seq<Merge>, depths: seq<nat>, max: nat, k: nat, unit: nat)
    requires k < |hist| && Sized(hist, |depths|)
    ensures hist[k].z < |depths|
    ensures TooDeep(hist, depths, max, k) == TooDeep(hist, depths, max, k + 1) + if depths[hist[k].z] >= max then 1 else 0
    ensures Product(TooDeep(hist, depths, max, k), unit)
            == Product(TooDeep(hist, depths, max, k + 1), unit) + if depths[hist[k].z] >= max then unit else 0
  {
    Distribute(TooDeep(hist, depths, max, k + 1), 1, unit);
  }

  lemma AtRoot(hist: seq<Merge>, depths: seq<nat>, root: nat, max: nat, D: nat)
    requires Depths(hist, depths, root) && Sized(hist, |depths|)
    ensures TooDeep(hist, depths, max, |hist|) == 0 && root < |depths| && Product(0, Share(max, D)) == 0
    ensures Total({root}, Shares(Capped(depths, max), D)) == Pow2(D)
    ensures Total({root}, Ones(Capped(depths, max), max)) >= 0
    ensures Total({root}, Above(depths, max)) == 0
  {
    TotalOne(root, Shares(Capped(depths, max), D));
    TotalOne(root, Ones(Capped(depths, max), max));
    TotalOne(root, Above(depths, max));
    assert Share(0, D) == Pow2(D);
  }

  lemma CappedSize(depths: seq<nat>, max: nat, D: nat)
    ensures |Shares(Capped(depths, max), D)| == |Ones(Capped(depths, max), max)| == |Above(depths, max)| == |depths|
  {}

  lemma KraftIs(L: set<nat>, lens: seq<nat>, D: nat)
    ensures Kraft(L, lens, D) == Total(L, Shares(lens, D))
  {}

  /** Each step that puts its nodes too deep makes Kraft's sum too great by one least share. */
  lemma {:induction false} CappedKraft(leaves: set<nat>, hist: seq<Merge>, elems: nat, root: nat, depths: seq<nat>,
                                       max: nat, D: nat, k: nat)
    requires Numbered(leaves, hist, elems) && Live(leaves, hist, |hist|) == {root} && Depths(hist, depths, root)
    requires max <= D && k <= |hist| && Sized(hist, |depths|)
    ensures Kraft(Live(leaves, hist, k), Capped(depths, max), D)
            == Pow2(D) + Product(TooDeep(hist, depths, max, k), Share(max, D))
    decreases |hist| - k
  {
    hide *;
    AtRoot(hist, depths, root, max, D);
    CappedSize(depths, max, D);
    KraftIs(Live(leaves, hist, k), Capped(depths, max), D);
    if k < |hist| {
      KraftIs(Live(leaves, hist, k + 1), Capped(depths, max), D);
      CappedKraft(leaves, hist, elems, root, depths, max, D, k + 1);
      LiveTotal(leaves, hist, elems, k, Shares(Capped(depths, max), D));
      CapStep(hist, depths, root, max, D, k);
      TooDeepStep(hist, depths, max, k, Share(max, D));
    }
  }

  lemma DepthBound(depths: seq<nat>) returns (max: nat)
    ensures forall i :: 0 <= i < |depths| ==> depths[i] < max
  {
    max := 1;
    for i := 0 to |depths|
      invariant max >= 1 && forall j :: 0 <= j < i ==> depths[j] < max
    {
      max := if depths[i] < max then max else depths[i] + 1;
    }
  }

  lemma {:induction false} NoneTooDeep(hist: seq<Merge>, depths: seq<nat>, max: nat, k: nat)
    requires k <= |hist| && Sized(hist, |depths|) && forall i :: 0 <= i < |depths| ==> depths[i] < max
    ensures TooDeep(hist, depths, max, k) == 0
    decreases |hist| - k
  {
    if k < |hist| { NoneTooDeep(hist, depths, max, k + 1); }
  }

  /** The depths of a run's nodes are lengths of a prefix code, with nothing left over. */
  lemma DepthsFeasible(leaves: set<nat>, hist: seq<Merge>, elems: nat, root: nat, depths: seq<nat>) returns (D: nat)
    requires Numbered(leaves, hist, elems) && Live(leaves, hist, |hist|) == {root} && Depths(hist, depths, root)
    requires Sized(hist, |depths|)
    ensures Kraft(leaves, depths, D) == Pow2(D) && forall i :: 0 <= i < |depths| ==> depths[i] < D
  {
    hide *;
    D := DepthBound(depths);
    NoneTooDeep(hist, depths, D, 0);
    CappedKraft(leaves, hist, elems, root, depths, D, D, 0);
    LiveFirst(leaves, hist, elems);
    NothingCut(depths, D);
    NoProduct(Share(D, D));
  }

  lemma NoProduct(p: nat)
    ensures Product(0, p) == 0
  {}

  lemma NothingCut(depths: seq<nat>, max: nat)
    requires forall i :: 0 <= i < |depths| ==> depths[i] < max
    ensures Capped(depths, max) == depths
  {}

  /** More nodes have the greatest length than were put too deep, two by two. */
  lemma {:induction false} CappedLongest(leaves: set<nat>, hist: seq<Merge>, elems: nat, root: nat, depths: seq<nat>,
                                         max: nat, k: nat)
    requires Numbered(leaves, hist, elems) && Live(leaves, hist, |hist|) == {root} && Depths(hist, depths, root)
    requires k <= |hist| && Sized(hist, |depths|)
    ensures var over := TooDeep(hist, depths, max, k);
            Total(Live(leaves, hist, k), Ones(Capped(depths, max), max)) >= over + if over > 0 then 1 else 0
    decreases |hist| - k
  {
    hide *;
    AtRoot(hist, depths, root, max, max);
    CappedSize(depths, max, max);
    if k < |hist| {
      CappedLongest(leaves, hist, elems, root, depths, max, k + 1);
      LiveTotal(leaves, hist, elems, k, Ones(Capped(depths, max), max));
      CapStep(hist, depths, root, max, max, k);
      TooDeepStep(hist, depths, max, k, 1);
      OnesOf(depths, max);
      NewNodeCounts(leaves, hist, elems, k, Ones(Capped(depths, max), max));
    }
  }

  lemma OnesOf(depths: seq<nat>, max: nat)
    ensures forall i :: 0 <= i < |depths| ==> 0 <= Ones(Capped(depths, max), max)[i]
  {}

  lemma NewNodeCounts(leaves: set<nat>, hist: seq<Merge>, elems: nat, k: nat, g: seq<int>)
    requires Numbered(leaves, hist, elems) && k < |hist| && Sized(hist, |g|) && forall i :: 0 <= i < |g| ==> g[i] >= 0
    ensures hist[k].z < |g| && g[hist[k].z] <= Total(Live(leaves, hist, k + 1), g)
  {
    assert hist[k].z in Live(leaves, hist, k + 1);
    MemberLe(Live(leaves, hist, k + 1), hist[k].z, g);
    hide Total;
  }

  function Above(depths: seq<nat>, max: nat): (s: seq<int>)
    ensures |s| == |depths| && forall i :: 0 <= i < |depths| ==> s[i] == if depths[i] > max then 1 else 0
  {
    seq(|depths|, i requires 0 <= i < |depths| => if depths[i] > max then 1 else 0)
  }

  /** The nodes that are too deep come in pairs. */
  lemma {:induction false} DeepPairs(leaves: set<nat>, hist: seq<Merge>, elems: nat, root: nat, depths: seq<nat>,
                                     max: nat, k: nat)
    requires Numbered(leaves, hist, elems) && Live(leaves, hist, |hist|) == {root} && Depths(hist, depths, root)
    requires k <= |hist| && Sized(hist, |depths|)
    ensures Total(From(hist, root, k), Above(depths, max)) == 2 * TooDeep(hist, depths, max, k)
    decreases |hist| - k
  {
    hide Total, Numbered, Live;
    var g := Above(depths, max);
    AtRoot(hist, depths, root, max, max);
    if k < |hist| {
      DeepPairs(leaves, hist, elems, root, depths, max, k + 1);
      FreshPair(leaves, hist, elems, root, k);
      AddMember(From(hist, root, k + 1), hist[k].m, g);
      AddMember(From(hist, root, k + 1) + {hist[k].m}, hist[k].n, g);
    }
  }

  // ---- Adding a step to a run

  /** Every step joins the two least nodes there are. */
  ghost predicate AllJoin(leaves: set<nat>, hist: seq<Merge>, w: seq<nat>) {
    forall k :: 0 <= k < |hist| ==> Joins(leaves, hist, w, k) && JoinsLeast(leaves, hist, w, k)
  }

  lemma {:induction false} LivePrefix(leaves: set<nat>, hist: seq<Merge>, s: Merge, k: nat)
    requires k <= |hist|
    ensures Live(leaves, hist + [s], k) == Live(leaves, hist, k)
  {
    hide *;
    if k > 0 {
      LivePrefix(leaves, hist, s, k - 1);
      LiveNext(leaves, hist, k - 1);
      LiveNext(leaves, hist + [s], k - 1);
    } else {
      LiveZero(leaves, hist);
      LiveZero(leaves, hist + [s]);
    }
  }

  lemma LiveZero(leaves: set<nat>, hist: seq<Merge>)
    ensures Live(leaves, hist, 0) == leaves
  {}

  lemma NumberedExtends(leaves: set<nat>, hist: seq<Merge>, elems: nat, s: Merge)
    requires Numbered(leaves, hist, elems) && s.z == elems + |hist| && s.n != s.m
    requires s.n in Live(leaves, hist, |hist|) && s.m in Live(leaves, hist, |hist|)
    ensures Numbered(leaves, hist + [s], elems)
  {
    hide Live;
    var h := hist + [s];
    forall k | 0 <= k < |h|
      ensures h[k].z == elems + k && h[k].n in Live(leaves, h, k) && h[k].m in Live(leaves, h, k) && h[k].n != h[k].m
    {
      LivePrefix(leaves, hist, s, k);
    }
  }

  /** Steps taken earlier do not depend on what a later node weighs. */
  lemma JoinKept(leaves: set<nat>, hist: seq<Merge>, elems: nat, w: seq<nat>, w': seq<nat>, s: Merge, k: nat)
    requires Numbered(leaves, hist, elems) && k < |hist| && |w| == |w'| && elems + |hist| <= |w|
    requires forall i :: 0 <= i < elems + |hist| ==> w'[i] == w[i]
    requires Joins(leaves, hist, w, k) && JoinsLeast(leaves, hist, w, k)
    ensures Joins(leaves, hist + [s], w', k) && JoinsLeast(leaves, hist + [s], w', k)
  {
    hide Live, Numbered;
    LivePrefix(leaves, hist, s, k);
    LiveBound(leaves, hist, elems, k);
    NumberedAt(leaves, hist, elems, k);
    assert (hist + [s])[k] == hist[k];
  }

  lemma AllJoinExtends(leaves: set<nat>, hist: seq<Merge>, elems: nat, w: seq<nat>, w': seq<nat>, s: Merge)
    requires Numbered(leaves, hist, elems) && AllJoin(leaves, hist, w) && |w| == |w'| && elems + |hist| < |w|
    requires forall i :: 0 <= i < elems + |hist| ==> w'[i] == w[i]
    requires s.z == elems + |hist| && s.n != s.m && s.n < |w| && s.m < |w|
    requires w'[s.z] == w[s.n] + w[s.m]
    requires var L := Live(leaves, hist, |hist|);
             s.n in L && s.m in L && (forall x :: x in L ==> x < |w| && w[s.n] <= w[x])
             && forall x :: x in L && x != s.n ==> x < |w| && w[s.m] <= w[x]
    ensures AllJoin(leaves, hist + [s], w')
  {
    hide Live, Numbered;
    var h := hist + [s];
    LiveBound(leaves, hist, elems, |hist|);
    LivePrefix(leaves, hist, s, |hist|);
    assert h[|hist|] == s;
    assert Joins(leaves, h, w', |hist|) && JoinsLeast(leaves, h, w', |hist|);
    forall k | 0 <= k < |h|
      ensures Joins(leaves, h, w', k) && JoinsLeast(leaves, h, w', k)
    {
      if k < |hist| {
        JoinKept(leaves, hist, elems, w, w', s, k);
      }
    }
  }
}
