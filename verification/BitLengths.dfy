/** From depths to code lengths: the sums gen_bitlen keeps, and the repair of lengths that are too great. */
module BitLengths {
  import opened Bits
  import opened PrefixCodes
  import opened Sums
  import opened Huffman
  import opened HuffmanRuns
  import opened Trees
  import opened Merging

  // ---- Kraft's sum from the number of codes of each length

  /** What bl[b] codes of each length b = 1 .. k take of the line. */
  function Spread(bl: seq<nat>, k: nat): nat
    requires k < |bl|
  {
    if k == 0 then 0 else Spread(bl, k - 1) + Product(bl[k], Share(k, M))
  }

  /** How many codes there are. */
  function Codes(bl: seq<nat>, k: nat): nat
    requires k < |bl|
  {
    if k == 0 then 0 else Codes(bl, k - 1) + bl[k]
  }

  /** bl with one count changed. */
  ghost predicate Changed(bl: seq<nat>, bl': seq<nat>, b: nat, by': int) {
    |bl| == |bl'| && b < |bl| && bl'[b] == bl[b] + by' && forall i :: 0 <= i < |bl| && i != b ==> bl'[i] == bl[i]
  }

  lemma TimesSum(a: nat, d: int, c: nat)
    requires a + d >= 0
    ensures Product(a + d, c) == Product(a, c) + d * c
  {}

  lemma {:induction false} SpreadChanged(bl: seq<nat>, bl': seq<nat>, b: nat, d: int, k: nat)
    requires Changed(bl, bl', b, d) && k < |bl|
    ensures Spread(bl', k) == Spread(bl, k) + if 1 <= b <= k then d * Share(b, M) else 0
    ensures Codes(bl', k) == Codes(bl, k) + if 1 <= b <= k then d else 0
  {
    hide Share, Product;
    if k > 0 {
      SpreadChanged(bl, bl', b, d, k - 1);
      if b == k { TimesSum(bl[b], d, Share(b, M)); }
    }
  }

  lemma {:induction false} NoSpread(bl: seq<nat>, k: nat)
    requires k < |bl| && forall b :: 1 <= b <= k ==> bl[b] == 0
    ensures Spread(bl, k) == 0 && Codes(bl, k) == 0
  {
    hide Share;
    if k > 0 { NoSpread(bl, k - 1); }
  }

  /** The code lengths of a list, counted, fill the line as far as the counts say. */
  lemma {:induction false} FilledSpread(lens: seq<nat>, bl: seq<nat>, k: nat)
    requires k < |bl| && k <= M && forall b :: 1 <= b <= k ==> bl[b] == Count(lens, b)
    ensures Filled(lens, k) == Spread(bl, k)
  {
    if k > 0 { FilledSpread(lens, bl, k - 1); }
  }

  /** bl counts the lengths of the members of L. */
  ghost predicate Counted(L: set<nat>, lens: seq<nat>, bl: seq<nat>) {
    |bl| == MAX_BITS + 1 && forall b :: 0 <= b <= MAX_BITS ==> bl[b] == Total(L, Ones(lens, b))
  }

  lemma CountedNone(lens: seq<nat>, bl: seq<nat>)
    requires |bl| == MAX_BITS + 1 && forall b :: 0 <= b <= MAX_BITS ==> bl[b] == 0
    ensures Counted({}, lens, bl) && Kraft({}, lens, M) == Spread(bl, MAX_BITS) && Codes(bl, MAX_BITS) == 0
  {
    forall b | 0 <= b <= MAX_BITS
      ensures bl[b] == Total({}, Ones(lens, b))
    {
      SumZero({}, Ones(lens, b), |lens|);
    }
    SumZero({}, Shares(lens, M), |lens|);
    NoSpread(bl, MAX_BITS);
  }

  lemma CountedAdd(L: set<nat>, lens: seq<nat>, bl: seq<nat>, bl': seq<nat>, x: nat)
    requires Counted(L, lens, bl) && x < |lens| && x !in L && lens[x] <= MAX_BITS && Changed(bl, bl', lens[x], 1)
    ensures Counted(L + {x}, lens, bl')
  {
    hide Total;
    forall b | 0 <= b <= MAX_BITS
      ensures bl'[b] == Total(L + {x}, Ones(lens, b))
    {
      AddMember(L, x, Ones(lens, b));
    }
  }

  lemma KraftAdd(L: set<nat>, lens: seq<nat>, bl: seq<nat>, bl': seq<nat>, x: nat)
    requires |bl| == MAX_BITS + 1 && Kraft(L, lens, M) == Spread(bl, MAX_BITS)
    requires x < |lens| && x !in L && 1 <= lens[x] <= MAX_BITS && Changed(bl, bl', lens[x], 1)
    ensures Kraft(L + {x}, lens, M) == Spread(bl', MAX_BITS) && Codes(bl', MAX_BITS) == Codes(bl, MAX_BITS) + 1
  {
    AddMember(L, x, Shares(lens, M));
    SpreadChanged(bl, bl', lens[x], 1, MAX_BITS);
    hide Total, Share, Spread, Codes;
  }

  // ---- Repairing lengths that are too great

  /** ov nodes more than fit have been cut off at length max. */
  ghost predicate Overfull(bl: seq<nat>, max: nat, ov: nat, n: nat) {
    |bl| == MAX_BITS + 1 && 2 <= max <= MAX_BITS && bl[0] == 0 && (forall b :: max < b <= MAX_BITS ==> bl[b] == 0)
    && Spread(bl, MAX_BITS) == Pow2(M) + Product(ov, Share(max, M)) && Codes(bl, MAX_BITS) == n <= Pow2(max)
    && bl[max] >= ov + 1
  }

  lemma {:induction false} SpreadFrom(bl: seq<nat>, max: nat, k: nat)
    requires |bl| == MAX_BITS + 1 && 1 <= max <= k <= MAX_BITS
    requires (forall b :: 1 <= b < max ==> bl[b] == 0) && forall b :: max < b <= MAX_BITS ==> bl[b] == 0
    ensures Spread(bl, k) == Product(bl[max], Share(max, M)) && Codes(bl, k) == bl[max]
    decreases k
  {
    hide Share;
    if k == max {
      NoSpread(bl, max - 1);
    } else {
      SpreadFrom(bl, max, k - 1);
      assert Product(0, Share(k, M)) == 0;
    }
  }

  lemma FullShare(max: nat)
    requires max <= M
    ensures Product(Pow2(max), Share(max, M)) == Pow2(M)
  {
    Pow2Add(max, M - max);
  }

  lemma ProductLe(a: nat, b: nat, c: nat)
    requires a <= b
    ensures Product(a, c) <= Product(b, c)
  {}

  lemma ProductPositive(a: nat, c: nat)
    requires a > 0 && c > 0
    ensures Product(a, c) > 0
  {}

  lemma SharePositive(max: nat)
    requires max <= M
    ensures Share(max, M) > 0
  {}

  /** While too many nodes were cut off, some code is shorter than the greatest length. */
  lemma ShorterExists(bl: seq<nat>, max: nat, ov: nat, n: nat)
    requires Overfull(bl, max, ov, n) && ov > 0
    ensures exists b :: 1 <= b < max && bl[b] > 0
  {
    hide Spread, Share, Product, Codes;
    FullShare(max);
    SharePositive(max);
    ProductPositive(ov, Share(max, M));
    if forall b :: 1 <= b < max ==> bl[b] == 0 {
      SpreadFrom(bl, max, MAX_BITS);
      ProductLe(n, Pow2(max), Share(max, M));
      assert false;
    }
  }

  /** bl after one leaf of length b moves down and an item cut off becomes its brother. */
  function Moved(bl: seq<nat>, b: nat, max: nat): (s: seq<nat>)
    requires b + 1 < |bl| && max < |bl| && b < max && bl[b] > 0 && bl[max] > 0
  {
    var s := bl[b := bl[b] - 1];
    var t := s[b + 1 := s[b + 1] + 2];
    t[max := t[max] - 1]
  }

  lemma MoveOne(bl: seq<nat>, b: nat, max: nat, ov: nat, n: nat)
    requires Overfull(bl, max, ov, n) && ov > 0 && 1 <= b < max && bl[b] > 0
    ensures Overfull(Moved(bl, b, max), max, ov - 1, n)
  {
    hide Spread, Share, Product, Codes;
    var s := bl[b := bl[b] - 1];
    var t := s[b + 1 := s[b + 1] + 2];
    var u := t[max := t[max] - 1];
    SpreadChanged(bl, s, b, -1, MAX_BITS);
    SpreadChanged(s, t, b + 1, 2, MAX_BITS);
    SpreadChanged(t, u, max, -1, MAX_BITS);
    HalfShare(b + 1, M);
    TimesSum(ov, -1, Share(max, M));
  }

  // ---- The nodes in the order of the heap array

  lemma PlacedAt(heap: seq<nat>, max: nat, hist: seq<Merge>, k: nat)
    requires PlacedOk(heap, max, hist) && k < |hist|
    ensures |heap| >= 2 * k + 2 && heap[|heap| - 1 - 2 * k] == hist[k].n && heap[|heap| - 2 - 2 * k] == hist[k].m
    ensures max + 2 * |hist| == |heap|
  {}

  lemma {:induction false} InFrom(heap: seq<nat>, max: nat, hist: seq<Merge>, root: nat, k: nat, i: nat)
    requires PlacedOk(heap, max + 1, hist) && max < |heap| && heap[max] == root && k <= |hist| && max <= i < |heap| - 2 * k
    ensures heap[i] in From(hist, root, k)
    decreases |hist| - k
  {
    hide *;
    FromNext(hist, root, k);
    PlacedSize(heap, max + 1, hist);
    if k < |hist| {
      PlacedAt(heap, max + 1, hist, k);
      if i < |heap| - 2 * (k + 1) {
        InFrom(heap, max, hist, root, k + 1, i);
      }
    }
  }

  lemma {:induction false} FromAt(heap: seq<nat>, max: nat, hist: seq<Merge>, root: nat, k: nat, x: nat) returns (i: nat)
    requires PlacedOk(heap, max + 1, hist) && max < |heap| && heap[max] == root && k <= |hist| && x in From(hist, root, k)
    ensures max <= i < |heap| - 2 * k && heap[i] == x
    decreases |hist| - k
  {
    hide *;
    FromNext(hist, root, k);
    PlacedSize(heap, max + 1, hist);
    if k == |hist| {
      i := max;
    } else {
      PlacedAt(heap, max + 1, hist, k);
      if x == hist[k].n {
        i := |heap| - 1 - 2 * k;
      } else if x == hist[k].m {
        i := |heap| - 2 - 2 * k;
      } else {
        i := FromAt(heap, max, hist, root, k + 1, x);
      }
    }
  }

  /** Every node is listed once, and every leaf is. */
  ghost predicate Listed(heap: seq<nat>, max: nat, leaves: set<nat>) {
    max < |heap| && (forall i, j :: max <= i < j < |heap| ==> heap[i] != heap[j])
    && forall x :: x in leaves ==> exists i :: max < i < |heap| && heap[i] == x
  }

  lemma ListedOnce(heap: seq<nat>, max: nat, leaves: set<nat>, hist: seq<Merge>, elems: nat, root: nat, i: nat, j: nat)
    requires PlacedOk(heap, max + 1, hist) && max < |heap| && heap[max] == root && max <= i < j < |heap|
    requires Numbered(leaves, hist, elems) && Live(leaves, hist, |hist|) == {root}
    ensures heap[i] != heap[j]
  {
    hide *;
    PlacedSize(heap, max + 1, hist);
    var k := (|heap| - 1 - j) / 2;
    PlacedAt(heap, max + 1, hist, k);
    NumberedAt(leaves, hist, elems, k);
    NotAgain(leaves, hist, elems, root, k, k + 1);
    if i < |heap| - 2 * (k + 1) {
      InFrom(heap, max, hist, root, k + 1, i);
    }
  }

  lemma AllListed(tree: seq<CtData>, heap: seq<nat>, max: nat, leaves: set<nat>, hist: seq<Merge>, F: seq<nat>)
    requires Built(tree, heap, max, leaves, hist, F)
    ensures Listed(heap, max, leaves)
  {
    NodesDistinct(tree, heap, max, leaves, hist, F);
    LeavesFound(tree, heap, max, leaves, hist, F);
    hide Built;
  }

  lemma NodesDistinct(tree: seq<CtData>, heap: seq<nat>, max: nat, leaves: set<nat>, hist: seq<Merge>, F: seq<nat>)
    requires Built(tree, heap, max, leaves, hist, F)
    ensures max < |heap| && forall i, j :: max <= i < j < |heap| ==> heap[i] != heap[j]
  {
    hide *;
    BuiltFacts(tree, heap, max, leaves, hist, F);
    forall i, j | max <= i < j < |heap|
      ensures heap[i] != heap[j]
    {
      ListedOnce(heap, max, leaves, hist, |F|, |F| + |hist| - 1, i, j);
    }
  }

  lemma LeavesFound(tree: seq<CtData>, heap: seq<nat>, max: nat, leaves: set<nat>, hist: seq<Merge>, F: seq<nat>)
    requires Built(tree, heap, max, leaves, hist, F)
    ensures max < |heap| && forall x :: x in leaves ==> exists i :: max < i < |heap| && heap[i] == x
  {
    hide *;
    BuiltFacts(tree, heap, max, leaves, hist, F);
    var root := |F| + |hist| - 1;
    FromLeaves(leaves, hist, |F|, root, 0);
    LiveFirst(leaves, hist, |F|);
    forall x | x in leaves
      ensures exists i :: max < i < |heap| && heap[i] == x
    {
      var i := FromAt(heap, max, hist, root, 0, x);
    }
  }

  lemma BuiltFacts(tree: seq<CtData>, heap: seq<nat>, max: nat, leaves: set<nat>, hist: seq<Merge>, F: seq<nat>)
    requires Built(tree, heap, max, leaves, hist, F)
    ensures var root := |F| + |hist| - 1;
            1 <= |hist| < |F| && 2 * |F| < |tree| <= |heap| && max < |heap| && heap[max] == root && root < |tree|
            && Live(leaves, hist, |hist|) == {root} && Numbered(leaves, hist, |F|) && PlacedOk(heap, max + 1, hist)
            && max + 1 + 2 * |hist| == |heap| && AllJoin(leaves, hist, Weights(tree)) && DadsOk(tree, hist, |F|)
            && LeavesOk(tree, leaves, F) && SortedOk(tree, heap, max, {})
  {
    hide Live, Numbered, AllJoin, DadsOk, LeavesOk, SortedOk;
  }
}
