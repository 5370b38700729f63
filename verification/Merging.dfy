/** Building a Huffman tree: the merging loop of build_tree. */
module Merging {
  import opened Sums
  import opened Huffman
  import opened HuffmanRuns
  import opened Trees
  import opened CodeLengths
  import opened Heaps

  /** The frequencies of all nodes. */
  function Weights(tree: seq<CtData>): (w: seq<nat>)
    ensures |w| == |tree| && forall i :: 0 <= i < |tree| ==> w[i] == tree[i].fc
  {
    Freqs(tree, |tree|)
  }

  // ---- The state between two merges

  /** The queue holds the nodes that have no father yet. */
  ghost predicate QueueOk(heap: seq<nat>, len: nat, live: set<nat>, bound: nat) {
    len < |heap| && Nodes(heap, len, bound) && Members(heap, len) == live
  }

  /** Merged nodes are kept at the end of the heap array, by increasing frequency downwards. */
  ghost predicate PlacedOk(heap: seq<nat>, max: nat, hist: seq<Merge>) {
    max + 2 * |hist| == |heap|
    && forall j :: 0 <= j < |hist| ==> heap[|heap| - 1 - 2 * j] == hist[j].n && heap[|heap| - 2 - 2 * j] == hist[j].m
  }

  ghost predicate DadsOk(tree: seq<CtData>, hist: seq<Merge>, elems: nat) {
    forall j :: 0 <= j < |hist| ==>
      hist[j].n < |tree| && hist[j].m < |tree| && tree[hist[j].n].dl == tree[hist[j].m].dl == elems + j
  }

  ghost predicate LeavesOk(tree: seq<CtData>, leaves: set<nat>, F: seq<nat>) {
    |F| <= |tree| && forall i :: 0 <= i < |F| ==> tree[i].fc == F[i] && (i !in leaves ==> tree[i].dl == 0)
  }

  ghost predicate SortedOk(tree: seq<CtData>, heap: seq<nat>, max: nat, live: set<nat>) {
    max <= |heap| && (forall i :: max <= i < |heap| ==> heap[i] < |tree|)
    && (forall i, j :: max <= i <= j < |heap| ==> tree[heap[j]].fc <= tree[heap[i]].fc)
    && forall i, x :: max <= i < |heap| && x in live && x < |tree| ==> tree[heap[i]].fc <= tree[x].fc
  }

  ghost predicate SizesOk(treeSize: nat, heapSize: nat, len: nat, merges: nat, elems: nat) {
    1 <= len && len + merges <= elems && 2 * elems < treeSize <= heapSize
  }

  /** merges done so far; `total` is the sum of all frequencies. */
  ghost predicate State(tree: seq<CtData>, heap: seq<nat>, len: nat, max: nat, leaves: set<nat>, hist: seq<Merge>,
                        F: seq<nat>, total: int)
  {
    var live := Live(leaves, hist, |hist|);
    SizesOk(|tree|, |heap|, len, |hist|, |F|)
    && Numbered(leaves, hist, |F|) && AllJoin(leaves, hist, Weights(tree)) && Total(live, Weights(tree)) == total
    && QueueOk(heap, len, live, |F| + |hist|) && PlacedOk(heap, max, hist) && DadsOk(tree, hist, |F|)
    && LeavesOk(tree, leaves, F) && SortedOk(tree, heap, max, live)
  }

  // ---- The queue

  lemma ReplaceTop(heap: seq<nat>, len: nat, x: nat, bound: nat)
    requires 1 <= len < |heap| && Nodes(heap, len, bound) && x !in Members(heap, len) && x < bound
    ensures Nodes(heap[1 := x], len, bound)
    ensures Members(heap[1 := x], len) == Members(heap, len) - {heap[1]} + {x}
  {
    var h := heap[1 := x];
    forall y | y in Members(heap, len) - {heap[1]} + {x}
      ensures y in Members(h, len)
    {
      if y == x {
        assert h[1] == x;
      } else {
        var i :| 1 <= i <= len && heap[i] == y;
        assert h[i] == y;
      }
    }
  }

  /** Moving the last node to the top removes the top one. */
  lemma DropTop(heap: seq<nat>, len: nat, bound: nat)
    requires 2 <= len < |heap| && Nodes(heap, len, bound)
    ensures Nodes(heap[1 := heap[len]], len - 1, bound)
    ensures Members(heap[1 := heap[len]], len - 1) == Members(heap, len) - {heap[1]}
  {
    var h := heap[1 := heap[len]];
    forall y | y in Members(heap, len) - {heap[1]}
      ensures y in Members(h, len - 1)
    {
      var i :| 1 <= i <= len && heap[i] == y;
      assert h[if i == len then 1 else i] == y;
    }
    forall y | y in Members(h, len - 1)
      ensures y in Members(heap, len) - {heap[1]}
    {
      var i :| 1 <= i <= len - 1 && h[i] == y;
      assert heap[if i == 1 then len else i] == y;
    }
  }

  lemma NodesWider(heap: seq<nat>, len: nat, bound: nat, wider: nat)
    requires Nodes(heap, len, bound) && bound <= wider
    ensures Nodes(heap, len, wider)
  {}

  lemma SameQueue(heap: seq<nat>, heap': seq<nat>, len: nat, bound: nat)
    requires len < |heap| == |heap'| && (forall i :: 1 <= i <= len ==> heap'[i] == heap[i])
    ensures Nodes(heap, len, bound) <==> Nodes(heap', len, bound)
    ensures Members(heap', len) == Members(heap, len)
  {}

  lemma OrderKept(tree: seq<CtData>, tree': seq<CtData>, depth: seq<nat>, depth': seq<nat>, heap: seq<nat>, heap': seq<nat>,
                  len: nat, k: nat, bound: nat)
    requires len < |heap| == |heap'| && Nodes(heap, len, bound) && bound <= |tree| == |tree'| && |depth| == |depth'|
    requires 1 <= k && forall i :: k <= i <= len ==> heap'[i] == heap[i]
    requires forall i :: 0 <= i < bound && i < |depth| ==> tree'[i].fc == tree[i].fc && depth'[i] == depth[i]
    requires Ordered(tree, depth, heap, len, k)
    ensures Ordered(tree', depth', heap', len, k)
  {
    forall j | 2 <= j <= len && j / 2 >= k
      ensures Smaller(tree', depth', heap'[j / 2], heap'[j])
    {
      assert Smaller(tree, depth, heap[j / 2], heap[j]);
    }
  }

  lemma OrderLater(tree: seq<CtData>, depth: seq<nat>, heap: seq<nat>, len: nat, len': nat, k: nat)
    requires len' <= len < |heap| && Ordered(tree, depth, heap, len, k)
    ensures Ordered(tree, depth, heap, len', k + 1)
  {}

  // ---- One merge, clause by clause

  /** The tree after n and m were given the father z. */
  function WithFather(tree: seq<CtData>, n: nat, m: nat, z: nat): (t: seq<CtData>)
    requires n < |tree| && m < |tree| && z < |tree|
    ensures |t| == |tree|
    ensures forall i :: 0 <= i < |t| ==> t[i].fc == if i == z then tree[n].fc + tree[m].fc else tree[i].fc
    ensures forall i :: 0 <= i < |t| ==> t[i].dl == if i == n || i == m then z else tree[i].dl
  {
    seq(|tree|, i requires 0 <= i < |tree| =>
      CtData(if i == z then tree[n].fc + tree[m].fc else tree[i].fc, if i == n || i == m then z else tree[i].dl))
  }

  /** n and m are the two least of the live nodes. */
  ghost predicate LeastTwo(tree: seq<CtData>, live: set<nat>, n: nat, m: nat) {
    n in live && m in live && n != m && n < |tree| && m < |tree|
    && (forall x :: x in live ==> x < |tree| && tree[n].fc <= tree[x].fc)
    && forall x :: x in live && x != n ==> x < |tree| && tree[m].fc <= tree[x].fc
  }

  lemma MergeJoins(tree: seq<CtData>, leaves: set<nat>, hist: seq<Merge>, elems: nat, n: nat, m: nat)
    requires Numbered(leaves, hist, elems) && AllJoin(leaves, hist, Weights(tree)) && elems + |hist| < |tree|
    requires LeastTwo(tree, Live(leaves, hist, |hist|), n, m)
    ensures var z := elems + |hist|;
            var t := WithFather(tree, n, m, z);
            var h := hist + [Merge(n, m, z)];
            Numbered(leaves, h, elems) && AllJoin(leaves, h, Weights(t))
            && Live(leaves, h, |h|) == Live(leaves, hist, |hist|) - {n} - {m} + {z}
            && Total(Live(leaves, h, |h|), Weights(t)) == Total(Live(leaves, hist, |hist|), Weights(tree))
  {
    hide Live, Numbered, AllJoin, Total;
    var z := elems + |hist|;
    var t, s := WithFather(tree, n, m, z), Merge(n, m, z);
    var h := hist + [s];
    NumberedExtends(leaves, hist, elems, s);
    AllJoinExtends(leaves, hist, elems, Weights(tree), Weights(t), s);
    LivePrefix(leaves, hist, s, |hist|);
    LiveNext(leaves, h, |hist|);
    assert h[|hist|] == s;
    var L := Live(leaves, hist, |hist|);
    LiveBound(leaves, hist, elems, |hist|);
    MergedTotal(L, Weights(t), n, m, z);
    SameTotal(L, Weights(tree), Weights(t), elems + |hist|);
  }

  lemma SameTotal(L: set<nat>, g: seq<int>, h: seq<int>, bound: nat)
    requires |g| == |h| && (forall x :: x in L ==> x < bound) && forall i :: 0 <= i < bound && i < |g| ==> g[i] == h[i]
    ensures Total(L, g) == Total(L, h)
  {
    SumSame(L, L, g, h, |g|);
  }

  lemma MergePlaced(heap: seq<nat>, heap': seq<nat>, len: nat, max: nat, hist: seq<Merge>, s: Merge)
    requires PlacedOk(heap, max, hist) && len + 2 <= max && |heap'| == |heap|
    requires heap'[max - 1] == s.n && heap'[max - 2] == s.m && forall i :: max <= i < |heap| ==> heap'[i] == heap[i]
    ensures PlacedOk(heap', max - 2, hist + [s])
  {}

  lemma MergeDads(tree: seq<CtData>, leaves: set<nat>, hist: seq<Merge>, elems: nat, n: nat, m: nat)
    requires DadsOk(tree, hist, elems) && elems + |hist| < |tree| && n < |tree| && m < |tree|
    requires Numbered(leaves, hist, elems) && n in Live(leaves, hist, |hist|) && m in Live(leaves, hist, |hist|)
    ensures var z := elems + |hist|;
            DadsOk(WithFather(tree, n, m, z), hist + [Merge(n, m, z)], elems)
  {
    hide Live, Numbered;
    var z := elems + |hist|;
    forall j | 0 <= j < |hist|
      ensures hist[j].n != n && hist[j].n != m && hist[j].m != n && hist[j].m != m
    {
      Gone(leaves, hist, elems, j, |hist|);
    }
  }

  lemma MergeLeaves(tree: seq<CtData>, leaves: set<nat>, hist: seq<Merge>, F: seq<nat>, n: nat, m: nat)
    requires LeavesOk(tree, leaves, F) && |F| + |hist| < |tree| && n < |tree| && m < |tree|
    requires Numbered(leaves, hist, |F|) && n in Live(leaves, hist, |hist|) && m in Live(leaves, hist, |hist|)
    ensures LeavesOk(WithFather(tree, n, m, |F| + |hist|), leaves, F)
  {
    hide Live, Numbered;
    LiveBound(leaves, hist, |F|, |hist|);
  }

  lemma MergeSorted(tree: seq<CtData>, heap: seq<nat>, heap': seq<nat>, max: nat, live: set<nat>, n: nat, m: nat, z: nat)
    requires SortedOk(tree, heap, max, live) && LeastTwo(tree, live, n, m) && z < |tree| && z !in live
    requires 2 <= max && |heap'| == |heap| && heap'[max - 1] == n && heap'[max - 2] == m
    requires (forall i :: max <= i < |heap| ==> heap'[i] == heap[i] && heap[i] != z)
    ensures SortedOk(WithFather(tree, n, m, z), heap', max - 2, live - {n} - {m} + {z})
  {}

  lemma PlacedBelow(heap: seq<nat>, max: nat, leaves: set<nat>, hist: seq<Merge>, elems: nat)
    requires PlacedOk(heap, max, hist) && Numbered(leaves, hist, elems)
    ensures forall i :: max <= i < |heap| ==> heap[i] < elems + |hist|
  {
    hide Live, Numbered;
    forall i | max <= i < |heap|
      ensures heap[i] < elems + |hist|
    {
      var j := (|heap| - 1 - i) / 2;
      Gone(leaves, hist, elems, j, |hist|);
      assert i == |heap| - 1 - 2 * j || i == |heap| - 2 - 2 * j;
    }
  }

  /** All clauses together. */
  lemma MergeStep(tree: seq<CtData>, heap: seq<nat>, heap': seq<nat>, len: nat, max: nat, leaves: set<nat>,
                  hist: seq<Merge>, F: seq<nat>, total: int, n: nat, m: nat)
    requires State(tree, heap, len, max, leaves, hist, F, total) && len >= 2
    requires LeastTwo(tree, Live(leaves, hist, |hist|), n, m)
    requires |heap'| == |heap| && max >= 2 && heap'[max - 1] == n && heap'[max - 2] == m
    requires forall i :: max <= i < |heap| ==> heap'[i] == heap[i]
    requires |F| + |hist| < |tree|
    requires QueueOk(heap', len - 1, Live(leaves, hist, |hist|) - {n} - {m} + {|F| + |hist|}, |F| + |hist| + 1)
    ensures var z := |F| + |hist|;
            State(WithFather(tree, n, m, z), heap', len - 1, max - 2, leaves, hist + [Merge(n, m, z)], F, total)
  {
    hide Live, Numbered, AllJoin, Total, QueueOk, PlacedOk, DadsOk, LeavesOk, SortedOk, LeastTwo;
    var z := |F| + |hist|;
    var live := Live(leaves, hist, |hist|);
    LeastTwoIs(tree, live, n, m);
    MergeJoins(tree, leaves, hist, |F|, n, m);
    PlacedSize(heap, max, hist);
    MergePlaced(heap, heap', len, max, hist, Merge(n, m, z));
    MergeDads(tree, leaves, hist, |F|, n, m);
    MergeLeaves(tree, leaves, hist, F, n, m);
    LiveBound(leaves, hist, |F|, |hist|);
    PlacedBelow(heap, max, leaves, hist, |F|);
    MergeSorted(tree, heap, heap', max, live, n, m, z);
  }

  lemma LeastTwoIs(tree: seq<CtData>, live: set<nat>, n: nat, m: nat)
    requires LeastTwo(tree, live, n, m)
    ensures n in live && m in live && n != m && n < |tree| && m < |tree|
  {}

  lemma PlacedSize(heap: seq<nat>, max: nat, hist: seq<Merge>)
    requires PlacedOk(heap, max, hist)
    ensures max + 2 * |hist| == |heap|
  {}

  // ---- Before the first merge and after the last

  lemma StartState(tree: seq<CtData>, heap: seq<nat>, len: nat, leaves: set<nat>, F: seq<nat>)
    requires 1 <= len <= |F| && 2 * |F| < |tree| <= |heap| && Nodes(heap, len, |F|) && Members(heap, len) == leaves
    requires LeavesOk(tree, leaves, F)
    ensures State(tree, heap, len, |heap|, leaves, [], F, Total(leaves, Weights(tree)))
  {
    assert Live(leaves, [], 0) == leaves;
    NodesIn(heap, len, |F|);
    hide LeavesOk, Total, Nodes;
  }

  lemma NodesIn(heap: seq<nat>, len: nat, bound: nat)
    requires Nodes(heap, len, bound)
    ensures forall x :: x in Members(heap, len) ==> x < bound
  {}

  /** The finished tree: heap[max..] lists its nodes, the root first, then the merged pairs, last merged first. */
  ghost predicate Built(tree: seq<CtData>, heap: seq<nat>, max: nat, leaves: set<nat>, hist: seq<Merge>, F: seq<nat>) {
    1 <= |hist| < |F| && 2 * |F| < |tree| <= |heap| && max < |heap|
    && Live(leaves, hist, |hist|) == {|F| + |hist| - 1} && heap[max] == |F| + |hist| - 1
    && Numbered(leaves, hist, |F|) && AllJoin(leaves, hist, Weights(tree)) && PlacedOk(heap, max + 1, hist)
    && DadsOk(tree, hist, |F|) && LeavesOk(tree, leaves, F) && SortedOk(tree, heap, max, {})
  }

  lemma LastNode(heap: seq<nat>, leaves: set<nat>, hist: seq<Merge>, elems: nat, bound: nat)
    requires 1 < |heap| && Members(heap, 1) == Live(leaves, hist, |hist|) && |hist| >= 1 && Numbered(leaves, hist, elems)
    ensures heap[1] == elems + |hist| - 1 && Live(leaves, hist, |hist|) == {heap[1]}
  {
    hide Live, Numbered;
    LiveNext(leaves, hist, |hist| - 1);
    NumberedAt(leaves, hist, elems, |hist| - 1);
    assert heap[1] in Members(heap, 1);
  }

  lemma EndState(tree: seq<CtData>, heap: seq<nat>, heap': seq<nat>, max: nat, leaves: set<nat>, hist: seq<Merge>,
                 F: seq<nat>, total: int)
    requires State(tree, heap, 1, max, leaves, hist, F, total) && |hist| >= 1 && max >= 1
    requires |heap'| == |heap| && heap'[max - 1] == heap[1] && forall i :: max <= i < |heap| ==> heap'[i] == heap[i]
    ensures Built(tree, heap', max - 1, leaves, hist, F)
  {
    hide Live, Numbered, AllJoin, Total, DadsOk, LeavesOk, Nodes;
    LastNode(heap, leaves, hist, |F|, |F| + |hist|);
  }

  lemma StateSizes(tree: seq<CtData>, heap: seq<nat>, len: nat, max: nat, leaves: set<nat>, hist: seq<Merge>,
                   F: seq<nat>, total: int)
    requires State(tree, heap, len, max, leaves, hist, F, total)
    ensures 1 <= len < |heap| && len + |hist| <= |F| && max + 2 * |hist| == |heap| && 2 * |F| < |tree| <= |heap|
  {
    hide Live, Numbered, AllJoin, Total, DadsOk, LeavesOk, Nodes, SortedOk;
  }
}
