/** build_tree: collecting the symbols in use, forcing two codes, and building the tree. */
module TreeBuilding {
  import opened Sums
  import opened Huffman
  import opened HuffmanRuns
  import opened Trees
  import opened CodeLengths
  import opened Heaps
  import opened Merging
  import opened BitLengths
  import opened FirstPass
  import opened SecondPass
  import opened Forcing
  import opened Bits
  import opened PrefixCodes

  lemma TwoMembers(L: set<nat>, g: seq<int>, n: nat, m: nat)
    requires n < |g| && m < |g| && n in L && m in L && n != m && forall i :: 0 <= i < |g| ==> g[i] >= 0
    ensures g[n] + g[m] <= Total(L, g)
  {
    DropMember(L, n, g);
    DropMember(L - {n}, m, g);
    SumNonNegative(L - {n} - {m}, g, |g|);
  }

  /** Frequencies stay within 16 bits as long as their sum does. */
  lemma NoWrap(tree: seq<CtData>, live: set<nat>, n: nat, m: nat)
    requires LeastTwo(tree, live, n, m) && Total(live, Weights(tree)) <= 65535
    ensures tree[n].fc + tree[m].fc <= 65535
  {
    TwoMembers(live, Weights(tree), n, m);
    hide Total;
  }

  lemma QueueIs(heap: seq<nat>, len: nat, live: set<nat>, bound: nat)
    ensures QueueOk(heap, len, live, bound)
        <==> len < |heap| && Nodes(heap, len, bound) && Members(heap, len) == live
  {}

  /** tree_desc: a tree, the fixed tree that goes with it (or null), and the limits of its code. */
  class TreeDesc {
    const dynTree: array<CtData>
    const staticTree: array?<CtData>
    const extraBits: seq<nat>
    const extraBase: nat
    const elems: nat
    const maxLength: nat
    var maxCode: int

    constructor (dynTree: array<CtData>, staticTree: array?<CtData>, extraBits: seq<nat>, extraBase: nat, elems: nat,
                 maxLength: nat)
      ensures this.dynTree == dynTree && this.staticTree == staticTree && this.extraBits == extraBits
      ensures this.extraBase == extraBase && this.elems == elems && this.maxLength == maxLength && maxCode == 0
    {
      this.dynTree, this.staticTree, this.extraBits := dynTree, staticTree, extraBits;
      this.extraBase, this.elems, this.maxLength, this.maxCode := extraBase, elems, maxLength, 0;
    }

    /** Extra bits that follow the code of symbol n. */
    function Extra(n: nat): nat {
      if n >= extraBase && n - extraBase < |extraBits| then extraBits[n - extraBase] else 0
    }

    function Extras(): (s: seq<nat>)
      ensures |s| == elems && forall i :: 0 <= i < elems ==> s[i] == Extra(i)
    {
      seq(elems, i requires 0 <= i < elems => Extra(i))
    }

    ghost function StaticLens(): (s: seq<nat>)
      reads if staticTree == null then {} else {staticTree}
      ensures staticTree == null ==> s == []
      ensures staticTree != null ==> s == Dls(staticTree[..])
    {
      if staticTree == null then [] else Dls(staticTree[..])
    }

    ghost predicate Valid() {
      3 <= elems && 2 * elems < dynTree.Length && dynTree != staticTree && 2 <= maxLength <= MAX_BITS
      && (staticTree != null ==> elems <= staticTree.Length) && elems <= Pow2(maxLength)
      && elems <= extraBase + |extraBits| && forall n :: 0 <= n < 3 ==> Extra(n) == 0
    }
  }

  class TreeBuilder {
    const heap: array<nat>
    const depth: array<nat>
    var heapLen: nat
    var heapMax: nat
    var blCount: seq<nat>
    var optLen: int
    var staticLen: int

    constructor (size: nat)
      ensures fresh(heap) && fresh(depth) && heap != depth && heap.Length == depth.Length == size
      ensures optLen == 0 && staticLen == 0
    {
      heap, depth := new nat[size](_ => 0), new nat[size](_ => 0);
      heapLen, heapMax, blCount, optLen, staticLen := 0, 0, [], 0, 0;
    }

    ghost predicate Sized(tree: array<CtData>)
    {
      heap != depth && heap.Length == depth.Length && tree.Length <= heap.Length
    }

    lemma SizedIs(tree: array<CtData>)
      ensures Sized(tree) <==> heap != depth && heap.Length == depth.Length && tree.Length <= heap.Length
    {}

    /** The macro pqremove: take the node of least frequency. */
    method PqRemove(tree: array<CtData>, ghost bound: nat) returns (top: nat)
      requires Sized(tree) && 2 <= heapLen && Nodes(heap[..], heapLen, bound) && bound <= tree.Length
      requires Ordered(tree[..], depth[..], heap[..], heapLen, 1)
      modifies this`heapLen, heap
      ensures heapLen == old(heapLen) - 1 && Nodes(heap[..], heapLen, bound)
      ensures Ordered(tree[..], depth[..], heap[..], heapLen, 1)
      ensures Members(heap[..], heapLen) == Members(old(heap[..]), old(heapLen)) - {top}
      ensures top in Members(old(heap[..]), old(heapLen)) && top < tree.Length
      ensures forall x :: x in Members(old(heap[..]), old(heapLen)) ==> x < tree.Length && tree[top].fc <= tree[x].fc
      ensures forall i :: old(heapLen) < i < heap.Length ==> heap[i] == old(heap[i])
    {
      hide Smaller, Ordered, Members, Nodes;
      ghost var h: seq<nat> := heap[..];
      NodesRange(h, heapLen, bound);
      NodesWider(h, heapLen, bound, tree.Length);
      LeastFrequent(tree[..], depth[..], h, heapLen);
      DropTop(h, heapLen, tree.Length);
      DropTop(h, heapLen, bound);
      top := heap[1];
      heap[1] := heap[heapLen];
      assert heap[..] == h[1 := h[heapLen]];
      OrderLater(tree[..], depth[..], h, heapLen, heapLen - 1, 1);
      heapLen := heapLen - 1;
      SetTop(tree[..], depth[..], h, heap[..], heapLen);
      NodesRange(heap[..], heapLen, bound);
      ghost var k: seq<nat> := heap[..];
      PqDownHeap(tree, depth, heap, heapLen, 1);
      NarrowNodes(k, heap[..], heapLen, bound, tree.Length);
    }

    /** Create the father of n and m. */
    method GiveFather(tree: array<CtData>, node: nat, n: nat, m: nat)
      requires Sized(tree) && n < tree.Length && m < tree.Length && node < tree.Length && node != n && node != m && n != m
      requires tree[n].fc + tree[m].fc <= 65535
      modifies tree, depth
      ensures tree[..] == WithFather(old(tree[..]), n, m, node)
      ensures forall i :: 0 <= i < depth.Length && i != node ==> depth[i] == old(depth[i])
    {
      FatherSet(tree[..], n, m, node);
      tree[node] := tree[node].(fc := (tree[n].fc + tree[m].fc) % 65536);
      depth[node] := ((if depth[n] > depth[m] then depth[n] else depth[m]) + 1) % 256;
      tree[m] := tree[m].(dl := node);
      tree[n] := tree[n].(dl := node);
    }

    /** Put a new node in the place of the top one. */
    method ReplaceTopNode(tree: array<CtData>, node: nat)
      requires Sized(tree) && 1 <= heapLen && Nodes(heap[..], heapLen, node) && node < tree.Length
      requires Ordered(tree[..], depth[..], heap[..], heapLen, 1)
      modifies heap
      ensures Nodes(heap[..], heapLen, node + 1)
      ensures Members(heap[..], heapLen) == Members(old(heap[..]), heapLen) - {old(heap[1])} + {node}
      ensures Ordered(tree[..], depth[..], heap[..], heapLen, 1)
      ensures forall i :: heapLen < i < heap.Length ==> heap[i] == old(heap[i])
    {
      hide Smaller, Ordered, Members, Nodes;
      ghost var h: seq<nat> := heap[..];
      NodesRange(h, heapLen, node);
      NodesIn(h, heapLen, node);
      NodesWider(h, heapLen, node, node + 1);
      ReplaceTop(h, heapLen, node, node + 1);
      heap[1] := node;
      assert heap[..] == h[1 := node];
      SetTopAny(tree[..], depth[..], h, heap[..], heapLen);
      NodesWider(heap[..], heapLen, node + 1, tree.Length);
      ghost var k: seq<nat> := heap[..];
      PqDownHeap(tree, depth, heap, heapLen, 1);
      NarrowNodes(k, heap[..], heapLen, node + 1, tree.Length);
    }

    /** One round of the loop: the two least nodes get a father, which goes into the queue. */
    method JoinLeast(tree: array<CtData>, node: nat, ghost leaves: set<nat>, ghost hist: seq<Merge>, ghost F: seq<nat>,
                     ghost total: int) returns (ghost n: nat, ghost m: nat)
      requires Sized(tree) && heapLen >= 2 && node == |F| + |hist| && total <= 65535
      requires State(tree[..], heap[..], heapLen, heapMax, leaves, hist, F, total)
      requires Ordered(tree[..], depth[..], heap[..], heapLen, 1)
      modifies this`heapLen, this`heapMax, heap, depth, tree
      ensures heapLen == old(heapLen) - 1
      ensures State(tree[..], heap[..], heapLen, heapMax, leaves, hist + [Merge(n, m, node)], F, total)
      ensures Ordered(tree[..], depth[..], heap[..], heapLen, 1)
    {
      hide *;
      SizedIs(tree);
      ghost var t: seq<CtData>, h0: seq<nat>, len0, max0 := tree[..], heap[..], heapLen, heapMax;
      ghost var live := Live(leaves, hist, |hist|);
      StateFacts(t, h0, len0, max0, leaves, hist, F, total);
      var least, next := TakeTwo(tree, node, live);
      n, m := least, next;
      NoWrap(t, live, n, m);
      ghost var h1: seq<nat>, d1: seq<nat> := heap[..], depth[..];
      GiveFather(tree, node, least, next);
      OrderKept(t, tree[..], d1, depth[..], h1, heap[..], heapLen, 1, node);
      ReplaceTopNode(tree, node);
      QueueIs(heap[..], heapLen, live - {n} - {m} + {node}, node + 1);
      MergeStep(t, h0, heap[..], len0, max0, leaves, hist, F, total, n, m);
    }

    /** The two least nodes: the first leaves the queue, the second stays on top; both go to the sorted part of the heap. */
    method TakeTwo(tree: array<CtData>, node: nat, ghost live: set<nat>) returns (least: nat, next: nat)
      requires Sized(tree) && heapLen >= 2 && node <= tree.Length && heapLen + 2 <= heapMax <= heap.Length
      requires Nodes(heap[..], heapLen, node) && Members(heap[..], heapLen) == live && node !in live
      requires Ordered(tree[..], depth[..], heap[..], heapLen, 1)
      modifies this`heapLen, this`heapMax, heap
      ensures heapLen == old(heapLen) - 1 && heapMax == old(heapMax) - 2
      ensures Nodes(heap[..], heapLen, node) && Ordered(tree[..], depth[..], heap[..], heapLen, 1)
      ensures Members(heap[..], heapLen) == live - {least} && heap[1] == next && LeastTwo(tree[..], live, least, next)
      ensures least < tree.Length && next < tree.Length && least != next && least != node && next != node
      ensures heap[heapMax + 1] == least && heap[heapMax] == next
      ensures forall i :: old(heapMax) <= i < heap.Length ==> heap[i] == old(heap[i])
    {
      hide *;
      SizedIs(tree);
      least := PqRemove(tree, node);
      NodesRange(heap[..], heapLen, node);
      NodesWider(heap[..], heapLen, node, tree.Length);
      LeastFrequent(tree[..], depth[..], heap[..], heapLen);
      next := heap[1];
      LeastTwoMade(tree[..], live, least, next);
      ghost var h1: seq<nat> := heap[..];
      heapMax := heapMax - 1;
      heap[heapMax] := least;
      heapMax := heapMax - 1;
      heap[heapMax] := next;
      SameQueue(h1, heap[..], heapLen, node);
      OrderKept(tree[..], tree[..], depth[..], depth[..], h1, heap[..], heapLen, 1, node);
    }

    /** Establish sub-heaps of increasing lengths. */
    method Heapify(tree: array<CtData>)
      requires Sized(tree) && 1 <= heapLen && Nodes(heap[..], heapLen, tree.Length)
      modifies heap
      ensures Nodes(heap[..], heapLen, tree.Length) && Members(heap[..], heapLen) == Members(old(heap[..]), heapLen)
      ensures Ordered(tree[..], depth[..], heap[..], heapLen, 1)
    {
      hide Smaller, Members, Nodes;
      NodesRange(heap[..], heapLen, tree.Length);
      var n := heapLen / 2;
      NoFathers(tree[..], depth[..], heap[..], heapLen);
      hide Ordered;
      while n >= 1
        invariant 0 <= n <= heapLen / 2
        invariant Nodes(heap[..], heapLen, tree.Length) && Members(heap[..], heapLen) == Members(old(heap[..]), heapLen)
        invariant Ordered(tree[..], depth[..], heap[..], heapLen, n + 1)
      {
        PqDownHeap(tree, depth, heap, heapLen, n);
        n := n - 1;
      }
    }

    /** The loop of build_tree: combine the two least frequent nodes until one is left. */
    method MergeAll(tree: array<CtData>, elems: nat, ghost leaves: set<nat>, ghost F: seq<nat>)
      returns (ghost hist: seq<Merge>)
      requires Sized(tree) && |F| == elems && 2 <= heapLen <= elems && heapMax == heap.Length && 2 * elems < tree.Length
      requires Nodes(heap[..], heapLen, elems) && Members(heap[..], heapLen) == leaves
      requires LeavesOk(tree[..], leaves, F) && Total(leaves, Weights(tree[..])) <= 65535
      modifies this`heapLen, this`heapMax, heap, depth, tree
      ensures Built(tree[..], heap[..], heapMax, leaves, hist, F) && |hist| == old(heapLen) - 1
    {
      hide State, Smaller, Ordered, Members, Nodes, Live, Total, LeastTwo, QueueOk, SizesOk, Weights, LeavesOk, Built;
      NodesRange(heap[..], heapLen, elems);
      NodesWider(heap[..], heapLen, elems, tree.Length);
      ghost var h0: seq<nat> := heap[..];
      Heapify(tree);
      NarrowNodes(h0, heap[..], heapLen, elems, tree.Length);
      StartState(tree[..], heap[..], heapLen, leaves, F);
      ghost var total := Total(leaves, Weights(tree[..]));
      ghost var len0 := heapLen;
      hist := [];
      var node := elems;
      while heapLen >= 2
        invariant 1 <= heapLen && heapLen + |hist| == len0 && node == elems + |hist| && Sized(tree)
        invariant State(tree[..], heap[..], heapLen, heapMax, leaves, hist, F, total)
        invariant Ordered(tree[..], depth[..], heap[..], heapLen, 1)
        decreases heapLen
      {
        ghost var n, m := JoinLeast(tree, node, leaves, hist, F, total);
        hist := hist + [Merge(n, m, node)];
        node := node + 1;
      }
      ghost var h: seq<nat> := heap[..];
      StateSizes(tree[..], h, heapLen, heapMax, leaves, hist, F, total);
      heapMax := heapMax - 1;
      heap[heapMax] := heap[1];
      EndState(tree[..], h, heap[..], heapMax + 1, leaves, hist, F, total);
    }

    // ---- gen_bitlen

    /** The length of one node from its father's; counts a leaf and its bits. */
    method SetLength(desc: TreeDesc, n: nat) returns (over: bool)
      requires desc.Valid() && n < desc.dynTree.Length && desc.dynTree[n].dl < desc.dynTree.Length
      requires |blCount| == MAX_BITS + 1 && desc.maxCode < desc.elems
      modifies this`blCount, this`optLen, this`staticLen, desc.dynTree
      ensures var t := old(desc.dynTree[..]);
              var d := t[t[n].dl].dl + 1;
              over == (d > desc.maxLength)
              && desc.dynTree[..] == t[n := t[n].(dl := Cut(d, desc.maxLength))]
              && (n > desc.maxCode ==> blCount == old(blCount) && optLen == old(optLen) && staticLen == old(staticLen))
              && (n <= desc.maxCode
                  ==> Changed(old(blCount), blCount, Cut(d, desc.maxLength), 1)
                      && optLen == old(optLen) + Product(t[n].fc, Cut(d, desc.maxLength) + desc.Extra(n))
                      && staticLen == old(staticLen) + if desc.staticTree == null then 0
                                                      else Product(t[n].fc, old(desc.StaticLens())[n] + desc.Extra(n)))
    {
      hide Pow2;
      var tree := desc.dynTree;
      var bits := tree[tree[n].dl].dl + 1;
      over := bits > desc.maxLength;
      if over {
        bits := desc.maxLength;
      }
      tree[n] := tree[n].(dl := bits);
      if n > desc.maxCode {
        return;
      }
      blCount := blCount[bits := blCount[bits] + 1];
      var xbits := 0;
      if n >= desc.extraBase {
        xbits := desc.extraBits[n - desc.extraBase];
      }
      var f := tree[n].fc;
      optLen := optLen + f * (bits + xbits);
      if desc.staticTree != null {
        staticLen := staticLen + f * (desc.staticTree[n].dl + xbits);
      }
    }

    /** The tree and this builder are as the merging loop left them. */
    ghost predicate Holds(desc: TreeDesc, G: Grown)
      reads this, desc, desc.dynTree, heap
    {
      desc.Valid() && GrownOk(G) && heap[..] == G.heap && heapMax == G.max && |G.F| == desc.elems
      && |desc.dynTree[..]| == |G.tree| && -1 <= desc.maxCode < desc.elems && forall x :: x in G.leaves ==> x <= desc.maxCode
    }

    method FirstLengths(desc: TreeDesc, ghost G: Grown, ghost D: seq<nat>) returns (overflow: nat)
      requires Holds(desc, G) && desc.dynTree[..] == G.tree && Deep(G, D)
      modifies this`blCount, this`optLen, this`staticLen, desc.dynTree
      ensures Holds(desc, G)
      ensures Root(G) >= 0 && overflow == Total(From(G.hist, Root(G), 0), Above(D, desc.maxLength))
      ensures Counted(G.leaves, Capped(D, desc.maxLength), blCount) && |blCount| == MAX_BITS + 1
      ensures Kraft(G.leaves, Capped(D, desc.maxLength), M) == Spread(blCount, MAX_BITS)
      ensures Codes(blCount, MAX_BITS) == |G.leaves|
      ensures |D| == |G.tree| && optLen == old(optLen) + Cost(G.leaves, G.F, BitsOf(Capped(D, desc.maxLength), desc.Extras()))
      ensures staticLen == old(staticLen) + if desc.staticTree == null then 0
                                            else Cost(G.leaves, G.F, BitsOf(desc.StaticLens(), desc.Extras()))
      ensures forall x :: 0 <= x < desc.dynTree.Length ==> desc.dynTree[x].fc == G.tree[x].fc
      ensures forall x :: x in G.leaves ==> x < desc.dynTree.Length && desc.dynTree[x].dl == Cut(D[x], desc.maxLength)
      ensures forall x :: 0 <= x < desc.elems && x !in G.leaves ==> desc.dynTree[x].dl == 0
    {
      hide GrownOk, Deep, Passing, Root, From, Counted, Spread, Codes, Kraft, Cost, Above, Capped, Cut, Product, Changed, Pow2,
           Total, BitsOf;
      ghost var X, S := desc.Extras(), desc.StaticLens();
      ghost var opt0, stat0, max := optLen, staticLen, desc.maxLength;
      blCount := seq(MAX_BITS + 1, _ => 0);
      PassingStarts(G, D, max, X, S, blCount);
      var tree := desc.dynTree;
      tree[heap[heapMax]] := tree[heap[heapMax]].(dl := 0);
      overflow := 0;
      var h := heapMax + 1;
      ghost var k: nat, half, done: set<nat> := |G.hist|, false, {Root(G) as nat};
      while h < heap.Length
        invariant Holds(desc, G) && S == desc.StaticLens()
        invariant Passing(G, D, max, X, S, tree[..], h, k, half, done, overflow, blCount, optLen - opt0, staticLen - stat0)
        decreases heap.Length - h
      {
        var n := heap[h];
        ghost var t: seq<CtData>, bl, opt, stat := tree[..], blCount, optLen - opt0, staticLen - stat0;
        PassingNode(G, D, max, X, S, t, h, k, half, done, overflow, bl, opt, stat);
        var over := SetLength(desc, n);
        PassingStep(G, D, max, X, S, t, h, k, half, done, overflow, bl, opt, stat,
                    t[t[n].dl].dl + 1, blCount, optLen - opt0, staticLen - stat0);
        if over {
          overflow := overflow + 1;
        }
        done := done + {n};
        k, half := if half then k - 1 else k, !half;
        h := h + 1;
      }
      PassingAt(G, D, max, X, S, tree[..], h, k, half, done, overflow, blCount, optLen - opt0, staticLen - stat0);
      PassEnds(G, D, max, tree[..], h, k, half, done);
      AddedFacts(G.F, D, max, X, S, done, overflow, blCount, optLen - opt0, staticLen - stat0);
    }

    /** Find a code to lengthen, as often as two nodes were cut off. */
    method RepairCounts(maxLen: nat, overflow: nat, ghost n: nat)
      requires overflow > 0 && overflow % 2 == 0 && Overfull(blCount, maxLen, overflow / 2, n)
      modifies this`blCount
      ensures Overfull(blCount, maxLen, 0, n)
    {
      hide Overfull, Moved;
      var ov: int := overflow;
      while ov > 0
        invariant 0 <= ov <= overflow && ov % 2 == 0 && Overfull(blCount, maxLen, ov / 2, n)
        decreases ov
      {
        OverfullFacts(blCount, maxLen, ov / 2, n);
        ShorterExists(blCount, maxLen, ov / 2, n);
        var bits := maxLen - 1;
        while blCount[bits] == 0
          invariant 1 <= bits < maxLen && Overfull(blCount, maxLen, ov / 2, n) && |blCount| == MAX_BITS + 1
          invariant exists b :: 1 <= b <= bits && blCount[b] > 0
          decreases bits
        {
          bits := bits - 1;
        }
        MoveOne(blCount, bits, maxLen, ov / 2, n);
        MovedIs(blCount, bits, maxLen);
        blCount := blCount[bits := blCount[bits] - 1];
        blCount := blCount[bits + 1 := blCount[bits + 1] + 2];
        blCount := blCount[maxLen := blCount[maxLen] - 1];
        ov := ov - 2;
      }
    }

    /** Recompute all lengths, scanning in increasing frequency. */
    method Reassign(desc: TreeDesc, ghost G: Grown) returns (ghost h0: nat)
      requires Holds(desc, G) && |blCount| == MAX_BITS + 1 && blCount[0] == 0
      requires (forall b :: desc.maxLength < b <= MAX_BITS ==> blCount[b] == 0) && Codes(blCount, MAX_BITS) == |G.leaves|
      requires forall x :: 0 <= x < desc.dynTree.Length ==> desc.dynTree[x].fc == G.tree[x].fc
      modifies this`optLen, desc.dynTree
      ensures Holds(desc, G) && Counted(G.leaves, Dls(desc.dynTree[..]), blCount)
      ensures forall x :: x in G.leaves ==> x < desc.dynTree.Length && desc.dynTree[x].dl <= desc.maxLength
      ensures forall x :: 0 <= x < desc.dynTree.Length ==> desc.dynTree[x].fc == old(desc.dynTree[x].fc)
      ensures forall x :: 0 <= x < desc.dynTree.Length && x !in G.leaves ==> desc.dynTree[x].dl == old(desc.dynTree[x].dl)
      ensures optLen - old(optLen) == Cost(G.leaves, G.F, BitsOf(Dls(desc.dynTree[..]), desc.Extras()))
                                      - Cost(G.leaves, G.F, BitsOf(Dls(old(desc.dynTree[..])), desc.Extras()))
      ensures G.max < h0 && Falling(G, desc.dynTree[..], h0, 0)
      ensures forall i :: G.max < i < h0 && i < |G.heap| ==> G.heap[i] !in G.leaves
    {
      hide GrownOk, Assigning, Listed, Counted, Codes, Cost, BitsOf, Dls, Falling, Pow2;
      var tree := desc.dynTree;
      ghost var t0: seq<CtData>, X, max, bl := tree[..], desc.Extras(), desc.maxLength, blCount;
      GrownListed(G);
      AssignStarts(G, t0, max, bl);
      var h: nat := heap.Length;
      ghost var done: set<nat> := {};
      var bits: nat := desc.maxLength;
      while bits != 0
        invariant 0 <= bits <= max && Holds(desc, G) && blCount == bl
        invariant Assigning(G, t0, tree[..], max, bl, h, bits, bl[bits], done)
        invariant optLen - old(optLen) == Cost(G.leaves, G.F, BitsOf(Dls(tree[..]), X)) - Cost(G.leaves, G.F, BitsOf(Dls(t0), X))
        decreases bits
      {
        var n: nat := blCount[bits];
        while n != 0
          invariant 0 <= n <= bl[bits] && Holds(desc, G) && blCount == bl
          invariant Assigning(G, t0, tree[..], max, bl, h, bits, n, done)
          invariant optLen - old(optLen) == Cost(G.leaves, G.F, BitsOf(Dls(tree[..]), X)) - Cost(G.leaves, G.F, BitsOf(Dls(t0), X))
          decreases h
        {
          AssignFacts(G, t0, tree[..], max, bl, h, bits, n, done);
          LeafLeft(G, t0, tree[..], max, bl, h, bits, n, done);
          h := h - 1;
          var m := heap[h];
          ListedNode(G, h);
          if m > desc.maxCode {
            AssignInner(G, t0, tree[..], max, bl, h + 1, bits, n, done);
            continue;
          }
          AssignLeaf(G, t0, tree[..], max, bl, h + 1, bits, n, done);
          CostMoves(G.leaves, G.F, X, tree[..], m, bits);
          done := done + {m};
          n := n - 1;
          if tree[m].dl != bits {
            optLen := optLen + (bits - tree[m].dl) * tree[m].fc;
            tree[m] := tree[m].(dl := bits);
          } else {
            assert tree[..] == tree[..][m := tree[m].(dl := bits)];
          }
        }
        AssignShorter(G, t0, tree[..], max, bl, h, bits, done);
        bits := bits - 1;
      }
      AssignEnds(G, t0, tree[..], max, bl, h, done);
      h0 := h;
    }

    method GenBitlen(desc: TreeDesc, ghost G: Grown) returns (ghost D: seq<nat>)
      requires Holds(desc, G) && desc.dynTree[..] == G.tree
      modifies this`blCount, this`optLen, this`staticLen, desc.dynTree
      ensures Holds(desc, G) && Deep(G, D) && Lengthened(G, D, desc.dynTree[..], desc.maxLength, blCount)
      ensures Limited(G, D, desc.dynTree[..], desc.maxLength)
      ensures optLen == old(optLen) + Cost(G.leaves, G.F, BitsOf(Dls(desc.dynTree[..]), desc.Extras()))
      ensures staticLen == old(staticLen) + if desc.staticTree == null then 0
                                            else Cost(G.leaves, G.F, BitsOf(desc.StaticLens(), desc.Extras()))
    {
      hide GrownOk, Deep, Root, From, Counted, Spread, Codes, Kraft, Cost, Above, Capped, Cut, Pow2, Total, BitsOf,
           Dls, Overfull, Lengthened, Limited, Falling;
      ghost var max, X := desc.maxLength, desc.Extras();
      D := DepthsExist(G);
      LeavesFit(G, max);
      var overflow := FirstLengths(desc, G, D);
      PassResult(G, D, max, overflow, blCount);
      UncutLengths(G, D, desc.dynTree[..], max, blCount, X);
      if overflow == 0 {
        return;
      }
      RepairCounts(desc.maxLength, overflow, |G.leaves|);
      OverfullFacts(blCount, max, 0, |G.leaves|);
      ghost var h := Reassign(desc, G);
      ReassignedLengths(G, D, desc.dynTree[..], max, blCount, h);
    }

    // ---- build_tree

    /** The state while leaves are put into the heap array: F are the frequencies, maxCode the last one in use. */
    ghost predicate Collected(desc: TreeDesc, F: seq<nat>, maxCode: int)
      reads this, desc.dynTree, heap
    {
      desc.Valid() && heap.Length > 2 * desc.elems && |F| == desc.elems && heapLen <= desc.elems && -1 <= maxCode < desc.elems
      && Nodes(heap[..], heapLen, desc.elems) && Members(heap[..], heapLen) == Used(F)
      && LeavesOk(desc.dynTree[..], Used(F), F)
      && (forall i :: maxCode < i < |F| ==> F[i] == 0) && (maxCode >= 0 ==> F[maxCode] > 0)
    }

    method CollectLeaves(desc: TreeDesc, ghost F: seq<nat>) returns (maxCode: int)
      requires desc.Valid() && heap.Length > 2 * desc.elems && heap.Length == depth.Length && heap != depth
      requires F == Freqs(desc.dynTree[..], desc.elems)
      modifies this`heapLen, this`heapMax, heap, depth, desc.dynTree
      ensures Collected(desc, F, maxCode) && heapMax == heap.Length
    {
      hide Nodes, Pow2;
      var tree := desc.dynTree;
      heapLen, heapMax, maxCode := 0, heap.Length, -1;
      EmptyNodes(heap[..], desc.elems);
      var n := 0;
      while n < desc.elems
        invariant 0 <= n <= desc.elems && heapLen <= n && -1 <= maxCode < n && heapMax == heap.Length
        invariant Nodes(heap[..], heapLen, desc.elems)
        invariant forall x: nat :: x in Members(heap[..], heapLen) <==> x < n && F[x] != 0
        invariant forall i :: 0 <= i < tree.Length ==> tree[i].fc == old(tree[i].fc)
        invariant forall i :: 0 <= i < n && F[i] == 0 ==> tree[i].dl == 0
        invariant (forall i :: maxCode < i < n ==> F[i] == 0) && (maxCode >= 0 ==> F[maxCode] > 0)
      {
        if tree[n].fc != 0 {
          PushNode(heap[..], heapLen, n, desc.elems);
          ghost var h: seq<nat> := heap[..];
          heapLen := heapLen + 1;
          heap[heapLen] := n;
          assert heap[..] == h[heapLen := n];
          maxCode := n;
          depth[n] := 0;
        } else {
          tree[n] := tree[n].(dl := 0);
        }
        n := n + 1;
      }
    }

    /** At least two codes: symbols are given frequency 1 until there are. */
    method ForceCodes(desc: TreeDesc, maxCode0: int, ghost F0: seq<nat>) returns (maxCode: int, ghost F: seq<nat>, ghost xs: seq<nat>)
      requires Collected(desc, F0, maxCode0) && heap.Length == depth.Length && heap != depth
      modifies this`heapLen, this`optLen, this`staticLen, heap, depth, desc.dynTree
      ensures Collected(desc, F, maxCode) && heapLen >= 2
      ensures Forcible(F0, xs) && F == Force(F0, xs) && |xs| <= 2 && (xs != [] ==> heapLen == 2)
      ensures optLen == old(optLen) - |xs|
      ensures staticLen == old(staticLen) - if desc.staticTree == null then 0 else SumAt(xs, desc.StaticLens()[..desc.elems])
    {
      hide Nodes, Pow2, Members, Used, LeavesOk, Forcible, Force, SumAt;
      maxCode, F, xs := maxCode0, F0, [];
      ghost var S := if desc.staticTree == null then [] else desc.StaticLens()[..desc.elems];
      NothingForced(F0, S);
      var tree := desc.dynTree;
      while heapLen < 2
        invariant Collected(desc, F, maxCode)
        invariant Forcible(F0, xs) && F == Force(F0, xs) && |xs| <= heapLen && (xs != [] ==> heapLen <= 2)
        invariant optLen == old(optLen) - |xs|
        invariant staticLen == old(staticLen) - if desc.staticTree == null then 0 else SumAt(xs, S)
        decreases 2 - heapLen
      {
        Forceable(F, heap[..], heapLen, maxCode);
        var x: nat := if maxCode < 2 then maxCode + 1 else 0;
        maxCode := if maxCode < 2 then maxCode + 1 else maxCode;
        ghost var h: seq<nat>, t: seq<CtData> := heap[..], tree[..];
        UsedForced(F, x);
        PushNode(h, heapLen, x, desc.elems);
        ForcibleOne(F0, xs, x);
        ForceOne(F0, xs, x);
        LeafForced(t, F, x);
        heapLen := heapLen + 1;
        heap[heapLen] := x;
        assert heap[..] == h[heapLen := x];
        tree[x] := tree[x].(fc := 1);
        depth[x] := 0;
        optLen := optLen - 1;
        if desc.staticTree != null {
          SumAtOne(xs, x, S);
          staticLen := staticLen - desc.staticTree[x].dl;
        }
        F, xs := F[x := 1], xs + [x];
      }
    }

    /** Construct one Huffman tree and assign the code bit strings and lengths. F are the frequencies with those
        forced, depths the depths of the symbols in the tree. */
    method BuildTree(desc: TreeDesc) returns (ghost F: seq<nat>, ghost depths: seq<nat>)
      requires desc.Valid() && heap.Length == depth.Length && heap != depth && desc.dynTree.Length <= heap.Length
      requires var F0 := Freqs(desc.dynTree[..], desc.elems);
               Total(Used(F0), F0) <= 65533
      modifies this, heap, depth, desc, desc.dynTree
      ensures desc.Valid() && 0 <= desc.maxCode < desc.elems
      ensures GoodLengths(F, Dls(desc.dynTree[..])[..desc.elems], desc.maxCode, desc.maxLength, depths)
      ensures Coded(desc.dynTree[..], Lens(desc.dynTree[..], desc.maxCode + 1))
      ensures var F0 := Freqs(old(desc.dynTree[..]), desc.elems);
              |F| == |F0| && (forall i :: 0 <= i < |F| && F0[i] != 0 ==> F[i] == F0[i])
              && (F != F0 ==> forall i :: 0 <= i < |F| ==> F[i] > 0 ==> desc.dynTree[i].dl == 1)
              && optLen == old(optLen) + Cost(Used(F0), F0, BitsOf(Dls(desc.dynTree[..]), desc.Extras()))
              && staticLen == old(staticLen) + if desc.staticTree == null then 0
                                               else Cost(Used(F0), F0, BitsOf(old(desc.StaticLens()), desc.Extras()))
    {
      hide Nodes, Pow2, Members, Used, LeavesOk, Forcible, Force, SumAt, GoodLengths, Cost, BitsOf, Dls, Built, Deep, Lengthened,
           Limited, Coded, Total, Weights, Oversubscribed, Freqs, Lens, Count;
      ghost var F0, X := Freqs(desc.dynTree[..], desc.elems), desc.Extras();
      ghost var S := desc.StaticLens();
      var maxCode := CollectLeaves(desc, F0);
      ghost var xs;
      maxCode, F, xs := ForceCodes(desc, maxCode, F0);
      desc.maxCode := maxCode;
      ForcedTotals(F0, xs);
      TreeTotal(desc.dynTree[..], F);
      CodeRange(F, maxCode, heap[..], heapLen);
      ghost var hist := MergeAll(desc.dynTree, desc.elems, Used(F), F);
      ghost var G := Grown(desc.dynTree[..], heap[..], heapMax, Used(F), hist, F);
      ghost var D := GenBitlen(desc, G);
      ghost var t: seq<CtData> := desc.dynTree[..];
      GoodMade(G, D, t, desc.maxLength, blCount, maxCode);
      depths := D[..desc.elems];
      BillForced(G, D, t, desc.maxLength, blCount, F0, xs, X, S);
      CodeLengthsOk(F, Dls(t)[..desc.elems], maxCode, desc.maxLength, depths);
      DlsOf(t, maxCode + 1, desc.elems);
      GenCodes(desc.dynTree, maxCode, blCount);
      SameDls(t, desc.dynTree[..]);
    }
  }

  lemma LeafForced(t: seq<CtData>, F: seq<nat>, x: nat)
    requires LeavesOk(t, Used(F), F) && x < |F| && F[x] == 0
    ensures x < |t| && LeavesOk(t[x := t[x].(fc := 1)], Used(F[x := 1]), F[x := 1])
  {}

  lemma LeavesFit(G: Grown, max: nat)
    requires GrownOk(G)
    ensures |G.F| <= Pow2(max) ==> |G.leaves| <= Pow2(max)
  {
    hide *;
    GrownFacts(G);
    LiveFirst(G.leaves, G.hist, |G.F|);
    SmallSet(G.leaves, |G.F|);
  }

  lemma OverfullFacts(bl: seq<nat>, max: nat, ov: nat, n: nat)
    requires Overfull(bl, max, ov, n)
    ensures |bl| == MAX_BITS + 1 && 2 <= max <= MAX_BITS && bl[max] >= 1 && bl[0] == 0
    ensures forall b :: max < b <= MAX_BITS ==> bl[b] == 0
    ensures Codes(bl, MAX_BITS) == n
    ensures ov == 0 ==> Spread(bl, MAX_BITS) == Pow2(M)
  {
    hide Spread, Codes, Pow2, Share;
  }

  lemma MovedIs(bl: seq<nat>, b: nat, max: nat)
    requires b + 1 < |bl| && max < |bl| && b < max && bl[b] > 0 && bl[max] > 0
    ensures var s := bl[b := bl[b] - 1];
            var t := s[b + 1 := s[b + 1] + 2];
            t[max] >= 1 && Moved(bl, b, max) == t[max := t[max] - 1]
  {}

  lemma GrownListed(G: Grown)
    requires GrownOk(G)
    ensures Listed(G.heap, G.max, G.leaves) && G.max < |G.heap|
  {
    hide Built;
    AllListed(G.tree, G.heap, G.max, G.leaves, G.hist, G.F);
  }

  /** Where the nodes of the heap array are, and which are leaves. */
  lemma ListedNode(G: Grown, h: nat)
    requires GrownOk(G) && G.max < h < |G.heap|
    ensures G.heap[h] < |G.tree| && (G.heap[h] < |G.F| ==> G.heap[h] in G.leaves && G.tree[G.heap[h]].fc == G.F[G.heap[h]])
    ensures forall x :: x in G.leaves ==> x < |G.F|
  {
    hide *;
    GrownFacts(G);
    InFrom(G.heap, G.max, G.hist, |G.F| + |G.hist| - 1, 0, h);
    FromLeaves(G.leaves, G.hist, |G.F|, |G.F| + |G.hist| - 1, 0);
    FromInner(G.leaves, G.hist, |G.F|, |G.F| + |G.hist| - 1, 0);
    LiveFirst(G.leaves, G.hist, |G.F|);
    if G.heap[h] < |G.F| { LeafWeight(G, G.heap[h]); }
  }

  lemma NoFathers(tree: seq<CtData>, depth: seq<nat>, heap: seq<nat>, len: nat)
    requires len < |heap|
    ensures Ordered(tree, depth, heap, len, len / 2 + 1)
  {}

  lemma NodesRange(heap: seq<nat>, len: nat, bound: nat)
    requires Nodes(heap, len, bound)
    ensures len < |heap| && forall i :: 1 <= i <= len ==> heap[i] < bound
  {}

  /** Changing the top does not disturb the order below it. */
  lemma SetTop(tree: seq<CtData>, depth: seq<nat>, heap: seq<nat>, heap': seq<nat>, len: nat)
    requires len < |heap| == |heap'| && Ordered(tree, depth, heap, len, 2) && forall i :: 2 <= i < |heap| ==> heap'[i] == heap[i]
    ensures Ordered(tree, depth, heap', len, 2)
  {}

  lemma SetTopAny(tree: seq<CtData>, depth: seq<nat>, heap: seq<nat>, heap': seq<nat>, len: nat)
    requires len < |heap| == |heap'| && Ordered(tree, depth, heap, len, 1) && forall i :: 2 <= i < |heap| ==> heap'[i] == heap[i]
    ensures Ordered(tree, depth, heap', len, 2)
  {}

  /** The same members have the same bound. */
  lemma NarrowNodes(heap: seq<nat>, heap': seq<nat>, len: nat, bound: nat, wide: nat)
    requires len < |heap| && len < |heap'| && Nodes(heap, len, bound) && Nodes(heap', len, wide)
    requires Members(heap', len) == Members(heap, len)
    ensures Nodes(heap', len, bound)
  {
    forall i | 1 <= i <= len
      ensures heap'[i] < bound
    {
      assert heap'[i] in Members(heap, len);
    }
  }

  lemma StateFacts(tree: seq<CtData>, heap: seq<nat>, len: nat, max: nat, leaves: set<nat>, hist: seq<Merge>,
                   F: seq<nat>, total: int)
    requires State(tree, heap, len, max, leaves, hist, F, total)
    ensures var live, node := Live(leaves, hist, |hist|), |F| + |hist|;
            SizesOk(|tree|, |heap|, len, |hist|, |F|) && Nodes(heap, len, node) && Members(heap, len) == live
            && Total(live, Weights(tree)) == total && max + 2 * |hist| == |heap| && node !in live
            && 1 <= len && len + |hist| <= |F| && 2 * |F| < |tree| <= |heap|
  {
    LiveBound(leaves, hist, |F|, |hist|);
    hide Live, Numbered, AllJoin, Total, DadsOk, LeavesOk, SortedOk;
  }

  lemma LeastTwoMade(tree: seq<CtData>, live: set<nat>, n: nat, m: nat)
    requires n in live && m in live && n != m && n < |tree| && m < |tree|
    requires (forall x :: x in live ==> x < |tree| && tree[n].fc <= tree[x].fc)
    requires forall x :: x in live - {n} ==> x < |tree| && tree[m].fc <= tree[x].fc
    ensures LeastTwo(tree, live, n, m)
  {}

  lemma FatherSet(t: seq<CtData>, n: nat, m: nat, z: nat)
    requires n < |t| && m < |t| && z < |t| && z != n && z != m && n != m
    ensures t[z := t[z].(fc := t[n].fc + t[m].fc)][m := t[m].(dl := z)][n := t[n].(dl := z)] == WithFather(t, n, m, z)
  {}
}
