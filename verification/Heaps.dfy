/** The priority queue of the tree builder: heap, heap_len, smaller, pqdownheap and pqremove. */
module Heaps {
  import opened Trees

  // ---- The order of the nodes

  /** The macro smaller: by frequency, then by depth. */
  ghost predicate Smaller(tree: seq<CtData>, depth: seq<nat>, n: nat, m: nat) {
    n < |tree| && m < |tree| && n < |depth| && m < |depth|
    && (tree[n].fc < tree[m].fc || (tree[n].fc == tree[m].fc && depth[n] <= depth[m]))
  }

  lemma SmallerTransitive(tree: seq<CtData>, depth: seq<nat>, a: nat, b: nat, c: nat)
    requires Smaller(tree, depth, a, b) && Smaller(tree, depth, b, c)
    ensures Smaller(tree, depth, a, c)
  {}

  // ---- The contents of the heap

  /** heap[1..len] are nodes, each at most once. */
  ghost predicate Nodes(heap: seq<nat>, len: nat, bound: nat) {
    len < |heap| && (forall i :: 1 <= i <= len ==> heap[i] < bound)
    && forall i, j :: 1 <= i < j <= len ==> heap[i] != heap[j]
  }

  ghost function Members(heap: seq<nat>, len: nat): (s: set<nat>)
    requires len < |heap|
    ensures forall x :: x in s <==> exists i :: 1 <= i <= len && heap[i] == x
  {
    set i | 1 <= i <= len :: heap[i]
  }

  /** Every father smaller than its sons, for fathers from k on. */
  ghost predicate Ordered(tree: seq<CtData>, depth: seq<nat>, heap: seq<nat>, len: nat, k: nat)
    requires len < |heap|
  {
    forall j :: 2 <= j <= len && j / 2 >= k ==> Smaller(tree, depth, heap[j / 2], heap[j])
  }

  /** The least node is at the top. */
  lemma {:induction false} TopLeast(tree: seq<CtData>, depth: seq<nat>, heap: seq<nat>, len: nat, i: nat)
    requires len < |heap| && Ordered(tree, depth, heap, len, 1) && Nodes(heap, len, |tree|) && |tree| <= |depth|
    requires 1 <= i <= len
    ensures Smaller(tree, depth, heap[1], heap[i])
  {
    if i > 1 {
      TopLeast(tree, depth, heap, len, i / 2);
      SmallerTransitive(tree, depth, heap[1], heap[i / 2], heap[i]);
    }
  }

  lemma LeastFrequent(tree: seq<CtData>, depth: seq<nat>, heap: seq<nat>, len: nat)
    requires 1 <= len < |heap| && Ordered(tree, depth, heap, len, 1) && Nodes(heap, len, |tree|) && |tree| <= |depth|
    ensures heap[1] < |tree| && heap[1] in Members(heap, len)
    ensures forall x :: x in Members(heap, len) ==> x < |tree| && tree[heap[1]].fc <= tree[x].fc
  {
    forall x | x in Members(heap, len)
      ensures x < |tree| && tree[heap[1]].fc <= tree[x].fc
    {
      var i :| 1 <= i <= len && heap[i] == x;
      TopLeast(tree, depth, heap, len, i);
    }
  }

  // ---- Exchanging two elements

  function Exchanged(heap: seq<nat>, k: nat, j: nat): (s: seq<nat>)
    requires k < |heap| && j < |heap|
    ensures |s| == |heap| && forall i :: 0 <= i < |heap| ==> s[i] == if i == k then heap[j] else if i == j then heap[k] else heap[i]
  {
    heap[k := heap[j]][j := heap[k]]
  }

  lemma ExchangeKeeps(heap: seq<nat>, len: nat, k: nat, j: nat, bound: nat)
    requires Nodes(heap, len, bound) && 1 <= k < j <= len
    ensures Nodes(Exchanged(heap, k, j), len, bound)
    ensures Members(Exchanged(heap, k, j), len) == Members(heap, len)
  {
    var s := Exchanged(heap, k, j);
    forall x | x in Members(heap, len)
      ensures x in Members(s, len)
    {
      var i :| 1 <= i <= len && heap[i] == x;
      assert s[if i == k then j else if i == j then k else i] == x;
    }
    forall x | x in Members(s, len)
      ensures x in Members(heap, len)
    {
      var i :| 1 <= i <= len && s[i] == x;
      assert heap[if i == k then j else if i == j then k else i] == x;
    }
  }

  // ---- pqdownheap

  /** The heap with the node on its way down put in its present place k; sons of k aside, fathers from k0 on
      are smaller than their sons, and k's father is smaller than k's sons. */
  ghost predicate Sifting(tree: seq<CtData>, depth: seq<nat>, heap: seq<nat>, len: nat, k0: nat, k: nat) {
    len < |heap| && 1 <= k0 <= k <= len
    && (forall j :: 2 <= j <= len && j / 2 >= k0 && j / 2 != k ==> Smaller(tree, depth, heap[j / 2], heap[j]))
    && (k / 2 >= k0 ==> forall j :: 2 <= j <= len && j / 2 == k ==> Smaller(tree, depth, heap[k / 2], heap[j]))
  }

  lemma SiftDown(tree: seq<CtData>, depth: seq<nat>, heap: seq<nat>, len: nat, k0: nat, k: nat, j: nat)
    requires Sifting(tree, depth, heap, len, k0, k) && j <= len && j / 2 == k
    requires forall i :: 2 <= i <= len && i / 2 == k ==> Smaller(tree, depth, heap[j], heap[i])
    requires Smaller(tree, depth, heap[j], heap[k])
    ensures Sifting(tree, depth, Exchanged(heap, k, j), len, k0, j)
  {
    var s := Exchanged(heap, k, j);
    forall i | 2 <= i <= len && i / 2 >= k0 && i / 2 != j
      ensures Smaller(tree, depth, s[i / 2], s[i])
    {
      if i / 2 == k {
        if i == j {} else {}
      } else if i == k {
        assert Smaller(tree, depth, heap[k / 2], heap[j]);
      } else if i == j {
      } else {
        assert Smaller(tree, depth, heap[i / 2], heap[i]);
      }
    }
    forall i | 2 <= i <= len && i / 2 == j
      ensures Smaller(tree, depth, s[j / 2], s[i])
    {
      assert i != k && i != j;
      assert Smaller(tree, depth, heap[i / 2], heap[i]);
    }
  }

  lemma SiftEnds(tree: seq<CtData>, depth: seq<nat>, heap: seq<nat>, len: nat, k0: nat, k: nat)
    requires Sifting(tree, depth, heap, len, k0, k)
    requires forall i :: 2 <= i <= len && i / 2 == k ==> Smaller(tree, depth, heap[k], heap[i])
    ensures Ordered(tree, depth, heap, len, k0)
  {}

  lemma SiftStarts(tree: seq<CtData>, depth: seq<nat>, heap: seq<nat>, len: nat, k0: nat)
    requires len < |heap| && 1 <= k0 <= len && Ordered(tree, depth, heap, len, k0 + 1)
    ensures Sifting(tree, depth, heap, len, k0, k0)
  {}

  /** j is the smaller of k's sons. */
  ghost predicate SmallerSon(tree: seq<CtData>, depth: seq<nat>, heap: seq<nat>, len: nat, k: nat, j: nat)
    requires len < |heap|
  {
    2 <= j <= len && j / 2 == k && forall i :: 2 <= i <= len && i / 2 == k ==> Smaller(tree, depth, heap[j], heap[i])
  }

  lemma SonsOf(tree: seq<CtData>, depth: seq<nat>, heap: seq<nat>, len: nat, k: nat, right: bool)
    requires len < |heap| && 1 <= k && 2 * k <= len && Nodes(heap, len, |tree|) && |tree| <= |depth|
    requires right == (2 * k < len && Smaller(tree, depth, heap[2 * k + 1], heap[2 * k]))
    ensures SmallerSon(tree, depth, heap, len, k, if right then 2 * k + 1 else 2 * k)
  {
    forall i | 2 <= i <= len && i / 2 == k
      ensures Smaller(tree, depth, heap[if right then 2 * k + 1 else 2 * k], heap[i])
    {
      assert i == 2 * k || i == 2 * k + 1;
    }
  }

  lemma BelowBoth(tree: seq<CtData>, depth: seq<nat>, heap: seq<nat>, len: nat, k: nat, j: nat)
    requires len < |heap| && 1 <= k && SmallerSon(tree, depth, heap, len, k, j) && Smaller(tree, depth, heap[k], heap[j])
    ensures forall i :: 2 <= i <= len && i / 2 == k ==> Smaller(tree, depth, heap[k], heap[i])
  {}

  method IsSmaller(tree: array<CtData>, depth: array<nat>, n: nat, m: nat) returns (r: bool)
    requires n < tree.Length && m < tree.Length && tree.Length <= depth.Length
    ensures r == Smaller(tree[..], depth[..], n, m)
    ensures !r ==> Smaller(tree[..], depth[..], m, n)
  {
    r := tree[n].fc < tree[m].fc || (tree[n].fc == tree[m].fc && depth[n] <= depth[m]);
  }

  method PqDownHeap(tree: array<CtData>, depth: array<nat>, heap: array<nat>, heapLen: nat, k0: nat)
    requires heap != depth && Nodes(heap[..], heapLen, tree.Length) && tree.Length <= depth.Length
    requires 1 <= k0 <= heapLen && Ordered(tree[..], depth[..], heap[..], heapLen, k0 + 1)
    modifies heap
    ensures Nodes(heap[..], heapLen, tree.Length) && Ordered(tree[..], depth[..], heap[..], heapLen, k0)
    ensures Members(heap[..], heapLen) == Members(old(heap[..]), heapLen)
    ensures forall i :: heapLen < i < heap.Length ==> heap[i] == old(heap[i])
  {
    hide Smaller, Ordered, Sifting, Members, SmallerSon;
    var v := heap[k0];
    var k, j := k0, 2 * k0;
    ghost var t: seq<CtData>, d: seq<nat>, cur: seq<nat> := tree[..], depth[..], heap[..];
    SiftStarts(t, d, cur, heapLen, k0);
    while j <= heapLen
      invariant 1 <= k0 <= k <= heapLen && j == 2 * k && |cur| == heap.Length
      invariant Sifting(t, d, cur, heapLen, k0, k) && Nodes(cur, heapLen, |t|)
      invariant cur == heap[..][k := v]
      invariant Members(cur, heapLen) == Members(old(heap[..]), heapLen)
      invariant forall i :: heapLen < i < heap.Length ==> heap[i] == old(heap[i])
      decreases heapLen - k
    {
      var right := false;
      if j < heapLen {
        assert cur[j] < |t| && cur[j + 1] < |t|;
        right := IsSmaller(tree, depth, heap[j + 1], heap[j]);
      }
      SonsOf(t, d, cur, heapLen, k, right);
      if right {
        j := j + 1;
      }
      var done := IsSmaller(tree, depth, v, heap[j]);
      if done {
        BelowBoth(t, d, cur, heapLen, k, j);
        break;
      }
      SonIs(t, d, cur, heapLen, k, j);
      SiftDown(t, d, cur, heapLen, k0, k, j);
      ExchangeKeeps(cur, heapLen, k, j, |t|);
      heap[k] := heap[j];
      cur := Exchanged(cur, k, j);
      k := j;
      assert cur == heap[..][k := v];
      j := 2 * j;
    }
    SiftEnds(t, d, cur, heapLen, k0, k);
    heap[k] := v;
    assert heap[..] == cur;
  }

  lemma SonIs(tree: seq<CtData>, depth: seq<nat>, heap: seq<nat>, len: nat, k: nat, j: nat)
    requires len < |heap| && SmallerSon(tree, depth, heap, len, k, j)
    ensures 2 <= j <= len && j / 2 == k
    ensures forall i :: 2 <= i <= len && i / 2 == k ==> Smaller(tree, depth, heap[j], heap[i])
  {}
}
