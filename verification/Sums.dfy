/** Sums over a set of indices of a sequence. */
module Sums {
  import opened Bits

  /** The sum of g[i] over the members i < n of L. */
  function SumIn(L: set<nat>, g: seq<int>, n: nat): int
    requires n <= |g|
  {
    if n == 0 then 0 else SumIn(L, g, n - 1) + (if n - 1 in L then g[n - 1] else 0)
  }

  function Total(L: set<nat>, g: seq<int>): int { SumIn(L, g, |g|) }

  lemma {:induction false} SumSame(L: set<nat>, K: set<nat>, g: seq<int>, h: seq<int>, n: nat)
    requires n <= |g| && n <= |h|
    requires forall i :: 0 <= i < n ==> (i in L <==> i in K) && (i in L ==> g[i] == h[i])
    ensures SumIn(L, g, n) == SumIn(K, h, n)
  {
    if n > 0 { SumSame(L, K, g, h, n - 1); }
  }

  lemma {:induction false} SumAdd(L: set<nat>, z: nat, g: seq<int>, n: nat)
    requires z < n <= |g| && z !in L
    ensures SumIn(L + {z}, g, n) == SumIn(L, g, n) + g[z]
  {
    if z == n - 1 {
      SumSame(L + {z}, L, g, g, n - 1);
    } else {
      SumAdd(L, z, g, n - 1);
    }
  }

  lemma AddMember(L: set<nat>, z: nat, g: seq<int>)
    requires z < |g| && z !in L
    ensures Total(L + {z}, g) == Total(L, g) + g[z]
  {
    SumAdd(L, z, g, |g|);
  }

  lemma DropMember(L: set<nat>, z: nat, g: seq<int>)
    requires z < |g| && z in L
    ensures Total(L - {z}, g) == Total(L, g) - g[z]
  {
    SumAdd(L - {z}, z, g, |g|);
    assert L - {z} + {z} == L;
  }

  lemma {:induction false} SumUpdate(L: set<nat>, g: seq<int>, z: nat, v: int, n: nat)
    requires z < |g| && n <= |g|
    ensures SumIn(L, g[z := v], n) == SumIn(L, g, n) + if z in L && z < n then v - g[z] else 0
  {
    if n > 0 { SumUpdate(L, g, z, v, n - 1); }
  }

  lemma {:induction false} SumNonNegative(L: set<nat>, g: seq<int>, n: nat)
    requires n <= |g| && forall i :: 0 <= i < n && i in L ==> g[i] >= 0
    ensures SumIn(L, g, n) >= 0
  {
    if n > 0 { SumNonNegative(L, g, n - 1); }
  }

  /** A sum of multiples of p is one. */
  lemma {:induction false} SumMultiple(L: set<nat>, g: seq<int>, n: nat, p: int) returns (q: int)
    requires n <= |g| && forall i :: 0 <= i < n && i in L ==> exists k: int :: g[i] == k * p
    ensures SumIn(L, g, n) == q * p
  {
    if n == 0 {
      q := 0;
    } else {
      q := SumMultiple(L, g, n - 1, p);
      if n - 1 in L {
        var k: int :| g[n - 1] == k * p;
        Distribute(q, k, p);
        q := q + k;
      }
    }
  }

  /** One member's share of a sum of non-negative terms. */
  lemma MemberLe(L: set<nat>, z: nat, g: seq<int>)
    requires z < |g| && z in L && forall i :: 0 <= i < |g| && i in L ==> g[i] >= 0
    ensures g[z] <= Total(L, g)
  {
    DropMember(L, z, g);
    SumNonNegative(L - {z}, g, |g|);
  }

  lemma {:induction false} SumZero(L: set<nat>, g: seq<int>, n: nat)
    requires n <= |g| && forall i :: 0 <= i < n && i in L ==> g[i] == 0
    ensures SumIn(L, g, n) == 0
  {
    if n > 0 { SumZero(L, g, n - 1); }
  }

  lemma {:induction false} SmallSet(L: set<nat>, n: nat)
    requires forall x :: x in L ==> x < n
    ensures |L| <= n
  {
    if n == 0 {
      assert L == {};
    } else {
      SmallSet(L - {n - 1}, n - 1);
    }
  }

  lemma TotalOne(z: nat, g: seq<int>)
    requires z < |g|
    ensures Total({z}, g) == g[z]
  {
    AddMember({}, z, g);
    SumZero({}, g, |g|);
    assert {} + {z} == {z};
  }
}
