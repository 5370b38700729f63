/** The order in which the lengths of the code length code are sent, field by field. */
module LengthOrders {
  import opened Bits
  import opened Rfc1951

  lemma FieldOnce(k: nat, m: nat)
    requires k < 19 && m < 19
    ensures Field(k) < 19 && (Field(k) == Field(m) ==> k == m)
  {}

  /** One more field sets the length of its symbol. */
  lemma ReadOrderedNext(S: seq<bool>, p: nat, n: nat, k: nat)
    requires 1 <= n <= 19 && p + 3 * n <= |S| && k < 19 && Field(k) == n - 1
    ensures ReadOrdered(S, p, n) == ReadOrdered(S, p, n - 1)[k := FieldAt(S, p, n - 1)]
  {
    hide FieldAt;
    forall m | 0 <= m < 19
      ensures ReadOrdered(S, p, n)[m] == ReadOrdered(S, p, n - 1)[k := FieldAt(S, p, n - 1)][m]
    {
      FieldOnce(m, k);
    }
  }

  lemma ReadOrderedNone(S: seq<bool>, p: nat)
    requires p <= |S|
    ensures ReadOrdered(S, p, 0) == Repeat(0, 19)
  {}

  /** What n fields from p on say of the lengths cl. */
  predicate InOrder(S: seq<bool>, p: nat, n: nat, cl: seq<nat>) {
    |cl| == 19 && n <= 19 && p + 3 * n <= |S|
    && (n >= 1 ==> cl[16] == Val(S[p..p + 3])) && (n >= 2 ==> cl[17] == Val(S[p + 3..p + 6]))
    && (n >= 3 ==> cl[18] == Val(S[p + 6..p + 9])) && (n >= 4 ==> cl[0] == Val(S[p + 9..p + 12]))
    && (forall k | 0 <= k <= 7 :: cl[8 + k] == if 4 + 2 * k < n then FieldAt(S, p, 4 + 2 * k) else 0)
    && (forall k | 1 <= k <= 7 :: cl[8 - k] == if 3 + 2 * k < n then FieldAt(S, p, 3 + 2 * k) else 0)
    && (n < 1 ==> cl[16] == 0) && (n < 2 ==> cl[17] == 0) && (n < 3 ==> cl[18] == 0) && (n < 4 ==> cl[0] == 0)
  }

  /** The first four fields are of symbols 16, 17, 18 and 0, the later ones of 8, 7, 9, 6, 10 and so on; what is not sent is 0. */
  lemma OrderRead(S: seq<bool>, p: nat, n: nat)
    requires n <= 19 && p + 3 * n <= |S|
    ensures InOrder(S, p, n, ReadOrdered(S, p, n))
  {
    hide Val;
  }
}
