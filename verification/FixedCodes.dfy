/** The codes of section 3.2.6 of RFC 1951, counted. */
module FixedCodes {
  import opened Bits
  import opened PrefixCodes
  import opened Rfc1951
  import opened HuftCounting
  import opened Tokens

  lemma {:induction false} FixedCount(n: nat, k: nat)
    requires n <= 288
    ensures CountTo(FixedLit(), n, k) ==
            if k == 8 then (if n <= 144 then n else if n <= 280 then 144 else n - 136)
            else if k == 9 then (if n <= 144 then 0 else if n <= 256 then n - 144 else 112)
            else if k == 7 then (if n <= 256 then 0 else if n <= 280 then n - 256 else 24)
            else 0
  {
    if n > 0 { FixedCount(n - 1, k); }
  }

  lemma {:induction false} FixedDistCount(n: nat, k: nat)
    requires n <= 30
    ensures CountTo(FixedDist(), n, k) == if k == 5 then n else 0
  {
    if n > 0 { FixedDistCount(n - 1, k); }
  }

  lemma FixedComplete()
    ensures Complete(FixedLit()) && LensOk(FixedLit())
  {
    var b := FixedLit();
    forall k: nat
      ensures Count(b, k) == if k == 8 then 152 else if k == 9 then 112 else if k == 7 then 24 else 0
    {
      FixedCount(288, k);
    }
    Pow2Values();
    FilledZero(b, 6);
    FilledNext(b, 7);
    FilledNext(b, 8);
    FilledNext(b, 9);
    FilledStays(b, 9, M);
    hide Filled, Count, Pow2;
  }

  lemma FixedDistIncomplete()
    ensures LensOk(FixedDist()) && !Oversubscribed(FixedDist()) && !Complete(FixedDist())
  {
    var b := FixedDist();
    forall k: nat
      ensures Count(b, k) == if k == 5 then 30 else 0
    {
      FixedDistCount(30, k);
    }
    Pow2Values();
    FilledZero(b, 4);
    FilledNext(b, 5);
    FilledStays(b, 5, M);
    Pow2Eleven();
    hide Filled, Count, Pow2;
  }

  lemma FixedAreCodes()
    ensures Tokens.Code(FixedLit()) && Tokens.Code(FixedDist())
  {
    FixedComplete();
    FixedDistIncomplete();
    hide Filled, FixedLit, FixedDist;
  }

  lemma Pow2Eleven()
    ensures Pow2(11) == 2048
  {}
}
