/** The buffers between ct_tally and compress_block: l_buf, d_buf and the flag bits that tell them apart. */
module TallyBuffers {
  import opened Bits
  import opened Lz77
  import opened Tokens

  const LIT_BUFSIZE: nat := 0x2000

  /** What goes into l_buf: a literal, or a length less MIN_MATCH. */
  function LitByte(t: Token): byte {
    match t
    case Literal(c) => c
    case Match(len, _) => Less(len, MIN_MATCH) % 256
  }

  function LitBuf(toks: seq<Token>, n: nat): (s: seq<byte>)
    requires n <= |toks|
    ensures |s| == n && forall i :: 0 <= i < n ==> s[i] == LitByte(toks[i])
  {
    seq(n, i requires 0 <= i < n => LitByte(toks[i]))
  }

  /** What goes into d_buf: the distances less 1 of the first n tokens that have one. */
  function DistBuf(toks: seq<Token>, n: nat): (s: seq<nat>)
    requires n <= |toks|
    ensures |s| <= n
  {
    if n == 0 then []
    else if toks[n - 1].Literal? then DistBuf(toks, n - 1)
    else DistBuf(toks, n - 1) + [Less(toks[n - 1].dist, 1)]
  }

  lemma {:induction false} DistBufPrefix(toks: seq<Token>, m: nat, n: nat)
    requires m <= n <= |toks|
    ensures DistBuf(toks, m) <= DistBuf(toks, n)
    decreases n - m
  {
    if m < n {
      DistBufPrefix(toks, m, n - 1);
    }
  }

  lemma {:induction false} DistBufKept(toks: seq<Token>, t: Token, n: nat)
    requires n <= |toks|
    ensures DistBuf(toks + [t], n) == DistBuf(toks, n)
  {
    if n > 0 {
      DistBufKept(toks, t, n - 1);
      assert (toks + [t])[n - 1] == toks[n - 1];
    }
  }

  /** Which of the tokens from a on, before b, are matches. */
  function Marks(toks: seq<Token>, a: nat, b: nat): (s: seq<bool>)
    requires a <= b <= |toks|
    ensures |s| == b - a && forall i :: 0 <= i < b - a ==> s[i] == toks[a + i].Match?
  {
    seq(b - a, i requires 0 <= i < b - a => toks[a + i].Match?)
  }

  /** The buffers hold the tokens: eight flags to a byte, the last ones not yet saved. */
  ghost predicate Buffered(toks: seq<Token>, lBuf: seq<byte>, dBuf: seq<nat>, flagBuf: seq<nat>, flags: nat, flagBit: nat) {
    lBuf == LitBuf(toks, |toks|) && dBuf == DistBuf(toks, |toks|) && Flagged(toks, flagBuf, flags, flagBit)
  }

  ghost predicate Flagged(toks: seq<Token>, flagBuf: seq<nat>, flags: nat, flagBit: nat) {
    |flagBuf| == |toks| / 8 && flagBit == Pow2(|toks| % 8)
    && (forall j :: 0 <= j < |flagBuf| ==> flagBuf[j] == Val(Marks(toks, 8 * j, 8 * j + 8)))
    && flags == Val(Marks(toks, 8 * (|toks| / 8), |toks|))
  }

  lemma NoneBuffered()
    ensures Buffered([], [], [], [], 0, 1)
  {}

  /** flags |= flag_bit, or not. */
  lemma FlagAdded(s: seq<bool>, b: bool)
    ensures (if b then Or(Val(s), Pow2(|s|)) else Val(s)) == Val(s + [b])
  {
    hide *;
    ValBound(s);
    OrDisjoint(Val(s), 1, |s|);
    ValConcat(s, [b]);
    OneFlag(b, |s|);
  }

  lemma OneFlag(b: bool, k: nat)
    ensures Shl(1, k) == Pow2(k) && Pow2(k) * Val([b]) == if b then Pow2(k) else 0
  {
    assert [b][1..] == [];
    assert Val([b]) == (if b then 1 else 0) + 2 * Val([]);
  }

  lemma MarksNext(toks: seq<Token>, t: Token, a: nat)
    requires a <= |toks|
    ensures Marks(toks + [t], a, |toks| + 1) == Marks(toks, a, |toks|) + [t.Match?]
  {}

  lemma MarksKept(toks: seq<Token>, t: Token, a: nat, b: nat)
    requires a <= b <= |toks|
    ensures Marks(toks + [t], a, b) == Marks(toks, a, b)
  {}

  /** One more token. */
  lemma TokenBuffered(toks: seq<Token>, lBuf: seq<byte>, dBuf: seq<nat>, flagBuf: seq<nat>, flags: nat, flagBit: nat, t: Token)
    requires Buffered(toks, lBuf, dBuf, flagBuf, flags, flagBit)
    ensures var flags' := if t.Match? then Or(flags, flagBit) else flags;
            var bit' := flagBit * 2 % 256;
            var lBuf' := lBuf + [LitByte(t)];
            var dBuf' := if t.Match? then dBuf + [Less(t.dist, 1)] else dBuf;
            if (|toks| + 1) % 8 == 0 then Buffered(toks + [t], lBuf', dBuf', flagBuf + [flags'], 0, 1)
            else Buffered(toks + [t], lBuf', dBuf', flagBuf, flags', bit')
  {
    hide Marks, Val, Or, Pow2, Flagged;
    var n := |toks|;
    DistBufKept(toks, t, n);
    assert LitBuf(toks + [t], n + 1) == LitBuf(toks, n) + [LitByte(t)];
    FlagNext(toks, flagBuf, flags, flagBit, t);
  }

  lemma FlagNext(toks: seq<Token>, flagBuf: seq<nat>, flags: nat, flagBit: nat, t: Token)
    requires Flagged(toks, flagBuf, flags, flagBit)
    ensures var flags' := if t.Match? then Or(flags, flagBit) else flags;
            if (|toks| + 1) % 8 == 0 then Flagged(toks + [t], flagBuf + [flags'], 0, 1)
            else Flagged(toks + [t], flagBuf, flags', flagBit * 2 % 256)
  {
    hide Marks, Val, Or, Pow2;
    var n := |toks|;
    var a := 8 * (n / 8);
    var toks' := toks + [t];
    FlagAdded(Marks(toks, a, n), t.Match?);
    MarksNext(toks, t, a);
    forall j | 0 <= j < |flagBuf|
      ensures flagBuf[j] == Val(Marks(toks', 8 * j, 8 * j + 8))
    {
      MarksKept(toks, t, 8 * j, 8 * j + 8);
    }
    Pow2Below(n % 8);
    NextGroup(n);
    if (n + 1) % 8 == 0 {
      assert Marks(toks', n + 1, n + 1) == [];
      EmptyVal();
    }
  }

  lemma NextGroup(n: nat)
    ensures (n + 1) % 8 == 0 ==> 8 * (n / 8) + 8 == n + 1 && (n + 1) / 8 == n / 8 + 1
    ensures (n + 1) % 8 != 0 ==> (n + 1) / 8 == n / 8 && (n + 1) % 8 == n % 8 + 1
  {}

  lemma EmptyVal()
    ensures Val([]) == 0 && Pow2(0) == 1
  {}

  lemma Pow2Below(k: nat)
    requires k < 8
    ensures k < 7 ==> Pow2(k) * 2 % 256 == Pow2(k + 1)
  {
    Pow2Values();
    assert Pow2(0) == 1;
    hide Pow2;
  }

  // ---- Reading the buffers back

  function GroupEnd(lx: nat, n: nat): (r: nat)
    ensures lx <= n ==> lx <= r <= n
    ensures lx < n ==> lx < r
  {
    if 8 * (lx / 8 + 1) < n then 8 * (lx / 8 + 1) else n
  }

  /** The state of the loop of compress_block before token lx. */
  ghost predicate Reading(toks: seq<Token>, flagBuf: seq<nat>, lx: nat, dx: nat, fx: nat, flag: nat) {
    lx <= |toks| && dx == |DistBuf(toks, lx)| && fx == (lx + 7) / 8
    && (lx % 8 != 0 ==> flag == Val(Marks(toks, lx, GroupEnd(lx, |toks|))))
    && |flagBuf| == |toks| / 8 + 1
    && forall j :: 0 <= j < |flagBuf| && 8 * j < |toks| ==> flagBuf[j] == Val(Marks(toks, 8 * j, GroupEnd(8 * j, |toks|)))
  }

  lemma StartReading(toks: seq<Token>, lBuf: seq<byte>, dBuf: seq<nat>, flagBuf: seq<nat>, flags: nat, flagBit: nat)
    requires Buffered(toks, lBuf, dBuf, flagBuf, flags, flagBit)
    ensures Reading(toks, flagBuf + [flags], 0, 0, 0, 0) && lBuf == LitBuf(toks, |toks|) && dBuf == DistBuf(toks, |toks|)
  {
    hide Marks, Val, GroupEnd;
    var n, f := |toks|, flagBuf + [flags];
    forall j | 0 <= j < |f| && 8 * j < n
      ensures f[j] == Val(Marks(toks, 8 * j, GroupEnd(8 * j, n)))
    {
      GroupOf(j, n);
    }
  }

  lemma GroupOf(j: nat, n: nat)
    requires 8 * j < n
    ensures GroupEnd(8 * j, n) == if j < n / 8 then 8 * j + 8 else n
    ensures j <= n / 8
  {}

  lemma ReadFlag(toks: seq<Token>, a: nat, b: nat)
    requires a < b <= |toks|
    ensures (Val(Marks(toks, a, b)) % 2 == 1) == toks[a].Match?
    ensures Val(Marks(toks, a, b)) / 2 == Val(Marks(toks, a + 1, b))
  {
    var s := Marks(toks, a, b);
    assert s[1..] == Marks(toks, a + 1, b);
  }

  lemma FlagAt(toks: seq<Token>, flagBuf: seq<nat>, lx: nat, dx: nat, fx: nat, flag: nat)
    requires Reading(toks, flagBuf, lx, dx, fx, flag) && lx < |toks|
    ensures lx % 8 == 0 ==> fx < |flagBuf| && flagBuf[fx] == Val(Marks(toks, lx, GroupEnd(lx, |toks|)))
    ensures lx % 8 != 0 ==> flag == Val(Marks(toks, lx, GroupEnd(lx, |toks|)))
    ensures lx < GroupEnd(lx, |toks|) <= |toks|
  {
    hide Marks, Val;
  }

  lemma NextReading(toks: seq<Token>, flagBuf: seq<nat>, lx: nat, dx: nat, fx: nat, flag: nat)
    requires Reading(toks, flagBuf, lx, dx, fx, flag) && lx < |toks|
    ensures lx % 8 == 0 ==> fx < |flagBuf|
    ensures var flag1 := if lx % 8 == 0 then flagBuf[fx] else flag;
            var fx1 := if lx % 8 == 0 then fx + 1 else fx;
            (And(flag1, 1) != 0) == toks[lx].Match?
            && Reading(toks, flagBuf, lx + 1, if toks[lx].Match? then dx + 1 else dx, fx1, flag1 / 2)
    ensures toks[lx].Match? ==> dx < |DistBuf(toks, |toks|)| && DistBuf(toks, |toks|)[dx] == Less(toks[lx].dist, 1)
  {
    hide Marks, Val, And, GroupEnd;
    var flag1 := if lx % 8 == 0 then flagBuf[fx] else flag;
    var end := GroupEnd(lx, |toks|);
    FlagAt(toks, flagBuf, lx, dx, fx, flag);
    ReadFlag(toks, lx, end);
    AndOne(flag1);
    DistBufPrefix(toks, lx + 1, |toks|);
    SameGroup(lx, |toks|);
  }

  lemma SameGroup(lx: nat, n: nat)
    ensures (lx + 1) % 8 != 0 ==> GroupEnd(lx + 1, n) == GroupEnd(lx, n)
    ensures (lx + 1 + 7) / 8 == (lx + 7) / 8 + if lx % 8 == 0 then 1 else 0
  {}
}
