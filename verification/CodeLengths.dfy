/** Run-length coding of code lengths, section 3.2.7 of RFC 1951: scan_tree and send_tree. */
module CodeLengths {
  import opened Options
  import opened Bits
  import opened BitWriting
  import opened PrefixCodes
  import opened Rfc1951
  import opened Tokens
  import opened Trees

  const BL_CODES: nat := 19
  const REP_3_6: nat := 16
  const REPZ_3_10: nat := 17
  const REPZ_11_138: nat := 18
  const GUARD: nat := 65535

  /** A symbol of the code length alphabet with the number in its extra bits. */
  datatype Sym = Sym(code: nat, extra: nat)

  function Width(code: nat): nat {
    if code == REP_3_6 then 2 else if code == REPZ_3_10 then 3 else if code == REPZ_11_138 then 7 else 0
  }

  predicate SymOk(s: Sym) { s.code < BL_CODES && s.extra < Pow2(Width(s.code)) }

  // ---- What the loops of scan_tree and send_tree produce

  /** The longest run of cur before it is sent, and the shortest sent as a repeat. */
  function MaxRun(prev: int, cur: nat): nat { if cur == 0 then 138 else if cur == prev then 6 else 7 }

  function MinRun(prev: int, cur: nat): nat { if cur == 0 || cur == prev then 3 else 4 }

  function Plain(cur: nat, count: nat): (s: seq<Sym>)
    ensures |s| == count && forall i :: 0 <= i < count ==> s[i] == Sym(cur, 0)
  {
    seq(count, _ => Sym(cur, 0))
  }

  /** The symbols for a run of `count` lengths cur after a run of prev. */
  function Run(cur: nat, count: nat, prev: int): seq<Sym> {
    if count < MinRun(prev, cur) then Plain(cur, count)
    else if cur != 0 then
      (if cur != prev then [Sym(cur, 0), Sym(REP_3_6, Less(count, 4))] else [Sym(REP_3_6, Less(count, 3))])
    else if count <= 10 then [Sym(REPZ_3_10, Less(count, 3))]
    else [Sym(REPZ_11_138, Less(count, 11))]
  }

  /** The run that length n belongs to goes on after it. */
  predicate GoesOn(lens: seq<nat>, n: nat, count: nat, prev: int)
    requires n < |lens|
  {
    count + 1 < MaxRun(prev, lens[n]) && n + 1 < |lens| && lens[n] == lens[n + 1]
  }

  /** The symbols for lens[n..], `count` lengths before it being part of the same unsent run. */
  function RunsFrom(lens: seq<nat>, n: nat, count: nat, prev: int): seq<Sym>
    requires n <= |lens|
    decreases |lens| - n
  {
    if n == |lens| then []
    else if GoesOn(lens, n, count, prev) then RunsFrom(lens, n + 1, count + 1, prev)
    else Run(lens[n], count + 1, prev) + RunsFrom(lens, n + 1, 0, lens[n])
  }

  function Runs(lens: seq<nat>): seq<Sym> { RunsFrom(lens, 0, 0, -1) }

  // ---- What symbols stand for

  /** The lengths after the first n symbols; None when one repeats a length there is not. */
  function Unpack(acc: seq<nat>, syms: seq<Sym>, n: nat): Option<seq<nat>>
    requires n <= |syms|
  {
    if n == 0 then Some(acc)
    else
      match Unpack(acc, syms, n - 1)
      case None => None
      case Some(a) => UnpackOne(a, syms[n - 1])
  }

  function UnpackOne(acc: seq<nat>, s: Sym): Option<seq<nat>> {
    match Repeated(s.code, acc)
    case None => None
    case Some((x, _, least)) => Some(acc + Repeat(x, least + s.extra))
  }

  lemma {:induction false} UnpackPrefix(acc: seq<nat>, a: seq<Sym>, b: seq<Sym>, n: nat)
    requires n <= |a|
    ensures Unpack(acc, a + b, n) == Unpack(acc, a, n)
  {
    if n > 0 {
      UnpackPrefix(acc, a, b, n - 1);
      assert (a + b)[n - 1] == a[n - 1];
    }
  }

  lemma {:induction false} UnpackConcat(acc: seq<nat>, a: seq<Sym>, b: seq<Sym>, n: nat)
    requires Unpack(acc, a, |a|).Some? && n <= |b|
    ensures Unpack(acc, a + b, |a| + n) == Unpack(Unpack(acc, a, |a|).value, b, n)
  {
    if n == 0 {
      UnpackPrefix(acc, a, b, |a|);
    } else {
      UnpackConcat(acc, a, b, n - 1);
      assert (a + b)[|a| + n - 1] == b[n - 1];
      assert |a| + n - 1 == |a| + (n - 1);
    }
  }

  lemma {:induction false} PlainUnpacks(acc: seq<nat>, cur: nat, count: nat)
    requires cur <= MAX_BITS
    ensures Unpack(acc, Plain(cur, count), count) == Some(acc + Repeat(cur, count))
  {
    if count == 0 {
      assert acc + Repeat(cur, 0) == acc;
    } else {
      PlainUnpacks(acc, cur, count - 1);
      var p, q := Plain(cur, count), Plain(cur, count - 1);
      assert p == q + [Sym(cur, 0)];
      UnpackPrefix(acc, q, [Sym(cur, 0)], count - 1);
      assert acc + Repeat(cur, count - 1) + Repeat(cur, 1) == acc + Repeat(cur, count);
    }
  }

  /** prev is the last length sent, or negative at the start of a tree. */
  predicate Follows(acc: seq<nat>, prev: int) {
    prev < 0 || (acc != [] && acc[|acc| - 1] == prev)
  }

  lemma RunUnpacks(acc: seq<nat>, cur: nat, count: nat, prev: int)
    requires cur <= MAX_BITS && 1 <= count <= MaxRun(prev, cur) && Follows(acc, prev)
    ensures var r := Run(cur, count, prev);
            r != [] && Unpack(acc, r, |r|) == Some(acc + Repeat(cur, count)) && forall i :: 0 <= i < |r| ==> SymOk(r[i])
  {
    Pow2Values();
    hide Pow2;
    PlainUnpacks(acc, cur, count);
    var r := Run(cur, count, prev);
    if count >= MinRun(prev, cur) {
      OneUnpacks(acc, r[0]);
      if |r| == 2 {
        assert r == [r[0]] + [r[1]];
        UnpackConcat(acc, [r[0]], [r[1]], 1);
        var acc' := acc + Repeat(cur, 1);
        OneUnpacks(acc', r[1]);
        assert acc' + Repeat(cur, count - 1) == acc + Repeat(cur, count);
      } else {
        assert r == [r[0]];
      }
    } else {
      Pow2Zero();
    }
  }

  lemma Pow2Zero()
    ensures Pow2(0) == 1
  {}

  lemma OneUnpacks(acc: seq<nat>, s: Sym)
    ensures Unpack(acc, [s], 1) == UnpackOne(acc, s)
  {
    assert Unpack(acc, [s], 0) == Some(acc);
  }

  lemma RepeatNext(lens: seq<nat>, acc: seq<nat>, n: nat, count: nat)
    requires count <= n < |lens| && lens[n - count..n] == Repeat(lens[n], count) && acc == lens[..n - count]
    ensures acc + Repeat(lens[n], count + 1) == lens[..n + 1]
    ensures n + 1 < |lens| && lens[n + 1] == lens[n] ==> lens[n + 1 - (count + 1)..n + 1] == Repeat(lens[n + 1], count + 1)
  {
    assert lens[n - count..n + 1] == lens[n - count..n] + [lens[n]];
    assert lens[..n + 1] == lens[..n - count] + lens[n - count..n + 1];
    assert Repeat(lens[n], count + 1) == Repeat(lens[n], count) + [lens[n]];
  }

  lemma MaxRunRange(prev: int, cur: nat)
    ensures MaxRun(prev, cur) >= 6
  {}

  /** The symbols for the lengths from a run's start on give those lengths back. */
  lemma {:induction false} RunsUnpack(lens: seq<nat>, n: nat, count: nat, prev: int, before: seq<nat>)
    requires (forall i :: 0 <= i < |lens| ==> lens[i] <= MAX_BITS) && count <= n <= |lens|
    requires n < |lens| ==> count < MaxRun(prev, lens[n]) && lens[n - count..n] == Repeat(lens[n], count)
    requires n == |lens| ==> count == 0
    requires Follows(before + lens[..n - count], prev)
    ensures var r := RunsFrom(lens, n, count, prev);
            Unpack(before + lens[..n - count], r, |r|) == Some(before + lens)
            && forall i :: 0 <= i < |r| ==> SymOk(r[i])
    decreases |lens| - n
  {
    hide *;
    var acc := lens[..n - count];
    if n == |lens| {
      assert lens[..n] == lens;
      RunsFromEnd(lens, count, prev);
      UnpackNone(before + lens);
    } else {
      RepeatNext(lens, acc, n, count);
      RunsFromIs(lens, n, count, prev);
      if GoesOn(lens, n, count, prev) {
        assert lens[..n + 1 - (count + 1)] == acc;
        RunsUnpack(lens, n + 1, count + 1, prev, before);
      } else {
        RunUnpacks(before + acc, lens[n], count + 1, prev);
        var r, rest := Run(lens[n], count + 1, prev), RunsFrom(lens, n + 1, 0, lens[n]);
        if n + 1 < |lens| {
          MaxRunRange(lens[n], lens[n + 1]);
          NoneRepeated(lens, n + 1);
        }
        FollowsRun(before + lens[..n + 1], lens[n]);
        assert lens[..n + 1 - 0] == lens[..n + 1];
        Assoc(before, acc, Repeat(lens[n], count + 1));
        RunsUnpack(lens, n + 1, 0, lens[n], before);
        UnpackConcat(before + acc, r, rest, |rest|);
      }
    }
  }

  lemma RunsFromEnd(lens: seq<nat>, count: nat, prev: int)
    ensures RunsFrom(lens, |lens|, count, prev) == []
  {}

  lemma NoneRepeated(lens: seq<nat>, n: nat)
    requires n < |lens|
    ensures lens[n..n] == Repeat(lens[n], 0)
  {}

  lemma FollowsRun(acc: seq<nat>, x: nat)
    requires acc != [] && acc[|acc| - 1] == x
    ensures Follows(acc, x)
  {}

  lemma UnpackNone(acc: seq<nat>)
    ensures Unpack(acc, [], 0) == Some(acc)
  {}

  /** Two length arrays, each coded on its own, are both given back. */
  lemma RunsRoundTrip(a: seq<nat>, b: seq<nat>)
    requires (forall i :: 0 <= i < |a| ==> a[i] <= MAX_BITS) && forall i :: 0 <= i < |b| ==> b[i] <= MAX_BITS
    ensures Unpack([], Runs(a) + Runs(b), |Runs(a) + Runs(b)|) == Some(a + b)
  {
    hide Unpack, RunsFrom;
    assert [] + a == a;
    StartOfRuns(a, []);
    StartOfRuns(b, a);
    UnpackConcat([], Runs(a), Runs(b), |Runs(b)|);
  }

  lemma StartOfRuns(lens: seq<nat>, before: seq<nat>)
    requires forall i :: 0 <= i < |lens| ==> lens[i] <= MAX_BITS
    ensures Unpack(before, Runs(lens), |Runs(lens)|) == Some(before + lens)
    ensures forall i :: 0 <= i < |Runs(lens)| ==> SymOk(Runs(lens)[i])
  {
    hide Unpack, RunsFrom, SymOk;
    if lens != [] { MaxRunRange(-1, lens[0]); }
    assert lens[..0 - 0] == [] && before + [] == before;
    assert lens[0 - 0..0] == Repeat(0, 0);
    RunsUnpack(lens, 0, 0, -1, before);
  }

  // ---- Bits of the symbols

  ghost predicate Sendable(cl: seq<nat>, s: Sym) {
    SymOk(s) && |cl| == BL_CODES && cl[s.code] > 0
  }

  ghost predicate AllSendable(cl: seq<nat>, syms: seq<Sym>) {
    forall i :: 0 <= i < |syms| ==> Sendable(cl, syms[i])
  }

  ghost function SymBits(cl: seq<nat>, s: Sym): (bits: seq<bool>)
    requires Sendable(cl, s)
    ensures bits != []
  {
    Codeword(cl, s.code) + ToBits(s.extra, Width(s.code))
  }

  ghost function SymsBits(cl: seq<nat>, syms: seq<Sym>, n: nat): (bits: seq<bool>)
    requires n <= |syms| && AllSendable(cl, syms)
  {
    if n == 0 then [] else SymsBits(cl, syms, n - 1) + SymBits(cl, syms[n - 1])
  }

  lemma {:induction false} SymsBitsPrefix(cl: seq<nat>, a: seq<Sym>, b: seq<Sym>, n: nat)
    requires AllSendable(cl, a + b) && AllSendable(cl, a) && n <= |a|
    ensures SymsBits(cl, a + b, n) == SymsBits(cl, a, n)
  {
    hide Sendable, SymBits;
    if n > 0 {
      SymsBitsPrefix(cl, a, b, n - 1);
      assert (a + b)[n - 1] == a[n - 1];
    }
  }

  lemma {:induction false} SymsBitsConcat(cl: seq<nat>, a: seq<Sym>, b: seq<Sym>, n: nat)
    requires AllSendable(cl, a + b) && AllSendable(cl, a) && AllSendable(cl, b) && n <= |b|
    ensures SymsBits(cl, a + b, |a| + n) == SymsBits(cl, a, |a|) + SymsBits(cl, b, n)
  {
    hide Sendable, SymBits;
    if n == 0 {
      SymsBitsPrefix(cl, a, b, |a|);
    } else {
      SymsBitsConcat(cl, a, b, n - 1);
      assert (a + b)[|a| + n - 1] == b[n - 1];
      assert |a| + n - 1 == |a| + (n - 1);
      Assoc(SymsBits(cl, a, |a|), SymsBits(cl, b, n - 1), SymBits(cl, b[n - 1]));
    }
  }

  lemma SendableParts(cl: seq<nat>, a: seq<Sym>, b: seq<Sym>)
    ensures AllSendable(cl, a + b) <==> AllSendable(cl, a) && AllSendable(cl, b)
  {
    hide Sendable;
    if AllSendable(cl, a + b) {
      forall i | 0 <= i < |a| ensures Sendable(cl, a[i]) { assert a[i] == (a + b)[i]; }
      forall i | 0 <= i < |b| ensures Sendable(cl, b[i]) { assert b[i] == (a + b)[|a| + i]; }
    }
  }

  /** Reading one symbol of the code length code repeats the length it stands for. */
  lemma SymRead(cl: seq<nat>, S: seq<bool>, p: nat, n: nat, acc: seq<nat>, s: Sym)
    requires Tokens.Code(cl) && Sendable(cl, s) && At(S, p, SymBits(cl, s)) && |acc| < n
    requires UnpackOne(acc, s).Some?
    ensures ReadLengths(cl, S, p, n, acc) == ReadLengths(cl, S, p + |SymBits(cl, s)|, n, UnpackOne(acc, s).value)
  {
    hide Codeword, Oversubscribed, LensOk, At, ToBits, Pow2, Symbol, ReadBits;
    AtConcat(S, p, Codeword(cl, s.code), ToBits(s.extra, Width(s.code)));
    SymbolAt(cl, S, p, s.code);
    ReadBitsAt(S, p + cl[s.code], s.extra, Width(s.code));
  }

  lemma UnpackGrows(acc: seq<nat>, s: Sym)
    requires UnpackOne(acc, s).Some?
    ensures |acc| < |UnpackOne(acc, s).value|
  {}

  /** Reading the bits of some symbols gives the lengths they stand for. */
  lemma {:induction false} SymsRead(cl: seq<nat>, S: seq<bool>, p: nat, n: nat, acc: seq<nat>, syms: seq<Sym>, k: nat)
    requires Tokens.Code(cl) && AllSendable(cl, syms) && k <= |syms| && At(S, p, SymsBits(cl, syms, k))
    requires Unpack(acc, syms, k).Some? && |Unpack(acc, syms, k).value| <= n
    ensures ReadLengths(cl, S, p, n, acc)
            == ReadLengths(cl, S, p + |SymsBits(cl, syms, k)|, n, Unpack(acc, syms, k).value)
  {
    hide Tokens.Code, At, Sendable, SymBits, ReadLengths, UnpackOne;
    if k > 0 {
      AtConcat(S, p, SymsBits(cl, syms, k - 1), SymBits(cl, syms[k - 1]));
      var a := Unpack(acc, syms, k - 1).value;
      UnpackGrows(a, syms[k - 1]);
      SymsRead(cl, S, p, n, acc, syms, k - 1);
      SymRead(cl, S, p + |SymsBits(cl, syms, k - 1)|, n, a, syms[k - 1]);
    }
  }

  /** What send_tree sends for the two trees is read back as both length arrays. */
  lemma LengthsRead(cl: seq<nat>, S: seq<bool>, p: nat, a: seq<nat>, b: seq<nat>)
    requires Tokens.Code(cl) && AllSendable(cl, Runs(a)) && AllSendable(cl, Runs(b))
    requires (forall i :: 0 <= i < |a| ==> a[i] <= MAX_BITS) && forall i :: 0 <= i < |b| ==> b[i] <= MAX_BITS
    requires At(S, p, SymsBits(cl, Runs(a), |Runs(a)|) + SymsBits(cl, Runs(b), |Runs(b)|))
    ensures ReadLengths(cl, S, p, |a| + |b|, [])
            == Some((a + b, p + |SymsBits(cl, Runs(a), |Runs(a)|)| + |SymsBits(cl, Runs(b), |Runs(b)|)|))
  {
    hide AllSendable, At, Unpack, SymsBits, Tokens.Code, RunsFrom;
    var syms := Runs(a) + Runs(b);
    RunsRoundTrip(a, b);
    SendableParts(cl, Runs(a), Runs(b));
    SymsBitsConcat(cl, Runs(a), Runs(b), |Runs(b)|);
    AtRange(S, p, SymsBits(cl, syms, |syms|));
    SymsRead(cl, S, p, |a| + |b|, [], syms, |syms|);
  }

  lemma AtRange(S: seq<bool>, p: nat, bits: seq<bool>)
    requires At(S, p, bits)
    ensures p + |bits| <= |S|
  {}

  // ---- send_tree

  /** The symbols of one run, one by one. */
  method SendRun(w: BitWriter, blTree: array<CtData>, cur: nat, count: nat, prev: int, ghost cl: seq<nat>)
    requires w.Valid() && Coded(blTree[..], cl) && AllSendable(cl, Run(cur, count, prev))
    requires 1 <= count <= MaxRun(prev, cur)
    modifies w
    ensures w.Valid() && old(w.out) <= w.out
    ensures var r := Run(cur, count, prev);
            w.Sent() == old(w.Sent()) + SymsBits(cl, r, |r|)
  {
    hide Coded, Sendable, SymsBits, SymBits, ToBits, Pow2, Codeword;
    ghost var r := Run(cur, count, prev);
    ghost var start := w.Sent();
    if count < MinRun(prev, cur) {
      var left := count;
      NoSyms(cl, r, start);
      while left != 0
        invariant w.Valid() && 0 <= left <= count && old(w.out) <= w.out
        invariant w.Sent() == start + SymsBits(cl, r, count - left)
      {
        OneMoreSym(cl, r, count - left, start);
        SendSym(w, blTree, cur, 0, cl);
        left := left - 1;
      }
    } else {
      NoSyms(cl, r, start);
      OneMoreSym(cl, r, 0, start);
      if cur != 0 {
        var left := count;
        if cur != prev {
          SendSym(w, blTree, cur, 0, cl);
          left := left - 1;
          OneMoreSym(cl, r, 1, start);
        }
        SendSym(w, blTree, REP_3_6, left - 3, cl);
      } else if count <= 10 {
        SendSym(w, blTree, REPZ_3_10, count - 3, cl);
      } else {
        SendSym(w, blTree, REPZ_11_138, count - 11, cl);
      }
    }
  }

  lemma NoSyms(cl: seq<nat>, r: seq<Sym>, start: seq<bool>)
    requires AllSendable(cl, r)
    ensures SymsBits(cl, r, 0) == [] && start + [] == start
  {}

  lemma OneMoreSym(cl: seq<nat>, r: seq<Sym>, n: nat, start: seq<bool>)
    requires AllSendable(cl, r) && n < |r|
    ensures Sendable(cl, r[n])
    ensures start + SymsBits(cl, r, n + 1) == start + SymsBits(cl, r, n) + SymBits(cl, r[n])
  {
    Assoc(start, SymsBits(cl, r, n), SymBits(cl, r[n]));
    hide Sendable, SymBits;
  }

  method SendSym(w: BitWriter, blTree: array<CtData>, code: nat, extra: nat, ghost cl: seq<nat>)
    requires w.Valid() && Coded(blTree[..], cl) && Sendable(cl, Sym(code, extra))
    modifies w
    ensures w.Valid() && w.Sent() == old(w.Sent()) + SymBits(cl, Sym(code, extra)) && old(w.out) <= w.out
  {
    hide Coded, ToBits, Pow2, Codeword;
    ghost var start := w.Sent();
    SendCode(w, blTree, code, cl);
    Assoc(start, Codeword(cl, code), ToBits(extra, Width(code)));
    if Width(code) > 0 {
      w.SendBits(extra, Width(code));
    } else {
      NoExtra(extra, w.Sent());
    }
  }

  lemma NoExtra(extra: nat, s: seq<bool>)
    ensures s + ToBits(extra, 0) == s
  {}

  /** Where the loop of scan_tree and send_tree stands: `sent` is what the finished runs give. */
  ghost predicate AtLength(lens: seq<nat>, n: nat, count: nat, prev: int, sent: seq<Sym>, next: nat, maxCount: nat, minCount: nat) {
    n <= |lens| && Runs(lens) == sent + RunsFrom(lens, n, count, prev)
    && next == (if n < |lens| then lens[n] else GUARD)
    && (n < |lens| ==> count < maxCount == MaxRun(prev, lens[n]) && minCount == MinRun(prev, lens[n]))
    && (n == |lens| ==> count == 0)
  }

  lemma LengthsStart(lens: seq<nat>, next: nat)
    requires next == if lens == [] then GUARD else lens[0]
    ensures AtLength(lens, 0, 0, -1, [], next, if next == 0 then 138 else 7, if next == 0 then 3 else 4)
  {
    hide RunsFrom;
    assert [] + RunsFrom(lens, 0, 0, -1) == RunsFrom(lens, 0, 0, -1);
  }

  /** One round of the loop: either the run goes on, or its symbols are given and the next run begins. */
  lemma LengthsStep(lens: seq<nat>, n: nat, count: nat, prev: int, sent: seq<Sym>, next: nat, next': nat,
                    maxCount: nat, minCount: nat)
    requires AtLength(lens, n, count, prev, sent, next, maxCount, minCount) && n < |lens|
    requires (forall i :: 0 <= i < |lens| ==> lens[i] <= MAX_BITS)
    requires next' == if n + 1 < |lens| then lens[n + 1] else GUARD
    ensures next == lens[n] && minCount == MinRun(prev, next) && count < maxCount == MaxRun(prev, next)
    ensures count + 1 < maxCount && next == next' <==> GoesOn(lens, n, count, prev)
    ensures GoesOn(lens, n, count, prev) ==> AtLength(lens, n + 1, count + 1, prev, sent, next', maxCount, minCount)
    ensures !GoesOn(lens, n, count, prev)
            ==> AtLength(lens, n + 1, 0, next, sent + Run(next, count + 1, prev), next',
                         if next' == 0 then 138 else if next == next' then 6 else 7,
                         if next' == 0 then 3 else if next == next' then 3 else 4)
                && Runs(lens) == sent + (Run(next, count + 1, prev) + RunsFrom(lens, n + 1, 0, next))
  {
    hide Run;
    if !GoesOn(lens, n, count, prev) {
      Assoc(sent, Run(next, count + 1, prev), RunsFrom(lens, n + 1, 0, next));
    }
  }

  /** The tree's lengths with the guard after them. */
  ghost predicate Guarded(tree: seq<CtData>, lens: seq<nat>) {
    |lens| < |tree| && tree[|lens|].dl == GUARD
    && forall i :: 0 <= i < |lens| ==> tree[i].dl == lens[i] <= MAX_BITS
  }

  lemma NextLength(tree: seq<CtData>, lens: seq<nat>, n: nat)
    requires Guarded(tree, lens) && n <= |lens|
    ensures n < |tree| && tree[n].dl == if n < |lens| then lens[n] else GUARD
    ensures forall i :: 0 <= i < |lens| ==> lens[i] <= MAX_BITS
  {}

  method SendTree(w: BitWriter, tree: array<CtData>, maxCode: nat, blTree: array<CtData>, ghost lens: seq<nat>, ghost cl: seq<nat>)
    requires w.Valid() && Coded(blTree[..], cl) && |lens| == maxCode + 1 && Guarded(tree[..], lens)
    requires AllSendable(cl, Runs(lens))
    modifies w
    ensures w.Valid() && w.Sent() == old(w.Sent()) + SymsBits(cl, Runs(lens), |Runs(lens)|) && old(w.out) <= w.out
  {
    hide Coded, Guarded, AllSendable, SymsBits, Run, RunsFrom, AtLength, MinRun, MaxRun, GoesOn, Runs;
    NextLength(tree[..], lens, 0);
    var prevlen: int, count, nextlen := -1, 0, tree[0].dl;
    var maxCount, minCount := 7, 4;
    if nextlen == 0 {
      maxCount, minCount := 138, 3;
    }
    ghost var sent: seq<Sym> := [];
    LengthsStart(lens, nextlen);
    NothingSent(cl, w.Sent());
    var n := 0;
    while n <= maxCode
      invariant w.Valid() && 0 <= n <= maxCode + 1 && old(w.out) <= w.out
      invariant AtLength(lens, n, count, prevlen, sent, nextlen, maxCount, minCount)
      invariant AllSendable(cl, sent) && w.Sent() == old(w.Sent()) + SymsBits(cl, sent, |sent|)
    {
      var curlen := nextlen;
      NextLength(tree[..], lens, n + 1);
      nextlen := tree[n + 1].dl;
      LengthsStep(lens, n, count, prevlen, sent, curlen, nextlen, maxCount, minCount);
      count := count + 1;
      if !(count < maxCount && curlen == nextlen) {
        RunSendable(cl, lens, sent, Run(curlen, count, prevlen), RunsFrom(lens, n + 1, 0, curlen), old(w.Sent()));
        SendRun(w, blTree, curlen, count, prevlen, cl);
        sent := sent + Run(curlen, count, prevlen);
        count := 0;
        prevlen := curlen;
        if nextlen == 0 {
          maxCount, minCount := 138, 3;
        } else if curlen == nextlen {
          maxCount, minCount := 6, 3;
        } else {
          maxCount, minCount := 7, 4;
        }
      }
      n := n + 1;
    }
    LengthsEnd(lens, n, count, prevlen, sent, nextlen, maxCount, minCount);
  }

  lemma NothingSent(cl: seq<nat>, start: seq<bool>)
    ensures AllSendable(cl, []) && start == start + SymsBits(cl, [], 0)
  {}

  lemma RunSendable(cl: seq<nat>, lens: seq<nat>, sent: seq<Sym>, run: seq<Sym>, rest: seq<Sym>, start: seq<bool>)
    requires AllSendable(cl, Runs(lens)) && Runs(lens) == sent + (run + rest) && AllSendable(cl, sent)
    ensures AllSendable(cl, run) && AllSendable(cl, sent + run)
    ensures start + SymsBits(cl, sent + run, |sent + run|)
            == start + SymsBits(cl, sent, |sent|) + SymsBits(cl, run, |run|)
  {
    hide AllSendable, Runs, SymsBits;
    SendableParts(cl, sent, run + rest);
    SendableParts(cl, run, rest);
    SendableParts(cl, sent, run);
    SymsBitsConcat(cl, sent, run, |run|);
    Assoc(start, SymsBits(cl, sent, |sent|), SymsBits(cl, run, |run|));
  }

  lemma LengthsEnd(lens: seq<nat>, n: nat, count: nat, prev: int, sent: seq<Sym>, next: nat, maxCount: nat, minCount: nat)
    requires AtLength(lens, n, count, prev, sent, next, maxCount, minCount) && n == |lens|
    ensures sent == Runs(lens)
  {}

  // ---- scan_tree

  /** Frequency c raised by n. */
  function Raised(f: seq<nat>, c: nat, n: nat): (r: seq<nat>)
    ensures |r| == |f|
    ensures forall i :: 0 <= i < |f| ==> r[i] == if i == c then f[i] + n else f[i]
  {
    if c < |f| then f[c := f[c] + n] else f
  }

  /** The frequencies after the first n symbols. */
  function Tallied(f: seq<nat>, syms: seq<Sym>, n: nat): (r: seq<nat>)
    requires n <= |syms|
    ensures |r| == |f|
  {
    if n == 0 then f else Raised(Tallied(f, syms, n - 1), syms[n - 1].code, 1)
  }

  lemma {:induction false} TalliedConcat(f: seq<nat>, a: seq<Sym>, b: seq<Sym>, n: nat)
    requires n <= |b|
    ensures Tallied(f, a + b, |a| + n) == Tallied(Tallied(f, a, |a|), b, n)
  {
    if n == 0 {
      TalliedPrefix(f, a, b, |a|);
    } else {
      TalliedConcat(f, a, b, n - 1);
      assert (a + b)[|a| + n - 1] == b[n - 1];
      assert |a| + n - 1 == |a| + (n - 1);
    }
  }

  lemma {:induction false} TalliedPrefix(f: seq<nat>, a: seq<Sym>, b: seq<Sym>, n: nat)
    requires n <= |a|
    ensures Tallied(f, a + b, n) == Tallied(f, a, n)
  {
    if n > 0 {
      TalliedPrefix(f, a, b, n - 1);
      assert (a + b)[n - 1] == a[n - 1];
    }
  }

  lemma {:induction false} TalliedPlain(f: seq<nat>, cur: nat, count: nat)
    ensures Tallied(f, Plain(cur, count), count) == Raised(f, cur, count)
  {
    if count > 0 {
      TalliedPlain(f, cur, count - 1);
      assert Plain(cur, count) == Plain(cur, count - 1) + [Sym(cur, 0)];
      TalliedPrefix(f, Plain(cur, count - 1), [Sym(cur, 0)], count - 1);
    }
  }

  /** What scan_tree adds for a run is what its symbols add. */
  lemma TalliedRun(f: seq<nat>, cur: nat, count: nat, prev: int)
    ensures var r := Run(cur, count, prev);
            Tallied(f, r, |r|) ==
            if count < MinRun(prev, cur) then Raised(f, cur, count)
            else if cur != 0 then
              (if cur != prev then Raised(Raised(f, cur, 1), REP_3_6, 1) else Raised(f, REP_3_6, 1))
            else if count <= 10 then Raised(f, REPZ_3_10, 1)
            else Raised(f, REPZ_11_138, 1)
  {
    hide *;
    RunIs(cur, count, prev);
    TalliedPlain(f, cur, count);
    TalliedOne(f, Sym(REP_3_6, Less(count, 3)));
    TalliedOne(f, Sym(REPZ_3_10, Less(count, 3)));
    TalliedOne(f, Sym(REPZ_11_138, Less(count, 11)));
    TalliedTwo(f, Sym(cur, 0), Sym(REP_3_6, Less(count, 4)));
  }

  lemma TalliedOne(f: seq<nat>, s: Sym)
    ensures Tallied(f, [s], 1) == Raised(f, s.code, 1)
  {
    hide Raised;
    assert Tallied(f, [s], 0) == f;
  }

  lemma TalliedTwo(f: seq<nat>, s: Sym, t: Sym)
    ensures Tallied(f, [s, t], 2) == Raised(Raised(f, s.code, 1), t.code, 1)
  {
    hide Raised;
    assert Tallied(f, [s, t], 0) == f;
    assert Tallied(f, [s, t], 1) == Raised(f, s.code, 1);
  }

  lemma RunIs(cur: nat, count: nat, prev: int)
    ensures Run(cur, count, prev) ==
            if count < MinRun(prev, cur) then Plain(cur, count)
            else if cur != 0 then
              (if cur != prev then [Sym(cur, 0), Sym(REP_3_6, Less(count, 4))] else [Sym(REP_3_6, Less(count, 3))])
            else if count <= 10 then [Sym(REPZ_3_10, Less(count, 3))]
            else [Sym(REPZ_11_138, Less(count, 11))]
    ensures BL_CODES > REPZ_11_138 > REPZ_3_10 > REP_3_6 > MAX_BITS
  {}

  /** The frequencies kept in the first n entries. */
  function Freqs(tree: seq<CtData>, n: nat): (s: seq<nat>)
    requires n <= |tree|
    ensures |s| == n && forall i :: 0 <= i < n ==> s[i] == tree[i].fc
  {
    seq(n, i requires 0 <= i < n => tree[i].fc)
  }

  method AddFreq(tree: array<CtData>, c: nat, more: nat)
    requires BL_CODES <= tree.Length && c < BL_CODES
    modifies tree
    ensures Freqs(tree[..], BL_CODES) == Raised(Freqs(old(tree[..]), BL_CODES), c, more)
    ensures forall i :: 0 <= i < tree.Length ==> tree[i].dl == old(tree[i].dl)
    ensures forall i :: BL_CODES <= i < tree.Length ==> tree[i] == old(tree[i])
  {
    tree[c] := tree[c].(fc := tree[c].fc + more);
  }

  method ScanRun(blTree: array<CtData>, cur: nat, count: nat, prev: int)
    requires BL_CODES <= blTree.Length && cur <= MAX_BITS
    modifies blTree
    ensures var r := Run(cur, count, prev);
            Freqs(blTree[..], BL_CODES) == Tallied(Freqs(old(blTree[..]), BL_CODES), r, |r|)
    ensures forall i :: 0 <= i < blTree.Length ==> blTree[i].dl == old(blTree[i].dl)
    ensures forall i :: BL_CODES <= i < blTree.Length ==> blTree[i] == old(blTree[i])
  {
    hide Run, Tallied;
    TalliedRun(Freqs(blTree[..], BL_CODES), cur, count, prev);
    if count < MinRun(prev, cur) {
      AddFreq(blTree, cur, count);
    } else if cur != 0 {
      if cur != prev {
        AddFreq(blTree, cur, 1);
      }
      AddFreq(blTree, REP_3_6, 1);
    } else if count <= 10 {
      AddFreq(blTree, REPZ_3_10, 1);
    } else {
      AddFreq(blTree, REPZ_11_138, 1);
    }
  }

  /** scan_tree sets the guard and counts exactly the symbols send_tree will send. */
  method ScanTree(tree: array<CtData>, maxCode: nat, blTree: array<CtData>, ghost lens: seq<nat>)
    requires tree != blTree && BL_CODES <= blTree.Length && maxCode + 1 < tree.Length && |lens| == maxCode + 1
    requires forall i :: 0 <= i <= maxCode ==> tree[i].dl == lens[i] <= MAX_BITS
    modifies tree, blTree
    ensures Guarded(tree[..], lens)
    ensures tree[maxCode + 1].fc == old(tree[maxCode + 1].fc)
    ensures forall i :: 0 <= i < tree.Length && i != maxCode + 1 ==> tree[i] == old(tree[i])
    ensures Freqs(blTree[..], BL_CODES) == Tallied(Freqs(old(blTree[..]), BL_CODES), Runs(lens), |Runs(lens)|)
    ensures forall i :: 0 <= i < blTree.Length ==> blTree[i].dl == old(blTree[i].dl)
    ensures forall i :: BL_CODES <= i < blTree.Length ==> blTree[i] == old(blTree[i])
  {
    hide Run, RunsFrom, AtLength, MinRun, MaxRun, GoesOn, Runs, Tallied;
    var prevlen: int, count, nextlen := -1, 0, tree[0].dl;
    var maxCount, minCount := 7, 4;
    if nextlen == 0 {
      maxCount, minCount := 138, 3;
    }
    tree[maxCode + 1] := tree[maxCode + 1].(dl := GUARD);
    ghost var f := Freqs(blTree[..], BL_CODES);
    ghost var sent: seq<Sym> := [];
    LengthsStart(lens, nextlen);
    NothingTallied(f);
    var n := 0;
    while n <= maxCode
      invariant 0 <= n <= maxCode + 1
      invariant Guarded(tree[..], lens) && tree[maxCode + 1].fc == old(tree[maxCode + 1].fc)
      invariant forall i :: 0 <= i < tree.Length && i != maxCode + 1 ==> tree[i] == old(tree[i])
      invariant AtLength(lens, n, count, prevlen, sent, nextlen, maxCount, minCount)
      invariant Freqs(blTree[..], BL_CODES) == Tallied(f, sent, |sent|)
      invariant forall i :: 0 <= i < blTree.Length ==> blTree[i].dl == old(blTree[i].dl)
      invariant forall i :: BL_CODES <= i < blTree.Length ==> blTree[i] == old(blTree[i])
    {
      var curlen := nextlen;
      NextLength(tree[..], lens, n + 1);
      nextlen := tree[n + 1].dl;
      LengthsStep(lens, n, count, prevlen, sent, curlen, nextlen, maxCount, minCount);
      count := count + 1;
      if !(count < maxCount && curlen == nextlen) {
        TalliedConcat(f, sent, Run(curlen, count, prevlen), |Run(curlen, count, prevlen)|);
        ScanRun(blTree, curlen, count, prevlen);
        sent := sent + Run(curlen, count, prevlen);
        count := 0;
        prevlen := curlen;
        if nextlen == 0 {
          maxCount, minCount := 138, 3;
        } else if curlen == nextlen {
          maxCount, minCount := 6, 3;
        } else {
          maxCount, minCount := 7, 4;
        }
      }
      n := n + 1;
    }
    LengthsEnd(lens, n, count, prevlen, sent, nextlen, maxCount, minCount);
  }

  lemma NothingTallied(f: seq<nat>)
    ensures Tallied(f, [], 0) == f
  {}

  /** A length other than 0 is sent as itself at least once. */
  lemma {:induction false} SomePlain(lens: seq<nat>, n: nat, count: nat, prev: int, i: nat) returns (k: nat)
    requires n <= i < |lens| && lens[i] != 0 && prev <= 0 && forall j :: 0 <= j < |lens| ==> lens[j] <= MAX_BITS
    ensures k < |RunsFrom(lens, n, count, prev)| && 1 <= RunsFrom(lens, n, count, prev)[k].code <= MAX_BITS
    decreases |lens| - n
  {
    hide *;
    RunsFromIs(lens, n, count, prev);
    if GoesOn(lens, n, count, prev) {
      k := SomePlain(lens, n + 1, count + 1, prev, if i == n then n + 1 else i);
    } else if lens[n] != 0 {
      k := 0;
      RunStarts(lens[n], count + 1, prev);
    } else {
      k := SomePlain(lens, n + 1, 0, 0, i);
      k := k + |Run(lens[n], count + 1, prev)|;
    }
  }

  lemma RunsFromIs(lens: seq<nat>, n: nat, count: nat, prev: int)
    requires n < |lens|
    ensures GoesOn(lens, n, count, prev)
            ==> n + 1 < |lens| && lens[n] == lens[n + 1] && count + 1 < MaxRun(prev, lens[n]) && RunsFrom(lens, n, count, prev) == RunsFrom(lens, n + 1, count + 1, prev)
    ensures !GoesOn(lens, n, count, prev)
            ==> RunsFrom(lens, n, count, prev) == Run(lens[n], count + 1, prev) + RunsFrom(lens, n + 1, 0, lens[n])
  {}

  lemma RunStarts(cur: nat, count: nat, prev: int)
    requires count >= 1 && cur != prev && cur != 0
    ensures Run(cur, count, prev) != [] && Run(cur, count, prev)[0].code == cur
  {}
}
