/** The tables ct_init sets up: length and distance codes, and the fixed trees. */
module CodeTables {
  import opened Bits
  import opened PrefixCodes
  import opened Rfc1951
  import opened Tokens
  import opened Trees
  import opened FixedCodes

  const LENGTH_CODES: nat := 29

  /** v lies in band c. */
  lemma LengthBandIs(c: nat, v: nat)
    requires c < 28 && LENGTH_BASE[c] <= v < LENGTH_BASE[c + 1]
    ensures LengthBand(v) == c
  {
    BasesGrow();
  }

  lemma DistBandIs(c: nat, v: nat)
    requires c < 30 && DIST_BASE[c] <= v && (c < 29 ==> v < DIST_BASE[c + 1])
    ensures DistBand(v) == c
  {
    BasesGrow();
  }

  lemma BasesGrow()
    ensures forall i, j :: 0 <= i <= j < 29 ==> LENGTH_BASE[i] <= LENGTH_BASE[j]
    ensures forall i, j :: 0 <= i <= j < 30 ==> DIST_BASE[i] <= DIST_BASE[j]
  {}

  /** length_code and base_length. */
  method LengthTables() returns (lengthCode: seq<nat>, baseLength: seq<nat>)
    ensures |lengthCode| == 256 && forall i :: 0 <= i < 256 ==> lengthCode[i] == LengthBand(i + MIN_MATCH)
    ensures |baseLength| == LENGTH_CODES && forall c :: 0 <= c < 28 ==> baseLength[c] == LENGTH_BASE[c] - MIN_MATCH
  {
    hide Pow2, BandOf, LengthBand;
    lengthCode, baseLength := seq(256, _ => 0), seq(LENGTH_CODES, _ => 0);
    var length: nat, code: nat := 0, 0;
    LengthSteps();
    while code < LENGTH_CODES - 1
      invariant 0 <= code <= 28 && |lengthCode| == 256 && |baseLength| == LENGTH_CODES
      invariant length == LENGTH_BASE[code] - MIN_MATCH + (if code == 28 then 1 else 0)
      invariant forall i :: 0 <= i < length && i < 255 ==> lengthCode[i] == LengthBand(i + MIN_MATCH)
      invariant forall c :: 0 <= c < code ==> baseLength[c] == LENGTH_BASE[c] - MIN_MATCH
    {
      baseLength := baseLength[code := length];
      var n: nat := 0;
      while n < Pow2(LENGTH_EXTRA[code])
        invariant 0 <= n <= Pow2(LENGTH_EXTRA[code]) && |lengthCode| == 256
        invariant length == LENGTH_BASE[code] - MIN_MATCH + n
        invariant forall i :: 0 <= i < length && i < 255 ==> lengthCode[i] == LengthBand(i + MIN_MATCH)
      {
        if length < 255 { LengthBandIs(code, length + MIN_MATCH); }
        lengthCode := lengthCode[length := code];
        length := length + 1;
        n := n + 1;
      }
      code := code + 1;
    }
    LastLength();
    lengthCode := lengthCode[length - 1 := code];
  }

  /** The bands of the lengths follow each other; the last one shares its only length with the one before. */
  lemma LengthSteps()
    ensures |LENGTH_BASE| == |LENGTH_EXTRA| == 29 && LENGTH_BASE[0] == MIN_MATCH && LENGTH_BASE[28] == 258
    ensures forall c :: 0 <= c < 27 ==> LENGTH_BASE[c + 1] == LENGTH_BASE[c] + Pow2(LENGTH_EXTRA[c])
    ensures LENGTH_BASE[27] == 227 && Pow2(LENGTH_EXTRA[27]) == 32
    ensures forall i, j :: 0 <= i <= j < 29 ==> LENGTH_BASE[i] <= LENGTH_BASE[j]
  {
    Pow2Values();
    Pow2Tens();
    hide Pow2;
  }

  lemma LastLength()
    ensures LengthBand(258) == 28
  {}

  /** The macro d_code. */
  function DCode(distCode: seq<nat>, dist: nat): nat
    requires |distCode| == 512 && dist < 32768
  {
    if dist < 256 then distCode[dist] else distCode[256 + dist / 128]
  }

  lemma DistSteps()
    ensures |DIST_BASE| == |DIST_EXTRA| == 30 && DIST_BASE[0] == 1 && DIST_BASE[16] == 257
    ensures forall c :: 0 <= c < 16 ==> DIST_BASE[c + 1] == DIST_BASE[c] + Pow2(DIST_EXTRA[c])
    ensures forall c :: 16 <= c < 30 ==> DIST_EXTRA[c] >= 7
    ensures forall c :: 16 <= c < 29 ==> DIST_BASE[c + 1] == DIST_BASE[c] + 128 * Pow2(DIST_EXTRA[c] - 7)
    ensures DIST_BASE[29] + 128 * Pow2(DIST_EXTRA[29] - 7) == 32769
    ensures forall i, j :: 0 <= i <= j < 30 ==> DIST_BASE[i] <= DIST_BASE[j]
  {
    hide Pow2;
    BasesGrow();
    NearSteps();
    FarSteps();
  }

  lemma NearSteps()
    ensures forall c :: 0 <= c < 16 ==> DIST_BASE[c + 1] == DIST_BASE[c] + Pow2(DIST_EXTRA[c])
  {
    hide Pow2;
    Pow2Values();
    Pow2Tens();
  }

  lemma FarSteps()
    ensures forall c :: 16 <= c < 30 ==> DIST_EXTRA[c] >= 7
    ensures forall c :: 16 <= c < 29 ==> DIST_BASE[c + 1] == DIST_BASE[c] + 128 * Pow2(DIST_EXTRA[c] - 7)
    ensures DIST_BASE[29] + 128 * Pow2(DIST_EXTRA[29] - 7) == 32769
  {
    hide Pow2;
    Pow2Values();
    Pow2Tens();
  }

  /** dist_code and base_dist. */
  method DistTables() returns (distCode: seq<nat>, baseDist: seq<nat>)
    ensures |distCode| == 512 && forall d :: 0 <= d < 32768 ==> DCode(distCode, d) == DistBand(d + 1)
    ensures |baseDist| == D_CODES && forall c :: 0 <= c < D_CODES ==> baseDist[c] == DIST_BASE[c] - 1
  {
    hide Pow2, BandOf, DistBand;
    var dist: nat, code: nat;
    distCode, baseDist, dist, code := NearTables();
    dist := dist / 128;
    ghost var near, bases: seq<nat> := distCode, baseDist;
    distCode, baseDist := FarTables(distCode, baseDist, dist, code);
    forall d | 0 <= d < 32768
      ensures DCode(distCode, d) == DistBand(d + 1)
    {
      if d < 256 {
        assert distCode[..256][d] == near[..256][d];
      } else {
        assert FarCoded(distCode, 256);
      }
    }
    forall c | 0 <= c < D_CODES
      ensures baseDist[c] == DIST_BASE[c] - 1
    {
      if c < 16 { assert baseDist[..16][c] == bases[..16][c]; }
    }
  }

  /** The codes of distances up to 256. */
  method NearTables() returns (distCode: seq<nat>, baseDist: seq<nat>, dist: nat, code: nat)
    ensures |distCode| == 512 && |baseDist| == D_CODES && dist == 256 && code == 16
    ensures forall i :: 0 <= i < 256 ==> distCode[i] == DistBand(i + 1)
    ensures forall c :: 0 <= c < 16 ==> baseDist[c] == DIST_BASE[c] - 1
  {
    hide Pow2, BandOf, DistBand, DIST_BASE, DIST_EXTRA;
    distCode, baseDist := seq(512, _ => 0), seq(D_CODES, _ => 0);
    dist, code := 0, 0;
    DistSteps();
    while code < 16
      invariant 0 <= code <= 16 && |distCode| == 512 && |baseDist| == D_CODES
      invariant dist == DIST_BASE[code] - 1 <= 256
      invariant forall i :: 0 <= i < dist ==> distCode[i] == DistBand(i + 1)
      invariant forall c :: 0 <= c < code ==> baseDist[c] == DIST_BASE[c] - 1
    {
      baseDist := baseDist[code := dist];
      var n: nat := 0;
      ghost var end: nat := DIST_BASE[code + 1] - 1;
      assert end <= 256;
      while n < Pow2(DIST_EXTRA[code])
        invariant 0 <= n <= Pow2(DIST_EXTRA[code]) && |distCode| == 512 && dist == DIST_BASE[code] - 1 + n <= end
        invariant forall i :: 0 <= i < dist ==> distCode[i] == DistBand(i + 1)
      {
        DistBandIs(code, dist + 1);
        distCode := distCode[dist := code];
        dist := dist + 1;
        n := n + 1;
      }
      code := code + 1;
    }
  }

  /** The codes of distances 257 .. 128 * upto. */
  ghost predicate FarCoded(distCode: seq<nat>, upto: nat) {
    |distCode| == 512 && 2 <= upto <= 256 && forall d :: 256 <= d < 128 * upto ==> DCode(distCode, d) == DistBand(d + 1)
  }

  lemma FarNext(distCode: seq<nat>, dist: nat, code: nat)
    requires FarCoded(distCode, dist) && 2 <= dist < 256 && code < 30
    requires DIST_BASE[code] <= 128 * dist + 1 && (code < 29 ==> 128 * dist + 128 < DIST_BASE[code + 1])
    ensures FarCoded(distCode[256 + dist := code], dist + 1)
  {
    hide BandOf, DistBand;
    var c := distCode[256 + dist := code];
    forall d | 256 <= d < 128 * (dist + 1)
      ensures DCode(c, d) == DistBand(d + 1)
    {
      if d >= 128 * dist {
        DistBandIs(code, d + 1);
      } else {
        assert DCode(distCode, d) == DistBand(d + 1);
      }
    }
  }

  /** From here on, all distances are divided by 128. */
  method FarTables(distCode0: seq<nat>, baseDist0: seq<nat>, dist0: nat, code0: nat)
    returns (distCode: seq<nat>, baseDist: seq<nat>)
    requires |distCode0| == 512 && |baseDist0| == D_CODES && dist0 == 2 && code0 == 16
    ensures FarCoded(distCode, 256) && distCode[..256] == distCode0[..256]
    ensures |baseDist| == D_CODES && baseDist[..16] == baseDist0[..16]
    ensures forall c :: 16 <= c < D_CODES ==> baseDist[c] == DIST_BASE[c] - 1
  {
    hide Pow2, BandOf, DistBand, FarCoded;
    distCode, baseDist := distCode0, baseDist0;
    var dist: nat, code: nat := dist0, code0;
    DistSteps();
    FarNone(distCode);
    while code < D_CODES
      invariant 16 <= code <= D_CODES && |distCode| == 512 && |baseDist| == D_CODES
      invariant 128 * dist == (if code < D_CODES then DIST_BASE[code] - 1 else 32768) && 2 <= dist
      invariant distCode[..256] == distCode0[..256] && baseDist[..16] == baseDist0[..16]
      invariant FarCoded(distCode, dist)
      invariant forall c :: 16 <= c < code ==> baseDist[c] == DIST_BASE[c] - 1
    {
      baseDist := baseDist[code := dist * 128];
      var n: nat, width := 0, Pow2(DIST_EXTRA[code] - 7);
      ghost var start: nat := dist;
      ghost var end: nat := if code < 29 then DIST_BASE[code + 1] - 1 else 32768;
      assert end <= 32768 && end == 128 * start + 128 * width;
      while n < width
        invariant 0 <= n <= width && |distCode| == 512 && dist == start + n
        invariant distCode[..256] == distCode0[..256] && FarCoded(distCode, dist)
      {
        assert 128 * dist + 128 <= end;
        FarNext(distCode, dist, code);
        distCode := distCode[256 + dist := code];
        dist := dist + 1;
        n := n + 1;
      }
      code := code + 1;
    }
  }

  lemma FarNone(distCode: seq<nat>)
    requires |distCode| == 512
    ensures FarCoded(distCode, 2)
  {}

  // ---- The fixed trees

  lemma FixedCounts(bl: seq<nat>)
    requires |bl| == MAX_BITS + 1 && bl[7] == 24 && bl[8] == 152 && bl[9] == 112
    requires forall k :: 0 <= k <= MAX_BITS && k != 7 && k != 8 && k != 9 ==> bl[k] == 0
    ensures forall k :: 1 <= k <= MAX_BITS ==> bl[k] == Count(FixedLit(), k)
    ensures !Oversubscribed(FixedLit())
  {
    FixedComplete();
    forall k | 1 <= k <= MAX_BITS
      ensures bl[k] == Count(FixedLit(), k)
    {
      FixedCount(288, k);
    }
    hide Filled;
  }

  ghost predicate LensSoFar(tree: seq<CtData>, n: nat) {
    n <= 288 == |tree| && forall i :: 0 <= i < n ==> tree[i].dl == FixedLength(i)
  }

  /** static_ltree: the lengths are imposed, the codes follow. */
  method StaticLtree() returns (tree: array<CtData>)
    ensures fresh(tree) && tree.Length == 288 && Coded(tree[..], FixedLit())
  {
    hide Oversubscribed, CountTo, Codeword, Pow2, ToBits;
    tree := new CtData[288](_ => CtData(0, 0));
    var blCount: seq<nat>, n: nat := seq(MAX_BITS + 1, _ => 0), 0;
    blCount, n := SetLengths(tree, blCount, n, 144, 8);
    blCount, n := SetLengths(tree, blCount, n, 256, 9);
    blCount, n := SetLengths(tree, blCount, n, 280, 7);
    blCount, n := SetLengths(tree, blCount, n, 288, 8);
    assert Lens(tree[..], 288) == FixedLit();
    FixedCounts(blCount);
    GenCodes(tree, 287, blCount);
  }

  /** while (n < end) static_ltree[n++].Len = len, bl_count[len]++. */
  method SetLengths(tree: array<CtData>, blCount0: seq<nat>, n0: nat, end: nat, len: nat) returns (blCount: seq<nat>, n: nat)
    requires LensSoFar(tree[..], n0) && n0 <= end <= 288 && len <= MAX_BITS && |blCount0| == MAX_BITS + 1
    requires forall i :: n0 <= i < end ==> FixedLength(i) == len
    modifies tree
    ensures n == end && LensSoFar(tree[..], n) && |blCount| == MAX_BITS + 1
    ensures blCount == blCount0[len := blCount0[len] + end - n0]
  {
    blCount, n := blCount0, n0;
    while n < end
      invariant n0 <= n <= end && LensSoFar(tree[..], n) && |blCount| == MAX_BITS + 1
      invariant blCount == blCount0[len := blCount0[len] + n - n0]
    {
      tree[n] := tree[n].(dl := len);
      blCount := blCount[len := blCount[len] + 1];
      n := n + 1;
    }
  }

  lemma {:induction false} FixedDistNext(k: nat)
    requires 1 <= k <= 5
    ensures NextCode(FixedDist(), k) == 0
  {
    if k > 1 {
      FixedDistNext(k - 1);
      FixedDistCount(30, k - 1);
    }
  }

  lemma FixedDistCode(n: nat)
    requires n < 30
    ensures Codeword(FixedDist(), n) == MsbBits(n, 5)
  {
    FixedDistNext(5);
    FixedDistCount(n, 5);
    hide MsbBits;
  }

  /** static_dtree: a trivial tree, since all codes use 5 bits. */
  method StaticDtree() returns (tree: array<CtData>)
    ensures fresh(tree) && tree.Length == D_CODES && Coded(tree[..], FixedDist())
  {
    hide Codeword, Pow2, ToBits, MsbBits;
    tree := new CtData[D_CODES](_ => CtData(0, 0));
    var n := 0;
    while n < D_CODES
      invariant 0 <= n <= D_CODES
      invariant forall i :: 0 <= i < n ==> tree[i].dl == 5 && tree[i].fc < Pow2(5) && ToBits(tree[i].fc, 5) == Codeword(FixedDist(), i)
    {
      FixedDistCode(n);
      var code := BiReverse(n, 5);
      tree[n] := CtData(code, 5);
      n := n + 1;
    }
  }
}
