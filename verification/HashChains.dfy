/** The hash table of the compressor: UPDATE_HASH, and what the chains in head and prev link.
    Positions p in the window stand for bytes base + p of the input, so that moving the window by WSIZE is a
    change of base. */
module HashChains {
  import opened Bits
  import opened Lz77
  import opened Tokens

  const HASH_SIZE: nat := 8192
  const MIN_LOOKAHEAD: nat := MAX_MATCH + MIN_MATCH + 1
  const MAX_DIST: nat := WSIZE - MIN_LOOKAHEAD
  const NIL: nat := 0

  const HASH_BITS: nat := 13
  const H_SHIFT: nat := 5

  /** UPDATE_HASH: the oldest of three bytes is shifted out by the next two. */
  function UpdateHash(h: nat, c: byte): nat { LowBits(Xor(Shl(h, H_SHIFT), c), HASH_BITS) }

  function Hash3(a: byte, b: byte, c: byte): nat { UpdateHash(UpdateHash(UpdateHash(0, a), b), c) }

  /** Bit i of a hash key or a byte. */
  function Bit(v: nat, i: nat): bool
    requires i < HASH_BITS
  {
    ToBits(v, HASH_BITS)[i]
  }

  lemma ShiftedBits(h: nat, i: nat)
    requires i < HASH_BITS
    ensures ToBits(Shl(h, H_SHIFT), HASH_BITS)[i] == (i >= H_SHIFT && Bit(h, Less(i, H_SHIFT)))
  {
    AppendBits(0, H_SHIFT, h, HASH_BITS - H_SHIFT);
    ToBitsSplit(h, HASH_BITS - H_SHIFT, H_SHIFT);
    ValZeros(H_SHIFT);
    ToBitsVal(Zeros(H_SHIFT));
    hide ToBits, Shl, Shr;
  }

  lemma UpdateBit(h: nat, c: byte, i: nat)
    requires i < HASH_BITS
    ensures Bit(UpdateHash(h, c), i) == ((i >= H_SHIFT && Bit(h, Less(i, H_SHIFT))) != Bit(c, i))
  {
    ShiftedBits(h, i);
    OpBits(Shl(h, H_SHIFT), c, HASH_BITS, i);
    ToBitsMod(Xor(Shl(h, H_SHIFT), c), HASH_BITS);
    hide ToBits, Shl, Xor;
  }

  /** A key is its bits. */
  lemma SameBits(a: nat, b: nat)
    requires a < HASH_SIZE && b < HASH_SIZE && forall i :: 0 <= i < HASH_BITS ==> Bit(a, i) == Bit(b, i)
    ensures a == b
  {
    KeyOfBits(a);
    KeyOfBits(b);
    hide ToBits, Val;
    assert forall i :: 0 <= i < HASH_BITS ==> ToBits(a, HASH_BITS)[i] == Bit(a, i) && ToBits(b, HASH_BITS)[i] == Bit(b, i);
    assert ToBits(a, HASH_BITS) == ToBits(b, HASH_BITS);
  }

  lemma KeyOfBits(a: nat)
    requires a < HASH_SIZE
    ensures Val(ToBits(a, HASH_BITS)) == a
  {
    Pow2Values();
    ValToBits(a, HASH_BITS);
    hide ToBits, Pow2, Val;
  }

  lemma UpdateRange(h: nat, c: byte)
    ensures UpdateHash(h, c) < HASH_SIZE
  {
    Pow2Values();
    hide Pow2, Xor, Shl;
  }

  lemma ForgetOldest(h: nat, a: byte, b: byte, c: byte)
    ensures UpdateHash(UpdateHash(UpdateHash(h, a), b), c) == Hash3(a, b, c)
  {
    hide UpdateHash, Bit;
    var x, y := UpdateHash(UpdateHash(UpdateHash(h, a), b), c), Hash3(a, b, c);
    forall i | 0 <= i < HASH_BITS
      ensures Bit(x, i) == Bit(y, i)
    {
      TripleBit(h, a, b, c, i);
      TripleBit(0, a, b, c, i);
    }
    UpdateRange(UpdateHash(UpdateHash(h, a), b), c);
    UpdateRange(UpdateHash(UpdateHash(0, a), b), c);
    SameBits(x, y);
  }

  lemma TripleBit(h: nat, a: byte, b: byte, c: byte, i: nat)
    requires i < HASH_BITS
    ensures Bit(UpdateHash(UpdateHash(UpdateHash(h, a), b), c), i)
            == ((i >= H_SHIFT && ((Less(i, H_SHIFT) >= H_SHIFT && Bit(a, Less(Less(i, H_SHIFT), H_SHIFT)))
                                  != Bit(b, Less(i, H_SHIFT)))) != Bit(c, i))
  {
    hide UpdateHash, Bit;
    var g := UpdateHash(h, a);
    UpdateBit(UpdateHash(g, b), c, i);
    if i >= H_SHIFT {
      UpdateBit(g, b, i - H_SHIFT);
      if i - H_SHIFT >= H_SHIFT {
        UpdateBit(h, a, i - H_SHIFT - H_SHIFT);
      }
    }
  }

  /** Equal hashes of equal first two bytes mean equal third bytes: HASH_BITS is at least 8. */
  lemma ThirdByte(a: byte, b: byte, c: byte, d: byte)
    requires Hash3(a, b, c) == Hash3(a, b, d)
    ensures c == d
  {
    hide UpdateHash, Bit;
    forall i | 0 <= i < HASH_BITS
      ensures Bit(c, i) == Bit(d, i)
    {
      TripleBit(0, a, b, c, i);
      TripleBit(0, a, b, d, i);
    }
    SameBits(c, d);
  }

  // ---- Hashes of positions of the input

  function HashAt(input: seq<byte>, a: nat): nat
    requires a + 2 < |input|
  {
    Hash3(input[a], input[a + 1], input[a + 2])
  }

  /** Position a has hash h, as far as it has three bytes. */
  ghost predicate Hashes(input: seq<byte>, a: nat, h: nat) {
    a + 2 < |input| ==> HashAt(input, a) == h
  }

  ghost predicate SameHash(input: seq<byte>, a: nat, b: nat) {
    a < b && (b + 2 < |input| ==> HashAt(input, a) == HashAt(input, b))
  }

  /** The running key at a: one more byte makes it the hash of position a. */
  ghost predicate Rolling(input: seq<byte>, a: nat, h: nat) {
    a + 1 < |input| ==> forall c: byte :: UpdateHash(h, c) == Hash3(input[a], input[a + 1], c)
  }

  lemma RollOn(input: seq<byte>, a: nat, h: nat)
    requires Rolling(input, a, h) && a + 2 < |input|
    ensures UpdateHash(h, input[a + 2]) == HashAt(input, a)
    ensures Rolling(input, a + 1, UpdateHash(h, input[a + 2]))
  {
    hide UpdateHash;
    var x := UpdateHash(h, input[a + 2]);
    assert x == Hash3(input[a], input[a + 1], input[a + 2]);
    forall c: byte
      ensures UpdateHash(x, c) == Hash3(input[a + 1], input[a + 2], c)
    {
      ForgetOldest(UpdateHash(0, input[a]), input[a + 1], input[a + 2], c);
    }
  }

  lemma RollStart(input: seq<byte>, h: nat)
    requires |input| >= 2
    ensures Rolling(input, 0, UpdateHash(UpdateHash(h, input[0]), input[1]))
  {
    hide UpdateHash;
    forall c: byte
      ensures UpdateHash(UpdateHash(UpdateHash(h, input[0]), input[1]), c) == Hash3(input[0], input[1], c)
    {
      ForgetOldest(h, input[0], input[1], c);
    }
  }

  lemma RollShort(input: seq<byte>, a: nat, h: nat)
    requires |input| <= a + 1
    ensures Rolling(input, a, h)
  {}

  // ---- Chains

  /** Every entry of head is the latest of the first n positions with its hash, or NIL. */
  ghost predicate Heads(head: seq<nat>, input: seq<byte>, base: nat, n: nat) {
    |head| == HASH_SIZE && HeadsLatest(head, input, base, n)
    && forall h :: 0 <= h < HASH_SIZE ==> head[h] == NIL || (head[h] < n && Hashes(input, base + head[h], h))
  }

  /** No position of the window comes after the entry for its hash. */
  ghost predicate HeadsLatest(head: seq<nat>, input: seq<byte>, base: nat, n: nat) {
    |head| == HASH_SIZE
    && forall a: nat :: base <= a < base + n && a + 2 < |input|
                        ==> HashAt(input, a) < HASH_SIZE && a <= base + head[HashAt(input, a)]
  }

  /** Every one of the last WSIZE of the first n positions is linked to the latest earlier one with its hash, or to NIL. */
  ghost predicate Links(prev: seq<nat>, input: seq<byte>, base: nat, n: nat) {
    |prev| == WSIZE && LinksLatest(prev, input, base, n)
    && forall p :: 0 <= p < n && n <= p + WSIZE ==> prev[p % WSIZE] == NIL || SameHash(input, base + prev[p % WSIZE], base + p)
  }

  /** b has three bytes, and a is an earlier position with the same hash. */
  ghost predicate Twin(input: seq<byte>, a: nat, b: nat) {
    a < b && b + 2 < |input| && HashAt(input, a) == HashAt(input, b)
  }

  /** No earlier position with the same hash lies between a position and the one it is linked to. */
  ghost predicate LinksLatest(prev: seq<nat>, input: seq<byte>, base: nat, n: nat) {
    |prev| == WSIZE
    && forall a: nat, b: nat :: base <= a < b < base + n <= b + WSIZE && Twin(input, a, b) ==> a <= base + prev[(b - base) % WSIZE]
  }

  lemma Slot(p: nat, n: nat)
    requires p < n <= p + WSIZE
    ensures n < p + WSIZE ==> p % WSIZE != n % WSIZE
    ensures (n - WSIZE) % WSIZE == n % WSIZE
  {
    if n < p + WSIZE {
      var d := n - p;
      SlotsDiffer(p, d);
    }
  }

  lemma SlotsDiffer(p: nat, d: nat)
    requires 0 < d < WSIZE
    ensures p % WSIZE != (p + d) % WSIZE
  {}

  /** INSERT_STRING at position n with key h. */
  lemma InsertHeads(head: seq<nat>, input: seq<byte>, base: nat, n: nat, h: nat)
    requires Heads(head, input, base, n) && h < HASH_SIZE && Hashes(input, base + n, h)
    ensures Heads(head[h := n], input, base, n + 1)
  {
    hide HashAt;
  }

  lemma InsertLinks(head: seq<nat>, prev: seq<nat>, input: seq<byte>, base: nat, n: nat, h: nat)
    requires Heads(head, input, base, n) && Links(prev, input, base, n) && h < HASH_SIZE && Hashes(input, base + n, h)
    ensures Links(prev[n % WSIZE := head[h]], input, base, n + 1)
  {
    hide HashAt;
    var q := head[h];
    var r := prev[n % WSIZE := q];
    InsertLatest(head, prev, input, base, n, h);
    forall p | 0 <= p < n + 1 && n + 1 <= p + WSIZE
      ensures r[p % WSIZE] == NIL || SameHash(input, base + r[p % WSIZE], base + p)
    {
      if p < n {
        Slot(p, n);
      }
    }
  }

  lemma InsertLatest(head: seq<nat>, prev: seq<nat>, input: seq<byte>, base: nat, n: nat, h: nat)
    requires HeadsLatest(head, input, base, n) && LinksLatest(prev, input, base, n) && h < HASH_SIZE && Hashes(input, base + n, h)
    ensures LinksLatest(prev[n % WSIZE := head[h]], input, base, n + 1)
  {
    hide HashAt;
    var r := prev[n % WSIZE := head[h]];
    forall a: nat, b: nat | base <= a < b < base + n + 1 <= b + WSIZE && Twin(input, a, b)
      ensures a <= base + r[(b - base) % WSIZE]
    {
      if b < base + n {
        Slot(b - base, n);
      }
    }
  }

  function Lowered(m: nat): nat { if m >= WSIZE then m - WSIZE else NIL }

  function AllLowered(s: seq<nat>): (r: seq<nat>)
    ensures |r| == |s| && forall i :: 0 <= i < |s| ==> r[i] == Lowered(s[i])
  {
    seq(|s|, i requires 0 <= i < |s| => Lowered(s[i]))
  }

  /** Moving the window is a change of base. */
  lemma SlideChains(head: seq<nat>, prev: seq<nat>, input: seq<byte>, base: nat, n: nat)
    requires Heads(head, input, base, n) && Links(prev, input, base, n) && n >= WSIZE
    ensures Heads(AllLowered(head), input, base + WSIZE, n - WSIZE) && Links(AllLowered(prev), input, base + WSIZE, n - WSIZE)
  {
    SlideLatest(head, prev, input, base, n);
    SlideHeads(head, input, base, n);
    SlideLinks(prev, input, base, n);
  }

  lemma SlideHeads(head: seq<nat>, input: seq<byte>, base: nat, n: nat)
    requires Heads(head, input, base, n) && n >= WSIZE
    requires HeadsLatest(AllLowered(head), input, base + WSIZE, n - WSIZE)
    ensures Heads(AllLowered(head), input, base + WSIZE, n - WSIZE)
  {
    hide Hashes, HeadsLatest;
  }

  lemma SlideLinks(prev: seq<nat>, input: seq<byte>, base: nat, n: nat)
    requires Links(prev, input, base, n) && n >= WSIZE
    requires LinksLatest(AllLowered(prev), input, base + WSIZE, n - WSIZE)
    ensures Links(AllLowered(prev), input, base + WSIZE, n - WSIZE)
  {
    hide *;
    var r := AllLowered(prev);
    LinksSize(prev, input, base, n);
    LoweredAt(prev);
    forall p | 0 <= p < n - WSIZE && n - WSIZE <= p + WSIZE
      ensures r[p % WSIZE] == NIL || SameHash(input, base + WSIZE + r[p % WSIZE], base + WSIZE + p)
    {
      SameSlot(p);
      LinkOf(prev, input, base, n, p + WSIZE);
    }
    LinksMade(r, input, base + WSIZE, n - WSIZE);
  }

  lemma LoweredAt(s: seq<nat>)
    ensures WSIZE > 0 && NIL == 0 && |AllLowered(s)| == |s|
    ensures forall i :: 0 <= i < |s| ==> AllLowered(s)[i] == if s[i] >= WSIZE then s[i] - WSIZE else NIL
  {}

  lemma LinksSize(prev: seq<nat>, input: seq<byte>, base: nat, n: nat)
    requires Links(prev, input, base, n)
    ensures |prev| == WSIZE
  {}

  lemma LinkOf(prev: seq<nat>, input: seq<byte>, base: nat, n: nat, p: nat)
    requires Links(prev, input, base, n) && p < n <= p + WSIZE
    ensures |prev| == WSIZE && (prev[p % WSIZE] == NIL || SameHash(input, base + prev[p % WSIZE], base + p))
  {}

  lemma LinksMade(prev: seq<nat>, input: seq<byte>, base: nat, n: nat)
    requires |prev| == WSIZE && LinksLatest(prev, input, base, n)
    requires forall p :: 0 <= p < n && n <= p + WSIZE ==> prev[p % WSIZE] == NIL || SameHash(input, base + prev[p % WSIZE], base + p)
    ensures Links(prev, input, base, n)
  {}

  lemma SlideLatest(head: seq<nat>, prev: seq<nat>, input: seq<byte>, base: nat, n: nat)
    requires HeadsLatest(head, input, base, n) && LinksLatest(prev, input, base, n) && n >= WSIZE
    ensures HeadsLatest(AllLowered(head), input, base + WSIZE, n - WSIZE)
    ensures LinksLatest(AllLowered(prev), input, base + WSIZE, n - WSIZE)
  {
    hide HashAt, Twin;
    var r := AllLowered(prev);
    forall a: nat, b: nat | base + WSIZE <= a < b < base + n <= b + WSIZE && Twin(input, a, b)
      ensures a <= base + WSIZE + r[(b - (base + WSIZE)) % WSIZE]
    {
      SameSlot(b - (base + WSIZE));
    }
  }

  lemma SameSlot(p: nat)
    ensures (p + WSIZE) % WSIZE == p % WSIZE
  {}

  /** Following a link from a position in reach. */
  lemma FollowLink(prev: seq<nat>, input: seq<byte>, base: nat, n: nat, p: nat)
    requires Links(prev, input, base, n) && p < n <= p + WSIZE
    ensures |prev| == WSIZE && var q := prev[p % WSIZE];
            (q == NIL || (q < p && SameHash(input, base + q, base + p))) && Latest(input, base, base + p, base + q)
  {
    hide HashAt, Twin;
    LatestLink(prev, input, base, n, p);
  }

  lemma LatestLink(prev: seq<nat>, input: seq<byte>, base: nat, n: nat, p: nat)
    requires LinksLatest(prev, input, base, n) && p < n <= p + WSIZE
    ensures Latest(input, base, base + p, base + prev[p % WSIZE])
  {
    hide HashAt, Twin;
    var b := base + p;
    assert b - base == p;
    forall a: nat | base <= a < b && Twin(input, a, b)
      ensures a <= base + prev[p % WSIZE]
    {
      assert a <= base + prev[(b - base) % WSIZE];
    }
  }

  lemma TwinShared(input: seq<byte>, a: nat, p: nat, b: nat)
    requires SameHash(input, p, b) && Twin(input, a, b) && a < p
    ensures Twin(input, a, p)
  {
    hide HashAt;
  }

  lemma FollowHead(head: seq<nat>, input: seq<byte>, base: nat, n: nat, h: nat)
    requires Heads(head, input, base, n) && h < HASH_SIZE && Hashes(input, base + n, h)
    ensures |head| == HASH_SIZE && (head[h] == NIL || SameHash(input, base + head[h], base + n))
    ensures Latest(input, base, base + n, base + head[h])
  {
    hide HashAt;
  }

  /** No position from base on that comes before b with the same hash comes after q. */
  ghost predicate Latest(input: seq<byte>, base: nat, b: nat, q: nat) {
    forall a: nat :: base <= a < b && Twin(input, a, b) ==> a <= q
  }

  lemma SameHashTransitive(input: seq<byte>, a: nat, b: nat, c: nat)
    requires SameHash(input, a, b) && SameHash(input, b, c)
    ensures SameHash(input, a, c)
  {
    hide HashAt;
  }

  /** Two bytes equal and equal hashes: all three bytes are equal. */
  lemma ThreeBytes(input: seq<byte>, a: nat, b: nat)
    requires SameHash(input, a, b) && b + 2 < |input| && input[a] == input[b] && input[a + 1] == input[b + 1]
    ensures input[a + 2] == input[b + 2]
  {
    hide Hash3;
    ThirdByte(input[a], input[a + 1], input[a + 2], input[b + 2]);
  }

  lemma NoChains(head: seq<nat>, prev: seq<nat>, input: seq<byte>)
    requires |head| == HASH_SIZE && |prev| == WSIZE && forall h :: 0 <= h < HASH_SIZE ==> head[h] == NIL
    ensures Heads(head, input, 0, 0) && Links(prev, input, 0, 0)
  {}
}
