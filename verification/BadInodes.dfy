/** mkfs_minix: finding bad blocks, handing out good ones, and the inode that lists the bad ones. */
module BadInodes {
  import opened Bits
  import opened ZoneMaps

  const BLOCK_SIZE: nat := 1024
  const WORDS: nat := 512
  const MAX_GOOD_BLOCKS: nat := 512
  const TEST_BUFFER_BLOCKS: nat := 16

  // ---- The zones in use, as a list

  /** The members of `use` from x on, in order. */
  function ListFrom(use: seq<bool>, x: nat): (L: seq<nat>)
    ensures forall k :: 0 <= k < |L| ==> x <= L[k] < |use| && use[L[k]]
    ensures forall j, k :: 0 <= j < k < |L| ==> L[j] < L[k]
    decreases |use| - x
  {
    if x >= |use| then [] else (if use[x] then [x] else []) + ListFrom(use, x + 1)
  }

  lemma {:induction false} Listed(use: seq<bool>, x: nat, z: nat)
    requires x <= z < |use| && use[z]
    ensures z in ListFrom(use, x)
    decreases |use| - x
  {
    if x < z { Listed(use, x + 1, z); }
  }

  /** The list has exactly the members. */
  lemma ListExact(use: seq<bool>, x: nat)
    ensures forall z: nat :: z in ListFrom(use, x) <==> x <= z < |use| && use[z]
  {
    forall z: nat | x <= z < |use| && use[z]
      ensures z in ListFrom(use, x)
    {
      Listed(use, x, z);
    }
    forall z: nat | z in ListFrom(use, x)
      ensures x <= z < |use| && use[z]
    {
      var k :| 0 <= k < |ListFrom(use, x)| && ListFrom(use, x)[k] == z;
    }
    hide ListFrom;
  }

  lemma {:induction false} SkipTo(use: seq<bool>, x: nat, z: nat)
    requires x <= z <= |use| && forall i :: x <= i < z ==> !use[i]
    ensures ListFrom(use, x) == ListFrom(use, z)
    decreases z - x
  {
    if x < z {
      SkipTo(use, x + 1, z);
      assert [] + ListFrom(use, x + 1) == ListFrom(use, x + 1);
    }
  }

  lemma ListStep(use: seq<bool>, x: nat)
    ensures x >= |use| ==> ListFrom(use, x) == []
    ensures x < |use| && !use[x] ==> ListFrom(use, x) == ListFrom(use, x + 1)
    ensures x < |use| && use[x]
            ==> var L, T := ListFrom(use, x), ListFrom(use, x + 1);
                |L| == |T| + 1 && L[0] == x && L[1..] == T && forall k :: 1 <= k < |L| ==> L[k] == T[k - 1] && L[k + 1..] == T[k..]
  {
    if x < |use| && !use[x] {
      assert [] + ListFrom(use, x + 1) == ListFrom(use, x + 1);
    }
  }

  lemma NoneListed(use: seq<bool>, x: nat)
    requires forall i :: x <= i < |use| ==> !use[i]
    ensures ListFrom(use, x) == []
  {
    if x < |use| {
      SkipTo(use, x, |use|);
      ListEnd(use);
    }
  }

  lemma ListEnd(use: seq<bool>)
    ensures ListFrom(use, |use|) == []
  {}

  lemma {:induction false} ListMore(use: seq<bool>, x: nat, z: nat)
    requires x <= z < |use| && !use[z] && forall i :: z < i < |use| ==> !use[i]
    ensures ListFrom(use[z := true], x) == ListFrom(use, x) + [z]
    decreases |use| - x
  {
    hide *;
    var u := use[z := true];
    ListStep(use, x);
    ListStep(u, x);
    if x < z {
      ListMore(use, x + 1, z);
      if use[x] {
        Consed(x, ListFrom(use, x), ListFrom(use, x + 1));
        Consed(x, ListFrom(u, x), ListFrom(u, x + 1));
        Assoc([x], ListFrom(use, x + 1), [z]);
      }
    } else {
      NoneListed(use, z);
      NoneListed(u, z + 1);
      Consed(z, ListFrom(u, z), ListFrom(u, z + 1));
    }
  }

  lemma Consed(x: nat, L: seq<nat>, T: seq<nat>)
    requires |L| == |T| + 1 && L[0] == x && L[1..] == T
    ensures L == [x] + T
  {}

  // ---- What the inode's pointers enumerate

  /** How many indirect blocks a file of n blocks has. */
  function IndirectBlocks(n: nat): nat {
    if n <= 7 then 0 else if n <= 7 + WORDS then 1 else 3 + (n - 7 - WORDS - 1) / WORDS
  }

  /** There is room for the indirect blocks of n bad zones, when `taken` of the `total` good zones are in use already. */
  predicate Enough(taken: nat, total: nat, n: nat) {
    n <= 7 + WORDS + WORDS * WORDS && taken + IndirectBlocks(n) < MAX_GOOD_BLOCKS && taken + IndirectBlocks(n) <= total
  }

  /** The pointers of an inode, and the blocks they lead to. */
  datatype Pointers = Pointers(zone: seq<nat>, disk: map<nat, seq<nat>>)

  function WordOf(disk: map<nat, seq<nat>>, blk: nat, i: nat): nat {
    if blk in disk && i < |disk[blk]| then disk[blk][i] else 0
  }

  /** Block n of the file: seven direct pointers, then the single, then the double indirect ones. */
  function FileBlock(p: Pointers, n: nat): nat
    requires |p.zone| == 9
  {
    if n < 7 then p.zone[n]
    else if n < 7 + WORDS then WordOf(p.disk, p.zone[7], n - 7)
    else WordOf(p.disk, WordOf(p.disk, p.zone[8], (n - 7 - WORDS) / WORDS), (n - 7 - WORDS) % WORDS)
  }

  /** Blocks 0 .. n-1 of the file are the first n zones of L. */
  ghost predicate Enumerates(p: Pointers, L: seq<nat>, n: nat) {
    |p.zone| == 9 && n <= |L| && forall k :: 0 <= k < n ==> FileBlock(p, k) == L[k]
  }

  /** The layout in numbers: blocks of 1024 bytes hold 512 zone numbers of two bytes. */
  lemma Layout(p: Pointers, n: nat)
    requires |p.zone| == 9
    ensures BLOCK_SIZE == 1024 == 2 * WORDS && MAX_GOOD_BLOCKS == 512
    ensures n <= 6 ==> FileBlock(p, n) == p.zone[n]
    ensures 7 <= n <= 518 ==> FileBlock(p, n) == WordOf(p.disk, p.zone[7], n - 7)
    ensures n >= 519 ==> FileBlock(p, n) == WordOf(p.disk, WordOf(p.disk, p.zone[8], (n - 519) / 512), (n - 519) % 512)
  {}

  /** The first 7 blocks need no indirect block, the next 512 one; for more there are two and another one for every 512
      begun. With the root directory's block taken, 260615 blocks are the most. */
  lemma IndirectNumbers(n: nat, total: nat)
    ensures IndirectBlocks(n) == if n <= 7 then 0 else if n <= 519 then 1 else 3 + (n - 520) / 512
    ensures total >= 511 ==> (Enough(1, total, n) <==> n <= 260615)
  {}

  /** Indirect block i: the single one, the double one, then those the double one lists. */
  function IndirectBlock(p: Pointers, i: nat): nat
    requires |p.zone| == 9
  {
    if i == 0 then p.zone[7] else if i == 1 then p.zone[8] else WordOf(p.disk, p.zone[8], i - 2)
  }

  lemma FewIndirect(taken: nat, total: nat, n: nat)
    requires taken < MAX_GOOD_BLOCKS && taken <= total
    ensures n <= 7 ==> IndirectBlocks(n) == 0 && Enough(taken, total, n)
    ensures n > 7 && (taken + 1 >= MAX_GOOD_BLOCKS || taken >= total) ==> !Enough(taken, total, n)
    ensures 7 < n <= 7 + WORDS
            ==> IndirectBlocks(n) == 1 && (Enough(taken, total, n) <==> taken + 1 < MAX_GOOD_BLOCKS && taken < total)
  {}

  /** With `used` zones in use there is no room for one more, and one more is needed. */
  lemma NotEnough(taken: nat, total: nat, n: nat, i: nat, used: nat)
    requires n > 7 + WORDS + WORDS * i && used <= taken + i + 2
    ensures used + 1 >= MAX_GOOD_BLOCKS || used >= total ==> !Enough(taken, total, n)
  {
    Quotient(n - 7 - WORDS - 1, i);
  }

  lemma Quotient(n: nat, i: nat)
    requires n >= WORDS * i
    ensures n / WORDS >= i && (n < WORDS * i + WORDS ==> n / WORDS == i)
  {}

  lemma JustEnough(taken: nat, total: nat, n: nat, i: nat, m: nat)
    requires n == 7 + WORDS + WORDS * i + m && 1 <= m <= WORDS && i < WORDS
    ensures IndirectBlocks(n) == i + 3
    ensures taken + i + 3 < MAX_GOOD_BLOCKS && taken + i + 3 <= total ==> Enough(taken, total, n)
  {
    Quotient(n - 7 - WORDS - 1, i);
  }

  lemma TooMany(taken: nat, total: nat, n: nat)
    ensures n > 7 + WORDS + WORDS * WORDS ==> !Enough(taken, total, n)
  {}

  /** A are the first indirect blocks. */
  ghost predicate Indirect(p: Pointers, A: seq<nat>) {
    |p.zone| == 9 && forall i :: 0 <= i < |A| ==> IndirectBlock(p, i) == A[i]
  }

  // ---- Filling the pointers

  /** The inode part way: A are the indirect blocks so far, in the order they were taken; the first is the single
      indirect block, the second the double indirect one, the others those it lists. */
  ghost predicate Filling(p: Pointers, A: seq<nat>, L: seq<nat>, n: nat) {
    |p.zone| == 9 && n <= |L| && n <= 7 + WORDS + WORDS * WORDS
    && (forall i, j :: 0 <= i < j < |A| ==> A[i] < A[j]) && Enumerates(p, L, n)
    && Indirect(p, A) && (n > 7 ==> |A| >= 1) && (n > 7 + WORDS ==> |A| >= 3 && (n - 7 - WORDS - 1) / WORDS + 2 < |A|)
  }

  /** A direct pointer. */
  lemma PutDirect(p: Pointers, L: seq<nat>, n: nat)
    requires Filling(p, [], L, n) && n < 7 && n < |L|
    ensures Filling(p.(zone := p.zone[n := L[n]]), [], L, n + 1)
  {}

  /** block holds the m zones of L from n on. */
  ghost predicate Holds(block: seq<nat>, L: seq<nat>, n: nat, m: nat) {
    |block| == WORDS && m <= WORDS && n + m <= |L| && forall j :: n <= j < n + m ==> block[j - n] == L[j]
  }

  /** The contents of the single indirect block. */
  lemma PutSingle(p: Pointers, A: seq<nat>, L: seq<nat>, block: seq<nat>, m: nat)
    requires Filling(p, A, L, 7) && |A| == 1 && Holds(block, L, 7, m)
    ensures Filling(p.(disk := Put(p.disk, A[0], block)), A, L, 7 + m)
  {}

  lemma OneChanged(disk: map<nat, seq<nat>>, b: nat, block: seq<nat>, x: nat, i: nat)
    ensures WordOf(Put(disk, b, block), x, i) == if x == b then (if i < |block| then block[i] else 0) else WordOf(disk, x, i)
  {}

  /** The contents of the latest block under the double indirect one. */
  lemma PutDouble(p: Pointers, A: seq<nat>, L: seq<nat>, n: nat, block: seq<nat>, m: nat)
    requires Filling(p, A, L, n) && 3 <= |A| <= WORDS + 2 && n == 7 + WORDS + WORDS * (|A| - 3) && Holds(block, L, n, m)
    ensures Filling(p.(disk := Put(p.disk, A[|A| - 1], block)), A, L, n + m)
  {
    var a, last := |A|, A[|A| - 1];
    var d := Put(p.disk, last, block);
    var p' := p.(disk := d);
    LastPlace(m, a - 3);
    assert IndirectBlock(p, 0) == A[0] && IndirectBlock(p, 1) == A[1];
    forall k | 0 <= k < n + m
      ensures FileBlock(p', k) == L[k]
    {
      if k >= 7 + WORDS {
        var j := k - 7 - WORDS;
        var i := j / WORDS;
        PlaceIn(j, a - 3, m);
        assert IndirectBlock(p, i + 2) == A[i + 2];
        OneChanged(p.disk, last, block, p.zone[8], i);
        OneChanged(p.disk, last, block, A[i + 2], j % WORDS);
      } else if k >= 7 {
        OneChanged(p.disk, last, block, p.zone[7], k - 7);
      }
    }
    forall i | 0 <= i < a
      ensures IndirectBlock(p', i) == A[i]
    {
      assert IndirectBlock(p, i) == A[i];
      if i >= 2 { OneChanged(p.disk, last, block, p.zone[8], i - 2); }
    }
  }

  lemma PlaceIn(j: nat, q: nat, m: nat)
    requires j < WORDS * q + m && m <= WORDS
    ensures j / WORDS <= q
    ensures j >= WORDS * q <==> j / WORDS == q
    ensures j / WORDS == q ==> j % WORDS == j - WORDS * q
  {}

  lemma LastPlace(m: nat, q: nat)
    requires m <= WORDS && q < WORDS
    ensures m > 0 ==> (WORDS * q + m - 1) / WORDS == q
    ensures WORDS * q + m <= WORDS * WORDS
  {}

  function Stored(disk: map<nat, seq<nat>>, blk: nat, i: nat, v: nat): (d: map<nat, seq<nat>>)
    requires blk in disk && i < |disk[blk]|
    ensures d.Keys == disk.Keys && |d[blk]| == |disk[blk]|
    ensures forall b, k: nat :: WordOf(d, b, k) == if b == blk && k == i then v else WordOf(disk, b, k)
  {
    var w: seq<nat> := disk[blk][i := v];
    disk[blk := w]
  }

  function Put(disk: map<nat, seq<nat>>, b: nat, w: seq<nat>): (d: map<nat, seq<nat>>)
    ensures b in d && d[b] == w && forall x :: x in disk && x != b ==> x in d && d[x] == disk[x]
  {
    disk[b := w]
  }

  function EmptyBlock(): (w: seq<nat>)
    ensures |w| == WORDS
  {
    seq(WORDS, _ => 0)
  }

  /** All the indirect blocks are whole blocks. */
  ghost predicate Whole(disk: map<nat, seq<nat>>, A: seq<nat>) {
    forall i :: 0 <= i < |A| ==> A[i] in disk && |disk[A[i]]| == WORDS
  }

  function WithEmpty(disk: map<nat, seq<nat>>, blk: nat): (d: map<nat, seq<nat>>)
    ensures blk in d && |d[blk]| == WORDS
    ensures forall b, k: nat :: WordOf(d, b, k) == if b == blk then 0 else WordOf(disk, b, k)
    ensures forall b :: b in disk && b != blk ==> b in d && d[b] == disk[b]
  {
    disk[blk := EmptyBlock()]
  }

  /** An empty block becomes the single indirect one. */
  lemma TakeSingle(p: Pointers, L: seq<nat>, blk: nat)
    requires Filling(p, [], L, 7)
    ensures Filling(Pointers(p.zone[7 := blk], WithEmpty(p.disk, blk)), [blk], L, 7)
  {}

  /** An empty block becomes the double indirect one. */
  lemma TakeDouble(p: Pointers, A: seq<nat>, L: seq<nat>, blk: nat)
    requires Filling(p, A, L, 7 + WORDS) && |A| == 1 && A[0] < blk
    ensures Filling(Pointers(p.zone[8 := blk], WithEmpty(p.disk, blk)), A + [blk], L, 7 + WORDS)
  {}

  /** An empty block comes under the double indirect one. */
  lemma TakeNext(p: Pointers, A: seq<nat>, L: seq<nat>, n: nat, blk: nat)
    requires Filling(p, A, L, n) && |A| >= 2 && A[|A| - 1] < blk && Whole(p.disk, A)
    requires n == 7 + WORDS + WORDS * (|A| - 2) && |A| - 2 < WORDS
    ensures A[1] in WithEmpty(p.disk, blk) && |WithEmpty(p.disk, blk)[A[1]]| == WORDS
    ensures var d := Stored(WithEmpty(p.disk, blk), A[1], |A| - 2, blk);
            Filling(p.(disk := d), A + [blk], L, n) && Whole(d, A + [blk])
  {
    assert A[1] <= A[|A| - 1];
    assert IndirectBlock(p, 0) == A[0] && IndirectBlock(p, 1) == A[1];
    var e := WithEmpty(p.disk, blk);
    var d := Stored(e, A[1], |A| - 2, blk);
    var B := A + [blk];
    forall k | 0 <= k < n
      ensures FileBlock(p.(disk := d), k) == L[k]
    {
      if k >= 7 + WORDS {
        var i := (k - 7 - WORDS) / WORDS;
        assert i < |A| - 2;
        assert IndirectBlock(p, i + 2) == A[i + 2];
      }
    }
    StoredWhole(e, B, A[1], |A| - 2, blk);
  }

  lemma StoredWhole(d: map<nat, seq<nat>>, A: seq<nat>, b: nat, i: nat, v: nat)
    requires Whole(d, A) && b in d && i < |d[b]|
    ensures Whole(Stored(d, b, i, v), A)
  {
    var e := Stored(d, b, i, v);
    forall j | 0 <= j < |A|
      ensures A[j] in e && |e[A[j]]| == WORDS
    {
      OtherBlock(d, b, i, v, A[j]);
    }
  }

  lemma OtherBlock(d: map<nat, seq<nat>>, b: nat, i: nat, v: nat, x: nat)
    requires b in d && i < |d[b]| && x in d
    ensures x in Stored(d, b, i, v) && |Stored(d, b, i, v)[x]| == |d[x]|
  {}

  // ---- mkfs_minix

  /** The zones marked in use, as a list of flags. */
  ghost function Use(m: ZoneMap): (use: seq<bool>)
    requires m.Valid()
    reads m.bytes
    ensures |use| == m.zones && forall x :: 0 <= x < m.zones ==> use[x] == (x >= m.firstZone && m.Marked(x))
  {
    seq(m.zones, x requires 0 <= x < m.zones reads m.bytes => x >= m.firstZone && m.Marked(x))
  }

  /** The zones of the data area that are not marked, as a list of flags. */
  ghost function Free(m: ZoneMap): (free: seq<bool>)
    requires m.Valid()
    reads m.bytes
    ensures |free| == m.zones && forall x :: 0 <= x < m.zones ==> free[x] == (x >= m.firstZone && !m.Marked(x))
  {
    seq(m.zones, x requires 0 <= x < m.zones reads m.bytes => x >= m.firstZone && !m.Marked(x))
  }

  ghost function GoodList(m: ZoneMap): (L: seq<nat>)
    requires m.Valid()
    reads m.bytes
  {
    ListFrom(Free(m), m.firstZone)
  }

  ghost function BadList(m: ZoneMap): (L: seq<nat>)
    requires m.Valid()
    reads m.bytes
  {
    ListFrom(Use(m), m.firstZone)
  }

  /** What follows zone L[k] in the list. */
  lemma {:induction false} ListTail(use: seq<bool>, x: nat, k: nat)
    requires k < |ListFrom(use, x)|
    ensures ListFrom(use, ListFrom(use, x)[k] + 1) == ListFrom(use, x)[k + 1..]
    decreases |use| - x
  {
    hide *;
    ListStep(use, x);
    if x < |use| {
      var rest := ListFrom(use, x + 1);
      if use[x] {
        if k > 0 {
          ListTail(use, x + 1, k - 1);
        }
      } else {
        ListTail(use, x + 1, k);
      }
    }
  }

  class Mkfs {
    const map_: ZoneMap
    /** The blocks that cannot be read. */
    const defective: seq<bool>
    /** good_blocks_table, as far as it is used. */
    var good: seq<nat>
    var disk: map<nat, seq<nat>>
    var badblocks: nat
    var rootZone: nat
    var badZone: seq<nat>
    var badSize: nat

    ghost predicate Valid()
      reads this`good, this`badZone, map_, map_.bytes
    {
      map_.Valid() && |defective| == map_.zones && |badZone| == 9 && GoodOk()
    }

    /** The blocks handed out are the first ones that are not bad. */
    ghost predicate GoodOk()
      requires map_.Valid()
      reads this`good, map_, map_.bytes
    {
      good <= GoodList(map_) && |good| < MAX_GOOD_BLOCKS
    }

    constructor (firstZone: nat, size: nat, defective: seq<bool>)
      requires 1 <= firstZone <= |defective| && |defective| - firstZone + 1 <= 8 * size
      ensures map_.firstZone == firstZone && this.defective == defective && badblocks == 0 && good == [] && fresh(map_) && fresh(map_.bytes)
      ensures map_.Valid() && map_.zones == |defective| && |badZone| == 9 && disk == map[]
    {
      map_ := new ZoneMap(firstZone, |defective|, size);
      this.defective, good, disk, badblocks, rootZone := defective, [], map[], 0, 0;
      badZone, badSize := seq(9, _ => 0), 0;
    }

    /** setup_tables: no zone of the data area is in use. */
    method UnmarkAll()
      requires map_.Valid()
      modifies map_.bytes
      ensures forall x :: map_.firstZone <= x < map_.zones ==> !map_.Marked(x)
    {
      var i := map_.firstZone;
      while i < map_.zones
        invariant map_.firstZone <= i <= map_.zones
        invariant forall x :: map_.firstZone <= x < i ==> !map_.Marked(x)
      {
        map_.Unmark(i);
        i := i + 1;
      }
    }

    /** do_check: how many of the blocks can be read. */
    method DoCheck(tries: nat, current: nat) returns (got: nat)
      requires current + tries <= |defective|
      ensures got <= tries && (forall x :: current <= x < current + got ==> !defective[x])
      ensures got < tries ==> defective[current + got]
    {
      got := 0;
      while got < tries && !defective[current + got]
        invariant got <= tries && forall x :: current <= x < current + got ==> !defective[x]
      {
        got := got + 1;
      }
    }

    /** check_blocks: mark exactly the defective zones; fails when one lies before the data area. */
    method CheckBlocks() returns (ok: bool)
      requires Valid() && badblocks == 0 && good == [] && forall x :: map_.firstZone <= x < map_.zones ==> !map_.Marked(x)
      modifies this`badblocks, map_.bytes
      ensures ok <==> forall x :: 0 <= x < map_.firstZone ==> !defective[x]
      ensures ok ==> Valid() && badblocks == |BadList(map_)|
                     && forall x :: map_.firstZone <= x < map_.zones ==> map_.Marked(x) == defective[x]
    {
      hide ListFrom, ZoneMap.Marked;
      var current: nat := 0;
      NoneListed(Use(map_), map_.firstZone);
      while current < map_.zones
        invariant 0 <= current <= map_.zones && Valid()
        invariant forall x :: 0 <= x < current && x < map_.firstZone ==> !defective[x]
        invariant forall x :: map_.firstZone <= x < map_.zones ==> map_.Marked(x) == (x < current && defective[x])
        invariant badblocks == |BadList(map_)|
        decreases map_.zones - current
      {
        var tries := TEST_BUFFER_BLOCKS;
        if current + tries > map_.zones {
          tries := map_.zones - current;
        }
        var got := DoCheck(tries, current);
        current := current + got;
        if got == tries {
          continue;
        }
        if current < map_.firstZone {
          return false;
        }
        ghost var use := Use(map_);
        map_.Mark(current);
        assert Use(map_) == use[current := true];
        ListMore(use, map_.firstZone, current);
        badblocks := badblocks + 1;
        current := current + 1;
      }
      return true;
    }

    /** get_free_block: the next zone not in use; fails exactly when there are none, or the table is full. */
    method GetFreeBlock() returns (ok: bool, blk: nat)
      requires map_.Valid() && GoodOk()
      modifies this`good
      ensures GoodOk()
      ensures ok <==> |old(good)| + 1 < MAX_GOOD_BLOCKS && |old(good)| < |GoodList(map_)|
      ensures good == if ok then old(good) + [blk] else old(good)
      ensures ok ==> blk == GoodList(map_)[|old(good)|] && blk >= 1 && (old(good) != [] ==> old(good)[|old(good)| - 1] < blk)
    {
      hide ListFrom, Free;
      ghost var free, g := Free(map_), GoodList(map_);
      blk := 0;
      if |good| + 1 >= MAX_GOOD_BLOCKS {
        return false, blk;
      }
      if good != [] {
        blk := good[|good| - 1] + 1;
        assert good[|good| - 1] == g[|good| - 1];
        ListTail(free, map_.firstZone, |good| - 1);
      } else {
        blk := map_.firstZone;
      }
      ghost var from := blk;
      assert ListFrom(free, from) == g[|good|..];
      while blk < map_.zones
        invariant map_.firstZone <= from <= blk <= map_.zones && good == old(good)
        invariant forall i :: from <= i < blk ==> !free[i]
        decreases map_.zones - blk
      {
        var used := map_.InUse(blk);
        if !used {
          break;
        }
        blk := blk + 1;
      }
      SkipTo(free, from, blk);
      if blk >= map_.zones {
        ListEnd(free);
        return false, blk;
      }
      ListHead(free, blk);
      TakeNextOf(good, g, blk);
      good := good + [blk];
      return true, blk;
    }

    /** next: the first bad zone after this one (after none, for 0); 0 when there is none. */
    method Next(zone: nat) returns (z: nat)
      requires map_.Valid() && (zone == 0 || map_.firstZone <= zone < map_.zones)
      ensures var rest := ListFrom(Use(map_), if zone == 0 then map_.firstZone else zone + 1);
              z == if rest == [] then 0 else rest[0]
    {
      hide ListFrom;
      ghost var use := Use(map_);
      var from := if zone == 0 then map_.firstZone else zone + 1;
      z := from;
      while z < map_.zones
        invariant from <= z <= map_.zones && forall i :: from <= i < z ==> !use[i]
        decreases map_.zones - z
      {
        var used := map_.InUse(z);
        if used {
          SkipTo(use, from, z);
          ListHead(use, z);
          return;
        }
        z := z + 1;
      }
      SkipTo(use, from, |use|);
      ListEnd(use);
      return 0;
    }

    method WriteBlock(blk: nat, words: seq<nat>)
      modifies this`disk
      ensures disk == Put(old(disk), blk, words)
    {
      disk := Put(disk, blk, words);
    }

    method MarkGoodBlocks()
      requires Valid()
      modifies map_.bytes
      ensures forall x :: map_.firstZone <= x < map_.zones ==> map_.Marked(x) == (old(map_.Marked(x)) || x in good)
    {
      var i := 0;
      while i < |good|
        invariant 0 <= i <= |good|
        invariant forall x :: map_.firstZone <= x < map_.zones ==> map_.Marked(x) == (old(map_.Marked(x)) || x in good[..i])
      {
        map_.Mark(good[i]);
        assert good[..i + 1] == good[..i] + [good[i]];
        i := i + 1;
      }
      assert good[..i] == good;
    }

    /** make_root_inode: a block for the root directory. */
    method MakeRootInode(rootBlock: seq<nat>) returns (ok: bool)
      requires Valid() && good == []
      modifies this`good, this`rootZone, this`disk
      ensures Valid() && (ok <==> GoodList(map_) != [])
      ensures ok ==> good == [rootZone] && rootZone in disk && disk[rootZone] == rootBlock
    {
      hide ListFrom, Free, Put, Mkfs.GoodOk;
      var blk;
      ok, blk := GetFreeBlock();
      if ok {
        NothingBefore(blk);
        rootZone := blk;
        WriteBlock(rootZone, rootBlock);
      }
    }

    /** The first zone not yet listed, or 0. */
    ghost predicate AtZone(zone: nat, n: nat)
      reads map_, map_.bytes
      requires map_.Valid()
    {
      n <= |BadList(map_)| && zone == if n < |BadList(map_)| then BadList(map_)[n] else 0
    }

    method NextBad(zone: nat, ghost n: nat) returns (z: nat)
      requires map_.Valid() && AtZone(zone, n) && n < |BadList(map_)|
      ensures AtZone(z, n + 1) && (z != 0 <==> n + 1 < |BadList(map_)|)
    {
      hide ListFrom;
      ghost var use := Use(map_);
      ListTail(use, map_.firstZone, n);
      z := Next(zone);
    }

    /** A block of pointers, as far as there are bad zones. */
    method FillBlock(zone0: nat, ghost n: nat) returns (block: seq<nat>, zone: nat, ghost m: nat)
      requires map_.Valid() && AtZone(zone0, n) && n < |BadList(map_)|
      ensures Holds(block, BadList(map_), n, m) && AtZone(zone, n + m) && (zone != 0 <==> n + m < |BadList(map_)|)
      ensures 1 <= m <= WORDS && (zone != 0 ==> m == WORDS)
    {
      hide ListFrom, Use;
      block, zone, m := EmptyBlock(), zone0, 0;
      var j := 0;
      while j < WORDS
        invariant 0 <= j <= WORDS && m == j && Holds(block, BadList(map_), n, m) && AtZone(zone, n + m)
        invariant zone != 0 && n + m < |BadList(map_)|
      {
        block := block[j := zone];
        zone := NextBad(zone, n + m);
        m := m + 1;
        if zone == 0 {
          return;
        }
        j := j + 1;
      }
    }

    /** The seven direct pointers. */
    method DirectZones(zone0: nat) returns (zone: nat, ghost n: nat)
      requires map_.Valid() && |badZone| == 9 && AtZone(zone0, 0) && 0 < |BadList(map_)|
      modifies this`badZone
      ensures |badZone| == 9 && Filling(Pointers(badZone, disk), [], BadList(map_), n) && n <= 7
      ensures AtZone(zone, n) && (zone != 0 <==> n < |BadList(map_)|) && (zone != 0 ==> n == 7)
    {
      hide ListFrom, Use;
      zone, n := zone0, 0;
      var i := 0;
      while i < 7
        invariant 0 <= i <= 7 && n == i && |badZone| == 9 && Filling(Pointers(badZone, disk), [], BadList(map_), n)
        invariant AtZone(zone, n) && zone != 0 && n < |BadList(map_)|
      {
        PutDirect(Pointers(badZone, disk), BadList(map_), n);
        badZone := badZone[i := zone];
        zone := NextBad(zone, n);
        n := n + 1;
        if zone == 0 {
          return;
        }
        i := i + 1;
      }
    }

    lemma GoodFacts()
      requires map_.Valid() && GoodOk()
      ensures |good| < MAX_GOOD_BLOCKS && |good| <= |GoodList(map_)|
    {
      hide ListFrom;
    }

    /** make_bad_inode: an inode whose blocks are the bad zones. A are the indirect blocks it takes. */
    method MakeBadInode() returns (ok: bool, ghost A: seq<nat>)
      requires map_.Valid() && |badZone| == 9 && GoodOk() && badblocks == |BadList(map_)|
      modifies this`good, this`disk, this`badZone, this`badSize
      ensures |badZone| == 9 && GoodOk() && good == old(good) + A && Untouched(old(disk), disk, A)
      ensures ok <==> Enough(|old(good)|, |GoodList(map_)|, badblocks)
      ensures ok ==> |A| == IndirectBlocks(badblocks)
      ensures ok && badblocks > 0
              ==> badSize == BLOCK_SIZE * |BadList(map_)| && Indirect(Pointers(badZone, disk), A)
                  && Enumerates(Pointers(badZone, disk), BadList(map_), |BadList(map_)|)
    {
      hide ListFrom, Use, Free, Filling, Enumerates, Indirect, Holds, Put, WithEmpty, Untouched, Mkfs.GoodOk, EmptyBlock, Doubling,
           Enough, IndirectBlocks;
      A := [];
      ghost var d0, g0 := disk, good;
      NothingAdded(g0);
      UntouchedNone(d0, A);
      GoodFacts();
      ghost var total := |GoodList(map_)|;
      FewIndirect(|g0|, total, badblocks);
      if badblocks == 0 {
        return true, A;
      }
      badSize := badblocks * BLOCK_SIZE;
      ghost var L := BadList(map_);
      FirstBad();
      var zone := Next(0);
      ghost var n;
      zone, n := DirectZones(zone);
      FillingDone(Pointers(badZone, disk), A, L, n);
      if zone == 0 {
        return true, A;
      }
      ok, A := SingleIndirect(zone);
    }

    /** The single indirect block, and the double one if that is not enough. */
    method SingleIndirect(zone0: nat) returns (ok: bool, ghost A: seq<nat>)
      requires map_.Valid() && |badZone| == 9 && GoodOk() && AtZone(zone0, 7) && zone0 != 0 && 7 < |BadList(map_)|
      requires Filling(Pointers(badZone, disk), [], BadList(map_), 7)
      modifies this`good, this`disk, this`badZone
      ensures |badZone| == 9 && GoodOk() && good == old(good) + A && Untouched(old(disk), disk, A)
      ensures ok <==> Enough(|old(good)|, |GoodList(map_)|, |BadList(map_)|)
      ensures ok ==> |A| == IndirectBlocks(|BadList(map_)|) && Indirect(Pointers(badZone, disk), A)
                     && Enumerates(Pointers(badZone, disk), BadList(map_), |BadList(map_)|)
    {
      hide *;
      A := [];
      ghost var d0, g0, L, total := disk, good, BadList(map_), |GoodList(map_)|;
      NothingAdded(g0);
      UntouchedNone(d0, A);
      GoodFacts();
      FewIndirect(|g0|, total, |L|);
      var ind: nat;
      ok, ind := GetFreeBlock();
      if !ok {
        return;
      }
      var indBlock: seq<nat>, zone: nat;
      ghost var m;
      indBlock, zone, m := FillBlock(zone0, 7);
      StartSingle(disk, badZone, L, ind, indBlock, m);
      badZone := badZone[7 := ind];
      A := [ind];
      if zone == 0 {
        AllListed(zone, 7 + m);
        UntouchedPut(d0, ind, indBlock);
        WriteBlock(ind, indBlock);
        FillingDone(Pointers(badZone, disk), A, L, 7 + m);
        return;
      }
      LastAdded(g0, ind);
      ok, A := DoubleIndirect(ind, indBlock, zone, 7 + m, A);
      AllAdded(g0, ind, A);
    }

    lemma AllListed(zone: nat, n: nat)
      requires map_.Valid() && AtZone(zone, n) && n >= |BadList(map_)|
      ensures n == |BadList(map_)|
    {}

    /** The next block under the double indirect one: write the block before it, take it, and fill it. */
    method ListBlock(i: nat, ind0: nat, indBlock0: seq<nat>, dind: nat, dindBlock0: seq<nat>, zone0: nat, ghost n: nat,
                     ghost A0: seq<nat>, ghost d0: map<nat, seq<nat>>)
      returns (ok: bool, ind: nat, indBlock: seq<nat>, dindBlock: seq<nat>, zone: nat, ghost m: nat, ghost A: seq<nat>)
      requires map_.Valid() && |badZone| == 9 && GoodOk() && i < WORDS && |A0| == i + 2 && n == 7 + WORDS + WORDS * i
      requires good != [] && good[|good| - 1] == A0[|A0| - 1] && Untouched(d0, disk, A0)
      requires Doubling(disk, badZone, ind0, indBlock0, dind, dindBlock0, A0, BadList(map_), n)
      requires AtZone(zone0, n) && zone0 != 0 && n < |BadList(map_)|
      modifies this`good, this`disk
      ensures GoodOk() && (ok <==> |old(good)| + 1 < MAX_GOOD_BLOCKS && |old(good)| < |GoodList(map_)|) && Untouched(d0, disk, A)
      ensures if ok then A == A0 + [ind] && good == old(good) + [ind] else A == A0 && good == old(good)
      ensures ok ==> Doubling(disk, badZone, ind, indBlock, dind, dindBlock, A, BadList(map_), n + m)
      ensures ok ==> 1 <= m <= WORDS && AtZone(zone, n + m)
                     && if zone != 0 then m == WORDS && n + m < |BadList(map_)| else n + m == |BadList(map_)|
    {
      hide ListFrom, Use, Free, Filling, Holds, Put, WithEmpty, Doubling, Untouched, Mkfs.GoodOk, EmptyBlock;
      ghost var L := BadList(map_);
      A, dindBlock, indBlock, zone, m := A0, dindBlock0, indBlock0, zone0, 0;
      DoublingSize(disk, badZone, ind0, indBlock0, dind, dindBlock0, A, L, n);
      WriteLast(d0, disk, badZone, ind0, indBlock0, dind, dindBlock0, A, L, n);
      WriteBlock(ind0, indBlock0);
      ghost var d := disk;
      ok, ind := GetFreeBlock();
      if !ok {
        return;
      }
      indBlock, zone, m := FillBlock(zone0, n);
      NextDoubling(d, badZone, ind0, indBlock0, dind, dindBlock0, A, L, n, ind, indBlock, m);
      UntouchedMore(d0, d, A, ind);
      dindBlock := dindBlock[i := ind];
      A := A + [ind];
    }

    /** The double indirect block and those it lists. */
    method DoubleIndirect(ind0: nat, indBlock0: seq<nat>, zone0: nat, ghost n0: nat, ghost A0: seq<nat>) returns (ok: bool, ghost A: seq<nat>)
      requires map_.Valid() && |badZone| == 9 && GoodOk() && AtZone(zone0, n0) && zone0 != 0 && n0 == 7 + WORDS && n0 < |BadList(map_)|
      requires A0 == [ind0] && |indBlock0| == WORDS && good != [] && good[|good| - 1] == ind0
      requires Filling(Pointers(badZone, Put(disk, ind0, indBlock0)), A0, BadList(map_), n0)
      modifies this`good, this`disk, this`badZone
      ensures |badZone| == 9 && GoodOk() && A0 <= A && good == old(good) + A[1..] && Untouched(old(disk), disk, A)
      ensures ok <==> Enough(|old(good)| - 1, |GoodList(map_)|, |BadList(map_)|)
      ensures ok ==> |A| == IndirectBlocks(|BadList(map_)|) && Indirect(Pointers(badZone, disk), A)
                     && Enumerates(Pointers(badZone, disk), BadList(map_), |BadList(map_)|)
    {
      hide *;
      EmptySize();
      A := A0;
      ghost var L, g0, d0 := BadList(map_), good, disk;
      var ind: nat, indBlock: seq<nat>, zone: nat := ind0, indBlock0, zone0;
      ghost var n: nat := n0;
      UntouchedNone(d0, A);
      var dind: nat;
      ok, dind := GetFreeBlock();
      NotEnough(|g0| - 1, |GoodList(map_)|, |L|, 0, |g0|);
      if !ok {
        return;
      }
      StartDoubling(disk, badZone, ind, indBlock, A, L, dind);
      FirstTail(g0, ind0, dind);
      A := A + [dind];
      UntouchedMore(d0, disk, A0, dind);
      badZone := badZone[8 := dind];
      var dindBlock: seq<nat> := EmptyBlock();
      var i: nat := 0;
      while i < WORDS
        invariant 0 <= i <= WORDS && |badZone| == 9 && GoodOk() && |A| == i + 2 && A0 <= A && good == g0 + A[1..] && Untouched(d0, disk, A)
        invariant Doubling(disk, badZone, ind, indBlock, dind, dindBlock, A, L, n) && n == 7 + WORDS + WORDS * i
        invariant AtZone(zone, n) && zone != 0 && n < |L|
        decreases WORDS - i
      {
        LastOf(g0, A);
        NotEnough(|g0| - 1, |GoodList(map_)|, |L|, i, |g0| + i + 1);
        ghost var m, B := 0, A;
        ok, ind, indBlock, dindBlock, zone, m, A := ListBlock(i, ind, indBlock, dind, dindBlock, zone, n, A, d0);
        if !ok {
          return;
        }
        TailGrows(g0, B, ind);
        n := n + m;
        if zone == 0 {
          GoodFacts();
          JustEnough(|g0| - 1, |GoodList(map_)|, |L|, i, m);
          break;
        }
        i := i + 1;
      }
      if zone != 0 {
        TooMany(|g0| - 1, |GoodList(map_)|, |L|);
        return false, A;
      }
      EndDoubling(d0, disk, badZone, ind, indBlock, dind, dindBlock, A, L, n);
      WriteBlock(ind, indBlock);
      WriteBlock(dind, dindBlock);
      ok := true;
    }

    lemma EmptySize()
      ensures |EmptyBlock()| == WORDS && WORDS == 512
    {}

    lemma FirstBad()
      requires map_.Valid() && |BadList(map_)| > 0
      ensures BadList(map_) == ListFrom(Use(map_), map_.firstZone) && BadList(map_)[0] != 0
    {}
  }

  lemma TakeNextOf(good: seq<nat>, g: seq<nat>, blk: nat)
    requires good <= g && g[|good|..] != [] && g[|good|..][0] == blk
    ensures |good| < |g| && g[|good|] == blk && good + [blk] <= g
  {}

  lemma FillingDone(p: Pointers, A: seq<nat>, L: seq<nat>, n: nat)
    requires Filling(p, A, L, n)
    ensures Indirect(p, A) && (n == |L| ==> Enumerates(p, L, |L|))
  {}

  /** Blocks outside A are as they were. */
  ghost predicate Untouched(old_: map<nat, seq<nat>>, disk: map<nat, seq<nat>>, A: seq<nat>) {
    forall b :: b in old_ && b !in A ==> b in disk && disk[b] == old_[b]
  }

  lemma UntouchedNone(d: map<nat, seq<nat>>, A: seq<nat>)
    ensures Untouched(d, d, A)
  {}

  lemma UntouchedPut(d: map<nat, seq<nat>>, b: nat, w: seq<nat>)
    ensures Untouched(d, Put(d, b, w), [b])
  {}

  lemma UntouchedMore(d0: map<nat, seq<nat>>, d: map<nat, seq<nat>>, A: seq<nat>, b: nat)
    requires Untouched(d0, d, A)
    ensures Untouched(d0, d, A + [b])
  {}

  /** The single indirect block with its contents, before it is written. */
  lemma StartSingle(disk: map<nat, seq<nat>>, zone: seq<nat>, L: seq<nat>, ind: nat, block: seq<nat>, m: nat)
    requires Filling(Pointers(zone, disk), [], L, 7) && Holds(block, L, 7, m) && |zone| == 9
    ensures Filling(Pointers(zone[7 := ind], Put(disk, ind, block)), [ind], L, 7 + m) && |block| == WORDS
  {
    hide Filling;
    var p := Pointers(zone[7 := ind], WithEmpty(disk, ind));
    TakeSingle(Pointers(zone, disk), L, ind);
    PutSingle(p, [ind], L, block, m);
    assert Put(WithEmpty(disk, ind), ind, block) == Put(disk, ind, block);
  }

  /** The inode while blocks under the double indirect one are filled: ind and dind are yet to be written. */
  ghost predicate Doubling(disk: map<nat, seq<nat>>, zone: seq<nat>, ind: nat, indBlock: seq<nat>, dind: nat, dindBlock: seq<nat>,
                           A: seq<nat>, L: seq<nat>, n: nat)
  {
    |A| >= 2 && |indBlock| == |dindBlock| == WORDS && dind == A[1] && ind == (if |A| == 2 then A[0] else A[|A| - 1]) && ind != dind
    && Filling(Pointers(zone, Put(Put(disk, ind, indBlock), dind, dindBlock)), A, L, n)
    && Whole(Put(Put(disk, ind, indBlock), dind, dindBlock), A)
  }

  lemma StartDoubling(disk: map<nat, seq<nat>>, zone: seq<nat>, ind: nat, indBlock: seq<nat>, A: seq<nat>, L: seq<nat>, dind: nat)
    requires Filling(Pointers(zone, Put(disk, ind, indBlock)), A, L, 7 + WORDS) && A == [ind] && ind < dind && |indBlock| == WORDS
    requires |zone| == 9
    ensures Doubling(disk, zone[8 := dind], ind, indBlock, dind, EmptyBlock(), A + [dind], L, 7 + WORDS)
  {
    hide Filling;
    TakeDouble(Pointers(zone, Put(disk, ind, indBlock)), A, L, dind);
    assert WithEmpty(Put(disk, ind, indBlock), dind) == Put(Put(disk, ind, indBlock), dind, EmptyBlock());
  }

  /** Writing the filled block changes nothing in what the pointers enumerate. */
  lemma WriteLast(d0: map<nat, seq<nat>>, disk: map<nat, seq<nat>>, zone: seq<nat>, ind: nat, indBlock: seq<nat>, dind: nat, dindBlock: seq<nat>,
                  A: seq<nat>, L: seq<nat>, n: nat)
    requires Doubling(disk, zone, ind, indBlock, dind, dindBlock, A, L, n) && Untouched(d0, disk, A)
    ensures Put(Put(disk, ind, indBlock), ind, indBlock) == Put(disk, ind, indBlock)
    ensures Doubling(Put(disk, ind, indBlock), zone, ind, indBlock, dind, dindBlock, A, L, n) && Untouched(d0, Put(disk, ind, indBlock), A)
  {
    hide Filling;
    assert Put(Put(disk, ind, indBlock), ind, indBlock) == Put(disk, ind, indBlock);
    assert ind in A;
  }

  /** The next block under the double indirect one, with its contents. */
  lemma NextDoubling(disk: map<nat, seq<nat>>, zone: seq<nat>, ind: nat, indBlock: seq<nat>, dind: nat, dindBlock: seq<nat>,
                     A: seq<nat>, L: seq<nat>, n: nat, blk: nat, block: seq<nat>, m: nat)
    requires Doubling(disk, zone, ind, indBlock, dind, dindBlock, A, L, n) && disk == Put(disk, ind, indBlock)
    requires A[|A| - 1] < blk && |A| - 2 < WORDS && n == 7 + WORDS + WORDS * (|A| - 2) && Holds(block, L, n, m)
    ensures |dindBlock| == WORDS && Doubling(disk, zone, blk, block, dind, dindBlock[|A| - 2 := blk], A + [blk], L, n + m)
  {
    DoublingOrder(disk, zone, ind, indBlock, dind, dindBlock, A, L, n);
    hide Filling;
    var D := Put(Put(disk, ind, indBlock), dind, dindBlock);
    TakeNext(Pointers(zone, D), A, L, n, blk);
    var E := Stored(WithEmpty(D, blk), A[1], |A| - 2, blk);
    PutDouble(Pointers(zone, E), A + [blk], L, n, block, m);
    var next: seq<nat> := dindBlock[|A| - 2 := blk];
    NextDisk(disk, dind, dindBlock, |A| - 2, blk, block);
    WholePut(E, A + [blk], blk, block);
  }

  lemma DoublingSize(disk: map<nat, seq<nat>>, zone: seq<nat>, ind: nat, indBlock: seq<nat>, dind: nat, dindBlock: seq<nat>,
                     A: seq<nat>, L: seq<nat>, n: nat)
    requires Doubling(disk, zone, ind, indBlock, dind, dindBlock, A, L, n)
    ensures |dindBlock| == WORDS
  {}

  lemma DoublingOrder(disk: map<nat, seq<nat>>, zone: seq<nat>, ind: nat, indBlock: seq<nat>, dind: nat, dindBlock: seq<nat>,
                      A: seq<nat>, L: seq<nat>, n: nat)
    requires Doubling(disk, zone, ind, indBlock, dind, dindBlock, A, L, n)
    ensures A[1] <= A[|A| - 1]
  {}

  lemma WholePut(d: map<nat, seq<nat>>, A: seq<nat>, b: nat, w: seq<nat>)
    requires Whole(d, A) && |w| == WORDS
    ensures Whole(Put(d, b, w), A)
  {}

  lemma NextDisk(disk: map<nat, seq<nat>>, dind: nat, dindBlock: seq<nat>, i: nat, blk: nat, block: seq<nat>)
    requires |dindBlock| == WORDS && i < WORDS && blk != dind
    ensures var D := Put(disk, dind, dindBlock);
            dind in WithEmpty(D, blk) && |WithEmpty(D, blk)[dind]| == WORDS
            && Put(Stored(WithEmpty(D, blk), dind, i, blk), blk, block) == Put(Put(disk, blk, block), dind, dindBlock[i := blk])
  {}

  lemma EndDoubling(d0: map<nat, seq<nat>>, disk: map<nat, seq<nat>>, zone: seq<nat>, ind: nat, indBlock: seq<nat>, dind: nat, dindBlock: seq<nat>,
                    A: seq<nat>, L: seq<nat>, n: nat)
    requires Doubling(disk, zone, ind, indBlock, dind, dindBlock, A, L, n) && Untouched(d0, disk, A) && n == |L|
    ensures Untouched(d0, Put(Put(disk, ind, indBlock), dind, dindBlock), A)
    ensures Enumerates(Pointers(zone, Put(Put(disk, ind, indBlock), dind, dindBlock)), L, |L|)
    ensures Indirect(Pointers(zone, Put(Put(disk, ind, indBlock), dind, dindBlock)), A)
  {
    hide Filling;
    FillingDone(Pointers(zone, Put(Put(disk, ind, indBlock), dind, dindBlock)), A, L, n);
    assert ind in A && dind in A;
  }

  lemma NothingBefore(x: nat)
    ensures [] + [x] == [x]
  {}

  lemma NothingAdded(g: seq<nat>)
    ensures g + [] == g
  {}

  lemma LastAdded(g: seq<nat>, x: nat)
    ensures (g + [x])[|g + [x]| - 1] == x && g + [x] != []
  {}

  lemma AllAdded(g: seq<nat>, x: nat, A: seq<nat>)
    requires [x] <= A
    ensures g + [x] + A[1..] == g + A
  {
    assert A == [x] + A[1..];
  }

  lemma FirstTail(g: seq<nat>, a: nat, b: nat)
    ensures [a][1..] == [] && g + [] == g && ([a] + [b])[1..] == [b] && [a] <= [a] + [b]
  {}

  lemma TailGrows(g: seq<nat>, A: seq<nat>, x: nat)
    requires |A| >= 1
    ensures g + A[1..] + [x] == g + (A + [x])[1..] && A <= A + [x]
  {
    assert (A + [x])[1..] == A[1..] + [x];
  }

  lemma LastOf(g: seq<nat>, A: seq<nat>)
    requires |A| >= 2
    ensures (g + A[1..])[|g + A[1..]| - 1] == A[|A| - 1]
  {}

  lemma ListHead(use: seq<bool>, z: nat)
    requires z < |use| && use[z]
    ensures ListFrom(use, z) != [] && ListFrom(use, z)[0] == z
  {}

  lemma {:induction false} ListSame(a: seq<bool>, b: seq<bool>, x: nat)
    requires |a| == |b| && forall i :: x <= i < |a| ==> a[i] == b[i]
    ensures ListFrom(a, x) == ListFrom(b, x)
    decreases |a| - x
  {
    if x < |a| { ListSame(a, b, x + 1); }
  }

  /** Flags of the blocks that can be read. */
  function Readable(defective: seq<bool>): (r: seq<bool>)
    ensures |r| == |defective| && forall x :: 0 <= x < |r| ==> r[x] == !defective[x]
  {
    seq(|defective|, x requires 0 <= x < |defective| => !defective[x])
  }

  /** The whole run. It completes exactly when no block before the data area is defective and there are enough good
      zones, and places in the table of good zones, for the root directory and the indirect blocks. Then the inode of the
      bad blocks lists exactly the defective zones, in order; the root directory's block and the indirect blocks are the
      first good zones, in that order and so all different; exactly those are marked as used besides the defective ones;
      and the root directory's block is as it was written. */
  method MakeFilesystem(firstZone: nat, size: nat, defective: seq<bool>, rootBlock: seq<nat>) returns (ok: bool, fs: Mkfs)
    requires 1 <= firstZone <= |defective| && |defective| - firstZone + 1 <= 8 * size
    ensures fs.map_.Valid() && fs.map_.firstZone == firstZone && fs.map_.zones == |defective| && |fs.badZone| == 9
    ensures ok <==> (forall x :: 0 <= x < firstZone ==> !defective[x])
                    && Enough(1, |ListFrom(Readable(defective), firstZone)|, |ListFrom(defective, firstZone)|)
    ensures ok ==> var L, G := ListFrom(defective, firstZone), ListFrom(Readable(defective), firstZone);
                   fs.badblocks == |L| && |fs.good| == 1 + IndirectBlocks(|L|) && fs.good <= G
                   && fs.good[0] == fs.rootZone && fs.rootZone in fs.disk && fs.disk[fs.rootZone] == rootBlock
                   && (L != [] ==> fs.badSize == BLOCK_SIZE * |L| && Enumerates(Pointers(fs.badZone, fs.disk), L, |L|)
                                   && Indirect(Pointers(fs.badZone, fs.disk), fs.good[1..]))
                   && forall x :: firstZone <= x < |defective| ==> fs.map_.Marked(x) == (defective[x] || x in fs.good)
    ensures forall z: nat :: z in ListFrom(defective, firstZone) <==> firstZone <= z < |defective| && defective[z]
    ensures ok ==> Separate(Pointers(fs.badZone, fs.disk), IndirectBlocks(|ListFrom(defective, firstZone)|), fs.rootZone,
                            ListFrom(Readable(defective), firstZone))
  {
    hide Separate, ListFrom, Enumerates, Indirect, Enough, IndirectBlocks, Free, Use, Readable, Untouched, ZoneMap.Marked;
    ListExact(defective, firstZone);
    fs := new Mkfs(firstZone, size, defective);
    fs.UnmarkAll();
    ok := fs.CheckBlocks();
    if !ok {
      return;
    }
    ListSame(Use(fs.map_), defective, firstZone);
    ListSame(Free(fs.map_), Readable(defective), firstZone);
    ghost var L, G := ListFrom(defective, firstZone), ListFrom(Readable(defective), firstZone);
    NeedsRoot(|G|, |L|);
    ok := fs.MakeRootInode(rootBlock);
    if !ok {
      return;
    }
    ghost var d, A := fs.disk, [];
    ok, A := fs.MakeBadInode();
    GoodOrder(fs.map_, fs.good);
    RootKept(d, fs.disk, fs.good, A, fs.rootZone);
    if !ok {
      return;
    }
    assert fs.good[1..] == A;
    if L != [] {
      IndirectDistinct(G, fs.good, Pointers(fs.badZone, fs.disk));
    } else {
      NoneSeparate(Pointers(fs.badZone, fs.disk), fs.rootZone, G);
    }
    fs.MarkGoodBlocks();
  }

  lemma NeedsRoot(total: nat, n: nat)
    ensures Enough(1, total, n) ==> total >= 1
  {}

  lemma GoodOrder(m: ZoneMap, good: seq<nat>)
    requires m.Valid() && good <= GoodList(m)
    ensures forall i, j :: 0 <= i < j < |good| ==> good[i] < good[j]
  {}

  lemma RootKept(d: map<nat, seq<nat>>, d': map<nat, seq<nat>>, good: seq<nat>, A: seq<nat>, root: nat)
    requires Untouched(d, d', A) && good == [root] + A && root in d && forall i, j :: 0 <= i < j < |good| ==> good[i] < good[j]
    ensures root in d' && d'[root] == d[root]
  {
    assert forall i :: 0 <= i < |A| ==> A[i] == good[i + 1] && good[0] < good[i + 1];
  }

  /** The first n indirect blocks are good zones, different from each other and from the root directory's block. */
  ghost predicate Separate(p: Pointers, n: nat, root: nat, G: seq<nat>)
    requires |p.zone| == 9
  {
    (forall i: nat :: i < n ==> IndirectBlock(p, i) in G && IndirectBlock(p, i) != root)
    && forall i: nat, j: nat :: i < j < n ==> IndirectBlock(p, i) != IndirectBlock(p, j)
  }

  lemma NoneSeparate(p: Pointers, root: nat, G: seq<nat>)
    requires |p.zone| == 9
    ensures IndirectBlocks(0) == 0 && Separate(p, 0, root, G)
  {}

  lemma IndirectDistinct(G: seq<nat>, good: seq<nat>, p: Pointers)
    requires good <= G && good != [] && Indirect(p, good[1..]) && forall i, j :: 0 <= i < j < |G| ==> G[i] < G[j]
    ensures Separate(p, |good| - 1, good[0], G)
  {
    hide IndirectBlock;
    var A := good[1..];
    assert forall i :: 0 <= i < |A| ==> A[i] == G[i + 1] && IndirectBlock(p, i) == A[i];
  }
}
