/** The decompressor's circular window: window, outcnt and flush_window, and the copy loop of inflate_codes. */
module OutputWindows {
  import opened Bits
  import opened Lz77

  /** Cells from w on still show the previous lap of the window; the first w cells are the current lap. */
  ghost predicate Shows(cells: seq<byte>, w: nat, written: seq<byte>) {
    |cells| == WSIZE && w < WSIZE && |written| % WSIZE == 0
    && (|written| >= WSIZE ==> forall i :: w <= i < WSIZE ==> cells[i] == written[|written| - WSIZE + i])
  }

  function Position(w: int, dist: int): nat { (w - dist) % WSIZE }

  /** The cell that holds the byte at distance dist. */
  lemma CellAtDistance(cells: seq<byte>, w: nat, written: seq<byte>, dist: nat)
    requires Shows(cells, w, written) && 1 <= dist <= WSIZE && dist <= |written| + w
    ensures var out := written + cells[..w];
            cells[Position(w, dist)] == out[|out| - dist]
    ensures Position(w, dist) == if dist <= w then w - dist else w + WSIZE - dist
  {
    if dist > w {
      assert |written| >= WSIZE by { LapLength(|written|); }
      var i := w + WSIZE - dist;
      assert cells[i] == written[|written| - WSIZE + i];
    }
  }

  lemma LapLength(n: nat)
    requires n % WSIZE == 0 && n > 0
    ensures n >= WSIZE
  {}

  lemma LapBefore(n: nat)
    ensures n % WSIZE == 0 ==> n == 0 || n >= WSIZE
  {}

  /** Appending one byte. */
  lemma AppendCell(cells: seq<byte>, w: nat, written: seq<byte>, c: byte)
    requires Shows(cells, w, written)
    ensures var cells' := cells[w := c];
            written + cells'[..w + 1] == written + cells[..w] + [c]
            && (w + 1 < WSIZE ==> Shows(cells', w + 1, written))
            && (w + 1 == WSIZE ==> Shows(cells', 0, written + cells'[..w + 1]))
  {
    var cells' := cells[w := c];
    assert cells'[..w + 1] == cells[..w] + [c];
  }

  /** e cells from w on were set from the e cells from d on: from those the window held before when they
      lie at or above w, else from those it holds now. */
  ghost predicate Copied(cells: seq<byte>, cells': seq<byte>, w: nat, d: nat, e: nat) {
    |cells| == |cells'| == WSIZE && w + e <= WSIZE && d + e <= WSIZE
    && (forall i :: 0 <= i < w || w + e <= i < WSIZE ==> cells'[i] == cells[i])
    && (forall i :: w <= i < w + e ==> cells'[i] == if d >= w then cells[i - w + d] else cells'[i - w + d])
  }

  /** One chunk of the copy loop appends e bytes at distance dist. */
  lemma ChunkCopies(cells: seq<byte>, cells': seq<byte>, w: nat, written: seq<byte>, dist: nat, e: nat)
    requires Shows(cells, w, written) && 1 <= dist <= WSIZE && dist <= |written| + w
    requires Copied(cells, cells', w, Position(w, dist), e)
    ensures written + cells'[..w + e] == CopyBytes(written + cells[..w], dist, e)
  {
    hide CopyBytes, Position;
    var out, r := written + cells[..w], written + cells'[..w + e];
    var d := Position(w, dist);
    CellAtDistance(cells, w, written, dist);
    forall i | |out| <= i < |r|
      ensures r[i] == r[i - dist]
    {
      var at := i - |written|;
      assert r[i] == cells'[at];
      var from := at - w + d;
      if dist > w {
        LapBefore(|written|);
        assert cells[from] == written[|written| - WSIZE + from];
      } else {
        assert r[i - dist] == cells'[from];
      }
    }
    assert out <= r;
    CopyIs(out, dist, e, r);
  }

  lemma ChunkShows(cells: seq<byte>, cells': seq<byte>, w: nat, written: seq<byte>, d: nat, e: nat)
    requires Shows(cells, w, written) && Copied(cells, cells', w, d, e)
    ensures w + e < WSIZE ==> Shows(cells', w + e, written)
    ensures w + e == WSIZE ==> Shows(cells', 0, written + cells'[..WSIZE])
  {}

  /** Moving on by e cells, around the end of the window or not. */
  lemma NextPosition(w: nat, dist: nat, e: nat)
    requires w + e <= WSIZE
    ensures (Position(w, dist) + e) % WSIZE == Position(if w + e == WSIZE then 0 else w + e, dist)
  {}

  lemma StartPosition(w: nat, dist: nat)
    ensures (w - dist) % WSIZE == Position(w, dist)
  {}

  lemma CopyNone(out: seq<byte>, dist: nat)
    requires 1 <= dist <= |out|
    ensures CopyBytes(out, dist, 0) == out
  {}

  class OutputWindow {
    const window: array<byte>
    var outcnt: nat
    var written: seq<byte>

    ghost predicate Valid()
      reads this, window
    {
      window.Length == WSIZE && Shows(window[..], outcnt, written)
    }

    /** All bytes decompressed so far: those flushed and those still in the window. */
    ghost function Output(): (s: seq<byte>)
      reads this, window
      requires Valid()
    {
      written + window[..outcnt]
    }

    constructor ()
      ensures Valid() && Output() == [] && fresh(window) && outcnt == 0 && written == []
    {
      window := new byte[WSIZE](_ => 0);
      outcnt, written := 0, [];
    }

    /** flush_window: write out window[0..outcnt-1]. */
    method Flush()
      requires window.Length == WSIZE && outcnt <= WSIZE
      modifies this
      ensures written == old(written) + window[..old(outcnt)] && outcnt == 0
    {
      written := written + window[..outcnt];
      outcnt := 0;
    }

    /** Store one byte; a full window is flushed. */
    method Put(c: byte)
      requires Valid()
      modifies this, window
      ensures Valid() && Output() == old(Output()) + [c]
    {
      AppendCell(window[..], outcnt, written, c);
      ghost var cells := window[..];
      window[outcnt] := c;
      assert window[..] == cells[outcnt := c];
      outcnt := outcnt + 1;
      if outcnt == WSIZE {
        Flush();
      }
    }

    /** memcpy(window + w, window + d, e), every source cell read before any is written. */
    method MoveCells(d: nat, e: nat)
      requires window.Length == WSIZE && outcnt + e <= WSIZE && d + e <= WSIZE && (d > outcnt || outcnt - d >= e)
      modifies this`outcnt, window
      ensures outcnt == old(outcnt) + e
      ensures Copied(old(window[..]), window[..], old(outcnt), d, e)
    {
      var w := outcnt;
      forall j | 0 <= j < e {
        window[w + j] := window[d + j];
      }
      outcnt := w + e;
    }

    /** The overlapping case: one byte at a time. */
    method MoveSlowly(d0: nat, e: nat)
      requires window.Length == WSIZE && outcnt + e <= WSIZE && d0 <= outcnt
      modifies this`outcnt, window
      ensures outcnt == old(outcnt) + e
      ensures Copied(old(window[..]), window[..], old(outcnt), d0, e)
    {
      ghost var w0 := outcnt;
      var d, left := d0, e;
      while left != 0
        invariant 0 <= left <= e && outcnt == w0 + e - left && d == d0 + e - left
        invariant forall i :: 0 <= i < w0 || outcnt <= i < WSIZE ==> window[i] == old(window[i])
        invariant forall i :: w0 <= i < outcnt
                              ==> window[i] == if d0 >= w0 then old(window[i - w0 + d0]) else window[i - w0 + d0]
      {
        window[outcnt] := window[d];
        outcnt := outcnt + 1;
        d := d + 1;
        left := left - 1;
      }
    }

    /** One round of the copy loop: as many bytes as fit before the end of the window on either side. */
    method CopyChunk(d: nat, n: nat) returns (e: nat)
      requires Valid() && d < WSIZE
      modifies this, window
      ensures Valid() && e <= n && (n > 0 ==> e > 0)
      ensures old(outcnt) + e <= WSIZE && outcnt == (if old(outcnt) + e == WSIZE then 0 else old(outcnt) + e)
      ensures forall dist :: 1 <= dist <= WSIZE && dist <= |old(Output())| && d == Position(old(outcnt), dist)
                             ==> Output() == CopyBytes(old(Output()), dist, e)
    {
      ghost var cells, w, before := window[..], outcnt, written;
      e := WSIZE - (if d > outcnt then d else outcnt);
      if e > n {
        e := n;
      }
      if d > outcnt || outcnt - d >= e {
        MoveCells(d, e);
      } else {
        MoveSlowly(d, e);
      }
      ChunkShows(cells, window[..], w, before, d, e);
      forall dist | 1 <= dist <= WSIZE && dist <= |before| + w && d == Position(w, dist)
        ensures before + window[..w + e] == CopyBytes(before + cells[..w], dist, e)
      {
        ChunkCopies(cells, window[..], w, before, dist, e);
      }
      if outcnt == WSIZE {
        Flush();
      }
    }

    /** The copy loop of inflate_codes: n bytes from distance dist, in chunks. */
    method CopyMatch(n0: nat, dist: nat)
      requires Valid()
      modifies this, window
      ensures Valid()
      ensures 1 <= dist <= WSIZE && dist <= |old(Output())| ==> Output() == CopyBytes(old(Output()), dist, n0)
    {
      hide CopyBytes, Shows, Position;
      ghost var out := Output();
      StartPosition(outcnt, dist);
      if 1 <= dist <= |out| {
        CopyNone(out, dist);
      }
      var n := n0;
      var d: int := outcnt - dist;
      while true
        invariant Valid() && 0 <= n <= n0 && d % WSIZE == Position(outcnt, dist)
        invariant 1 <= dist <= WSIZE && dist <= |out| ==> Output() == CopyBytes(out, dist, n0 - n)
        decreases n
      {
        d := d % WSIZE;
        ghost var w := outcnt;
        var e := CopyChunk(d, n);
        if 1 <= dist <= |out| {
          CopyAdd(out, dist, n0 - n, e);
        }
        NextPosition(w, dist, e);
        d := d + e;
        n := n - e;
        if n == 0 {
          break;
        }
      }
    }
  }
}
