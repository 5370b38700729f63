/** The compressor: lm_init, fill_window, longest_match and the lazy parse of deflate. */
module Deflating {
  import opened Options
  import opened Bits
  import opened Lz77
  import opened Rfc1951
  import opened Tokens
  import opened Blocks
  import opened TallyBuffers
  import opened BlockOutput
  import opened HashChains
  import opened Parsing
  import opened LazyParsing

  /** The first `end` cells of the window show the input from base on. */
  ghost predicate Shown(window: seq<byte>, input: seq<byte>, base: nat, end: nat) {
    end <= |window| && base + end <= |input| && forall i :: 0 <= i < end ==> window[i] == input[base + i]
  }

  lemma ShownSlide(window: seq<byte>, window': seq<byte>, input: seq<byte>, base: nat, end: nat)
    requires Shown(window, input, base, end) && WSIZE <= end <= 2 * WSIZE && |window| == |window'|
    requires forall i :: 0 <= i < WSIZE && i + WSIZE < |window| ==> window'[i] == window[i + WSIZE]
    ensures Shown(window', input, base + WSIZE, end - WSIZE)
  {}

  lemma ShownMore(window: seq<byte>, window': seq<byte>, input: seq<byte>, base: nat, end: nat, n: nat)
    requires Shown(window, input, base, end) && |window| == |window'| && end + n <= |window| && base + end + n <= |input|
    requires forall i :: 0 <= i < end ==> window'[i] == window[i]
    requires forall i :: end <= i < end + n ==> window'[i] == input[base + i]
    ensures Shown(window', input, base, end + n)
  {}

  class Deflater {
    const input: seq<byte>
    const window: array<byte>
    const prev: array<nat>
    const head: array<nat>
    const bw: BlockWriter
    /** At most so many bytes each next call of read gives. */
    var portions: seq<nat>
    var bytesRead: nat
    var insH: nat
    var strstart: nat
    var matchStart: int
    var eofile: bool
    var lookahead: nat
    var blockStart: int
    var prevLength: nat
    /** window[0] is this byte of the input. */
    ghost var base: nat
    /** The searches so far, one for each token, and one for the string that is undecided. */
    ghost var trace: seq<Search>

    ghost predicate Shape() {
      window.Length == 2 * WSIZE + MAX_MATCH && prev.Length == WSIZE && head.Length == HASH_SIZE && prev != head
      && this !in bw.Repr() && window !in bw.Repr() && prev !in bw.Repr() && head !in bw.Repr()
    }

    ghost predicate Windowed()
      reads this`strstart, this`lookahead, this`base, this`bytesRead, this`eofile, this`blockStart, window
    {
      Shape() && strstart + lookahead <= 2 * WSIZE && base + strstart + lookahead == bytesRead <= |input|
      && Shown(window[..], input, base, strstart + lookahead) && (eofile ==> bytesRead == |input|)
      && blockStart <= strstart && base + blockStart >= 0 && (base == 0 || strstart >= MAX_DIST)
    }

    /** The first n positions of the window are in the hash chains. */
    ghost predicate Chained(n: nat)
      reads this`base, prev, head
    {
      Heads(head[..], input, base, n) && Links(prev[..], input, base, n)
    }

    ghost predicate Keyed(n: nat)
      reads this`base, this`insH
    {
      Rolling(input, base + n, insH)
    }

    // ---- fill_window

    /** read_buf: the next bytes of the input, possibly fewer than asked for; none only at its end. */
    method ReadBuf(off: nat, size: nat) returns (n: nat)
      requires Shape() && 1 <= size && off + size <= window.Length && bytesRead <= |input|
      modifies this`bytesRead, this`portions, window
      ensures n <= size && bytesRead == old(bytesRead) + n <= |input| && (n == 0 <==> old(bytesRead) == |input|)
      ensures forall i :: off <= i < off + n ==> window[i] == input[i - off + old(bytesRead)]
      ensures forall i :: 0 <= i < off ==> window[i] == old(window[i])
    {
      n := if size < |input| - bytesRead then size else |input| - bytesRead;
      if portions != [] {
        if 1 <= portions[0] < n {
          n := portions[0];
        }
        portions := portions[1..];
      }
      var i: nat := 0;
      while i < n
        invariant 0 <= i <= n && bytesRead == old(bytesRead)
        invariant forall j :: off <= j < off + i ==> window[j] == input[j - off + bytesRead]
        invariant forall j :: 0 <= j < off ==> window[j] == old(window[j])
      {
        window[off + i] := input[bytesRead + i];
        i := i + 1;
      }
      bytesRead := bytesRead + n;
    }

    method LowerAll(a: array<nat>)
      modifies a
      ensures a[..] == AllLowered(old(a[..]))
    {
      var n := 0;
      while n < a.Length
        invariant 0 <= n <= a.Length
        invariant forall i :: 0 <= i < n ==> a[i] == Lowered(old(a[i]))
        invariant forall i :: n <= i < a.Length ==> a[i] == old(a[i])
      {
        var m := a[n];
        a[n] := if m >= WSIZE then m - WSIZE else NIL;
        n := n + 1;
      }
    }

    /** Move the upper half of the window to the lower one. */
    method Slide()
      requires Windowed() && Chained(strstart) && strstart >= WSIZE + MAX_DIST
      modifies this`matchStart, this`strstart, this`blockStart, this`base, window, prev, head
      ensures Windowed() && Chained(strstart)
      ensures base == old(base) + WSIZE && strstart == old(strstart) - WSIZE && matchStart == old(matchStart) - WSIZE
      ensures blockStart == old(blockStart) - WSIZE
    {
      hide Heads, Links, Shown;
      ghost var w: seq<byte>, h: seq<nat>, p: seq<nat> := window[..], head[..], prev[..];
      SlideChains(head[..], prev[..], input, base, strstart);
      forall i | 0 <= i < WSIZE {
        window[i] := window[i + WSIZE];
      }
      ShownSlide(w, window[..], input, base, strstart + lookahead);
      matchStart := matchStart - WSIZE;
      strstart := strstart - WSIZE;
      blockStart := blockStart - WSIZE;
      assert head[..] == h && prev[..] == p;
      LowerAll(head);
      LowerAll(prev);
      assert head[..] == AllLowered(h) && prev[..] == AllLowered(p);
      base := base + WSIZE;
    }

    /** Fill the window when the lookahead becomes insufficient: at least one byte is read, or eofile is set. */
    method FillWindow()
      requires Windowed() && Chained(strstart) && lookahead < MIN_LOOKAHEAD && !eofile
      modifies this`matchStart, this`strstart, this`blockStart, this`base, this`lookahead, this`eofile, this`bytesRead,
               this`portions, window, prev, head
      ensures Windowed() && Chained(strstart) && base + strstart == old(base + strstart)
      ensures base + matchStart == old(base + matchStart) && base + blockStart == old(base + blockStart)
      ensures lookahead >= old(lookahead) && bytesRead >= old(bytesRead) && (eofile || bytesRead > old(bytesRead))
      ensures old(strstart) >= 1 ==> strstart >= 1
    {
      hide Heads, Links, Shown;
      var more := 2 * WSIZE - lookahead - strstart;
      if strstart >= WSIZE + MAX_DIST {
        Slide();
        more := more + WSIZE;
      }
      ghost var w: seq<byte>, end := window[..], strstart + lookahead;
      var n := ReadBuf(strstart + lookahead, more);
      ShownMore(w, window[..], input, base, end, n);
      if n == 0 {
        eofile := true;
      } else {
        lookahead := lookahead + n;
      }
    }

    // ---- INSERT_STRING

    method InsertString(s: nat) returns (hashHead: nat)
      requires Shape() && Chained(s) && Keyed(s) && s + 2 < window.Length
      requires base + s + 2 < |input| ==> window[s + 2] == input[base + s + 2]
      modifies this`insH, prev, head
      ensures Chained(s + 1) && Keyed(s + 1) && (hashHead == NIL || SameHash(input, base + hashHead, base + s))
      ensures Latest(input, base, base + s, base + hashHead)
    {
      hide Latest, Heads, Links, Hashes, HashAt, UpdateHash, Rolling, Hash3;
      if base + s + 2 < |input| {
        RollOn(input, base + s, insH);
        HashesAt(input, base + s);
      } else {
        HashesShort(input, base + s, UpdateHash(insH, window[s + 2]));
        RollShort(input, base + s + 1, UpdateHash(insH, window[s + 2]));
      }
      UpdateRange(insH, window[s + 2]);
      insH := UpdateHash(insH, window[s + 2]);
      FollowHead(head[..], input, base, s, insH);
      InsertHeads(head[..], input, base, s, insH);
      InsertLinks(head[..], prev[..], input, base, s, insH);
      ghost var h: seq<nat>, p: seq<nat> := head[..], prev[..];
      hashHead := head[insH];
      prev[s % WSIZE] := hashHead;
      head[insH] := s;
      assert head[..] == h[insH := s] && prev[..] == p[s % WSIZE := hashHead];
    }

    // ---- longest_match

    /** The comparison loop: eight bytes at a time from the fourth on. */
    method ScanMatch(curMatch: nat) returns (len: nat)
      requires Shape() && curMatch < strstart && strstart + MAX_MATCH < window.Length
      ensures 3 <= len <= MAX_MATCH
      ensures forall i :: strstart + 3 <= i < strstart + len ==> window[i] == window[i - (strstart - curMatch)]
      ensures len == MAX_MATCH || window[curMatch + len] != window[strstart + len]
    {
      var scan := 2;
      while true
        invariant 2 <= scan < MAX_MATCH && (scan - 2) % 8 == 0
        invariant forall i :: strstart + 3 <= i <= strstart + scan ==> window[i] == window[i - (strstart - curMatch)]
        decreases MAX_MATCH - scan
      {
        ghost var start := scan;
        var equal, n := true, 0;
        while equal && n < 8
          invariant 0 <= n <= 8 && scan == start + n && (n == 0 ==> equal)
          invariant forall i :: strstart + 3 <= i < strstart + scan ==> window[i] == window[i - (strstart - curMatch)]
          invariant equal ==> scan == 2 || window[curMatch + scan] == window[strstart + scan]
          invariant !equal ==> window[curMatch + scan] != window[strstart + scan]
        {
          scan := scan + 1;
          equal := window[strstart + scan] == window[curMatch + scan];
          n := n + 1;
        }
        if !(equal && scan < MAX_MATCH) {
          return scan;
        }
      }
    }

    /** What is known of a match that was found: it lies in reach, and its bytes are equal as far as there are any. */
    ghost predicate Found(ms: int, len: nat)
      reads this`strstart, this`base, this`lookahead
    {
      0 < ms < strstart && strstart - ms <= MAX_DIST
      && Matches(input, base + ms, base + strstart, if len < lookahead then len else lookahead)
    }

    /** The length of the match at curMatch, or 0 when it cannot exceed bestLen or is less than 2. */
    method TryMatch(curMatch: nat, bestLen: nat, scanEnd1: byte, scanEnd: byte) returns (len: nat)
      requires Windowed() && lookahead > 0 && 0 < curMatch < strstart && strstart - curMatch <= MAX_DIST
      requires SameHash(input, base + curMatch, base + strstart) && 1 <= bestLen < MAX_MATCH
      requires strstart + MAX_MATCH < window.Length && scanEnd1 == window[strstart + bestLen - 1] && scanEnd == window[strstart + bestLen]
      ensures len <= MAX_MATCH && (len > bestLen ==> Found(curMatch, len))
      ensures NoLonger(input, base + curMatch, base + strstart, lookahead, if len > bestLen then len else bestLen)
    {
      hide SameHash, Matches, NoLonger, Shown;
      if window[curMatch + bestLen] != scanEnd || window[curMatch + bestLen - 1] != scanEnd1
         || window[curMatch] != window[strstart] || window[curMatch + 1] != window[strstart + 1] {
        var i := if window[curMatch + bestLen] != scanEnd then bestLen else if window[curMatch + bestLen - 1] != scanEnd1 then bestLen - 1
                 else if window[curMatch] != window[strstart] then 0 else 1;
        EndsAt(window[..], input, base, curMatch, strstart, lookahead, i, bestLen);
        return 0;
      }
      len := ScanMatch(curMatch);
      EndsAt(window[..], input, base, curMatch, strstart, lookahead, len, if len > bestLen then len else bestLen);
      MatchFound(window[..], input, base, curMatch, strstart, lookahead, len);
    }

    lemma WindowFacts()
      requires Windowed()
      ensures window.Length == 2 * WSIZE + MAX_MATCH && prev.Length == WSIZE && head.Length == HASH_SIZE && prev != head
      ensures strstart + lookahead <= 2 * WSIZE && base + strstart + lookahead == bytesRead <= |input|
      ensures Shape() && Shown(window[..], input, base, strstart + lookahead) && (eofile ==> bytesRead == |input|)
      ensures blockStart <= strstart && base + blockStart >= 0 && (base == 0 || strstart >= MAX_DIST)
    {
      hide Shown;
    }

    lemma LimitIs()
      ensures Limit() == if strstart > MAX_DIST then strstart - MAX_DIST else NIL
    {}

    /** Takes the match at curMatch if it is longer than the best so far. */
    method Improve(curMatch: nat, bestLen: nat, scanEnd1: byte, scanEnd: byte) returns (len: nat)
      requires Windowed() && lookahead > 0 && 0 < curMatch < strstart && strstart - curMatch <= MAX_DIST
      requires SameHash(input, base + curMatch, base + strstart) && 1 <= bestLen < MAX_MATCH
      requires strstart + MAX_MATCH < window.Length && scanEnd1 == window[strstart + bestLen - 1] && scanEnd == window[strstart + bestLen]
      requires Searched(input, base + curMatch + 1, base + strstart, lookahead, bestLen)
      modifies this`matchStart
      ensures bestLen <= len <= MAX_MATCH && if len == bestLen then matchStart == old(matchStart) else Found(matchStart, len)
      ensures Searched(input, base + curMatch, base + strstart, lookahead, len)
      ensures Longest(input, base + curMatch, base + strstart, lookahead, len)
      ensures len > bestLen ==> matchStart == curMatch && Longest(input, base + curMatch + 1, base + strstart, lookahead, len - 1)
    {
      hide SameHash, Matches, Shown, NoLonger, Searched, Longest, Deflater.Found;
      SearchedAll(input, base + curMatch + 1, base + strstart, lookahead, bestLen);
      len := TryMatch(curMatch, bestLen, scanEnd1, scanEnd);
      if len > bestLen {
        matchStart := curMatch;
        LongestMore(input, base + curMatch + 1, base + strstart, lookahead, bestLen, len - 1);
      } else {
        len := bestLen;
      }
      SearchedMore(input, base + curMatch + 1, base + curMatch, base + strstart, lookahead, bestLen, len);
      SearchedAll(input, base + curMatch, base + strstart, lookahead, len);
    }

    /** Where the search ends: the farthest position in reach. */
    function Limit(): nat
      reads this`strstart
    {
      if strstart > MAX_DIST then strstart - MAX_DIST else NIL
    }

    /** Follows the chain from curMatch0. From `low` on, no match is longer than the result, and no later one is as long. The
        search goes on until the chain is out of reach, as many positions have been looked at as there may be, or there
        is a match of the greatest length. */
    method LongestMatch(curMatch0: nat) returns (bestLen: nat, ghost low: nat)
      requires Windowed() && Chained(strstart + 1) && curMatch0 != NIL && lookahead > 0
      requires SameHash(input, base + curMatch0, base + strstart) && strstart - curMatch0 <= MAX_DIST
      requires 1 <= prevLength < MAX_LAZY && Latest(input, base, base + strstart, base + curMatch0)
      modifies this`matchStart
      ensures prevLength <= bestLen <= MAX_MATCH && low < base + strstart
      ensures Longest(input, low, base + strstart, lookahead, bestLen)
      ensures lookahead >= MIN_MATCH
              ==> |Twins(input, low, base + strstart)| <= Tries(prevLength)
                  && (low <= base + Limit() + 1 || |Twins(input, low, base + strstart)| == Tries(prevLength) || bestLen >= MAX_MATCH)
      ensures if bestLen == prevLength then matchStart == old(matchStart) else Foremost(low, bestLen)
    {
      hide *;
      Settings(prevLength);
      WindowFacts();
      LimitIs();
      ghost var tries: nat := 0;
      ghost var b := base + strstart;
      var chainLength := MAX_CHAIN;
      var curMatch := curMatch0;
      bestLen := prevLength;
      var limit: nat := if strstart > MAX_DIST then strstart - MAX_DIST else NIL;
      var scanEnd1, scanEnd := window[strstart + bestLen - 1], window[strstart + bestLen];
      if prevLength >= GOOD_MATCH {
        chainLength := chainLength / 4;
      }
      ghost var start := matchStart;
      LookingStart(curMatch, start);
      low := base + strstart;
      while true
        invariant chainLength == Tries(prevLength) - tries && chainLength >= 1 && limit <= curMatch
        invariant prevLength <= bestLen < NICE_MATCH && 0 < curMatch < strstart && Looking(curMatch, bestLen, tries, start)
        invariant scanEnd1 == window[strstart + bestLen - 1] && scanEnd == window[strstart + bestLen]
        decreases curMatch
      {
        var len := LookAt(curMatch, bestLen, scanEnd1, scanEnd, tries, start);
        tries := tries + 1;
        low := base + curMatch;
        LookedFacts(curMatch, len, tries, start);
        if len > bestLen {
          bestLen := len;
          if len >= NICE_MATCH {
            break;
          }
          scanEnd1, scanEnd := window[strstart + bestLen - 1], window[strstart + bestLen];
        }
        ghost var was := curMatch;
        LookingNext(curMatch, bestLen, tries, start);
        curMatch := prev[curMatch % WSIZE];
        if curMatch <= limit {
          if was > limit { low := base + limit + 1; }
          break;
        }
        chainLength := chainLength - 1;
        if chainLength == 0 {
          break;
        }
      }
    }

    /** About to look at cur, the best match of those after it having length `best`; `tries` of these have the same hash. */
    ghost predicate Looking(cur: nat, best: nat, tries: nat, start: int)
      reads this`strstart, this`base, this`lookahead, this`matchStart, this`prevLength
    {
      0 < cur < strstart && strstart - cur <= MAX_DIST && SameHash(input, base + cur, base + strstart)
      && Searched(input, base + cur + 1, base + strstart, lookahead, best)
      && (lookahead >= MIN_MATCH ==> |Twins(input, base + cur + 1, base + strstart)| == tries)
      && if best == prevLength then matchStart == start else Foremost(base + cur, best)
    }

    /** The same when cur has been looked at. */
    ghost predicate Looked(cur: nat, best: nat, tries: nat, start: int)
      reads this`strstart, this`base, this`lookahead, this`matchStart, this`prevLength
    {
      0 < cur < strstart && strstart - cur <= MAX_DIST && SameHash(input, base + cur, base + strstart)
      && Searched(input, base + cur, base + strstart, lookahead, best) && Longest(input, base + cur, base + strstart, lookahead, best)
      && (lookahead >= MIN_MATCH ==> |Twins(input, base + cur, base + strstart)| == tries)
      && if best == prevLength then matchStart == start else Foremost(base + cur, best)
    }

    lemma LookingStart(cur: nat, start: int)
      requires Windowed() && cur != NIL && start == matchStart && Latest(input, base, base + strstart, base + cur)
      requires SameHash(input, base + cur, base + strstart) && strstart - cur <= MAX_DIST
      ensures 0 < cur < strstart && Looking(cur, prevLength, 0, start)
    {
      hide Shown, SameHash, Latest, Searched, Twins;
      SameHashOrder(input, base + cur, base + strstart);
      NoTwins(input, base, cur, base + strstart, base + cur + 1);
      NoneSearched(input, base, cur, base + strstart, lookahead, prevLength);
    }

    method LookAt(curMatch: nat, bestLen: nat, scanEnd1: byte, scanEnd: byte, ghost tries: nat, ghost start: int) returns (len: nat)
      requires Windowed() && lookahead > 0 && 1 <= prevLength <= bestLen < MAX_MATCH && Looking(curMatch, bestLen, tries, start)
      requires strstart + MAX_MATCH < window.Length && scanEnd1 == window[strstart + bestLen - 1] && scanEnd == window[strstart + bestLen]
      modifies this`matchStart
      ensures bestLen <= len <= MAX_MATCH && Looked(curMatch, len, tries + 1, start)
    {
      hide SameHash, Shown, Longest, Searched, Twins, Matches;
      OneMoreTwin(curMatch);
      len := Improve(curMatch, bestLen, scanEnd1, scanEnd);
    }

    lemma LookedFacts(cur: nat, best: nat, tries: nat, start: int)
      requires Looked(cur, best, tries, start)
      ensures 0 < cur < strstart && Longest(input, base + cur, base + strstart, lookahead, best)
      ensures lookahead >= MIN_MATCH ==> |Twins(input, base + cur, base + strstart)| == tries
      ensures if best == prevLength then matchStart == start else Foremost(base + cur, best)
    {
      hide SameHash, Longest, Searched, Twins, Deflater.Foremost;
    }

    /** On along the chain, or to its end. */
    lemma LookingNext(cur: nat, best: nat, tries: nat, start: int)
      requires Windowed() && Chained(strstart + 1) && Looked(cur, best, tries, start)
      ensures var next := prev[cur % WSIZE];
              next < cur && (next > Limit() ==> Looking(next, best, tries, start))
              && (next <= Limit() < cur ==>
                    Longest(input, base + Limit() + 1, base + strstart, lookahead, best)
                    && (lookahead >= MIN_MATCH ==> |Twins(input, base + Limit() + 1, base + strstart)| == tries)
                    && if best == prevLength then matchStart == start else Foremost(base + Limit() + 1, best))
    {
      hide Heads, Links, SameHash, Shown, Searched, Longest, Twins, Deflater.Foremost;
      ChainNext(cur, best);
      if best != prevLength { ForemostStill(cur, best); }
    }

    /** The match at match_start is genuine, and it is the latest of its length among those from low on. */
    ghost predicate Foremost(low: int, len: nat)
      reads this`strstart, this`base, this`lookahead, this`matchStart
    {
      len >= 1 && Found(matchStart, len) && low <= base + matchStart
      && Longest(input, base + matchStart + 1, base + strstart, lookahead, len - 1)
    }

    lemma ForemostStill(cur: nat, len: nat)
      requires Foremost(base + cur, len)
      ensures forall low: int :: low <= base + cur ==> Foremost(low, len)
    {
      hide Longest, Deflater.Found;
    }

    lemma OneMoreTwin(cur: nat)
      requires Windowed() && SameHash(input, base + cur, base + strstart)
      ensures lookahead >= MIN_MATCH
              ==> |Twins(input, base + cur, base + strstart)| == |Twins(input, base + cur + 1, base + strstart)| + 1
    {
      hide Shown, SameHash, Twins;
      if lookahead >= MIN_MATCH { TwinsMore(input, base + cur, base + strstart); }
    }

    /** The next position on the chain is closer to the start and has the same three bytes, unless the chain ends; between
        the two there is none. */
    lemma ChainNext(cur: nat, most: nat)
      requires Windowed() && Chained(strstart + 1) && 0 < cur < strstart && strstart - cur <= MAX_DIST
      requires SameHash(input, base + cur, base + strstart)
      requires Searched(input, base + cur, base + strstart, lookahead, most)
      ensures var next := prev[cur % WSIZE];
              next < cur && (next != NIL ==> SameHash(input, base + next, base + strstart))
              && Searched(input, base + next + 1, base + strstart, lookahead, most)
              && Twins(input, base + next + 1, base + strstart) == Twins(input, base + cur, base + strstart)
              && (next <= Limit() ==> Longest(input, base + Limit() + 1, base + strstart, lookahead, most))
              && (next <= Limit() < cur ==> Twins(input, base + Limit() + 1, base + strstart) == Twins(input, base + cur, base + strstart))
    {
      hide Heads, Links, Latest, SameHash, Shown, Searched, Longest, Twins;
      var b, next := base + strstart, prev[cur % WSIZE];
      FollowLink(prev[..], input, base, strstart + 1, cur);
      if next != NIL && next < cur {
        SameHashTransitive(input, base + next, base + cur, b);
      }
      ChainSearched(input, base, cur, next, b, lookahead, most);
      TwinsSkip(input, base, cur, next, b, base + next + 1);
      if next <= Limit() {
        SearchedLater(input, base + next + 1, base + Limit() + 1, b, lookahead, most);
        SearchedAll(input, base + Limit() + 1, b, lookahead, most);
        if Limit() < cur { TwinsSkip(input, base, cur, next, b, base + Limit() + 1); }
      }
    }

    // ---- lm_init

    constructor (input: seq<byte>, portions: seq<nat>, bw: BlockWriter)
      ensures this.input == input && this.bw == bw && base == strstart == bytesRead == 0 && blockStart == 0
      ensures lookahead == 0 && !eofile && trace == [] && fresh(window) && fresh(prev) && fresh(head)
      ensures window.Length == 2 * WSIZE + MAX_MATCH && prev.Length == WSIZE && head.Length == HASH_SIZE && prev != head
    {
      this.input, this.portions, this.bw, bytesRead := input, portions, bw, 0;
      window, prev, head := new byte[2 * WSIZE + MAX_MATCH], new nat[WSIZE], new nat[HASH_SIZE];
      insH, strstart, matchStart, eofile, lookahead, blockStart, prevLength := 0, 0, 0, false, 0, 0, 0;
      base, trace := 0, [];
    }

    /** The parse can start: at the first byte, with enough lookahead. */
    ghost predicate Started()
      reads this, window, prev, head
    {
      Windowed() && Chained(0) && Keyed(0) && strstart == base == 0 && blockStart == 0 && (eofile || lookahead >= MIN_LOOKAHEAD)
      && trace == []
    }

    method LmInit()
      requires Shape() && base == strstart == bytesRead == 0 && blockStart == 0 && lookahead == 0 && !eofile && trace == []
      modifies this, window, prev, head
      ensures Started()
    {
      hide *;
      ReadFirst();
      if lookahead == 0 {
        RollShort(input, 0, insH);
        KeyedMade();
      } else {
        eofile := false;
        FillFirst();
        StartHash();
      }
      StartedMade();
    }

    /** An empty hash table, and the first bytes of the input. */
    method ReadFirst()
      requires Shape() && base == strstart == bytesRead == 0 && blockStart == 0 && lookahead == 0 && !eofile
      modifies this`strstart, this`blockStart, this`lookahead, this`eofile, this`bytesRead, this`portions, window, head
      ensures Windowed() && Chained(0) && strstart == base == 0 && blockStart == 0
      ensures eofile == (lookahead == 0) && (lookahead == 0 ==> |input| == 0)
    {
      hide Heads, Links, Shown;
      ClearHead();
      NoChains(head[..], prev[..], input);
      strstart, blockStart := 0, 0;
      ghost var w: seq<byte> := window[..];
      lookahead := ReadBuf(0, 2 * WSIZE);
      ShownMore(w, window[..], input, 0, 0, lookahead);
      if lookahead == 0 {
        eofile := true;
      }
    }

    method FillFirst()
      requires Windowed() && Chained(strstart) && strstart == base == 0 && blockStart == 0
      modifies this`matchStart, this`strstart, this`blockStart, this`base, this`lookahead, this`eofile, this`bytesRead,
               this`portions, window, prev, head
      ensures Windowed() && Chained(strstart) && strstart == base == 0 && blockStart == 0 && (eofile || lookahead >= MIN_LOOKAHEAD)
    {
      hide Heads, Links, Shown;
      while lookahead < MIN_LOOKAHEAD && !eofile
        invariant Windowed() && Chained(strstart) && base + strstart == 0 && base + blockStart == 0
        decreases |input| - bytesRead, !eofile
      {
        FillWindow();
      }
    }

    lemma KeyedMade()
      requires Rolling(input, base, insH)
      ensures Keyed(0)
    {
      hide Rolling;
    }

    lemma StartedMade()
      requires Windowed() && Chained(0) && Keyed(0) && strstart == base == 0 && blockStart == 0 && (eofile || lookahead >= MIN_LOOKAHEAD)
      requires trace == []
      ensures Started()
    {
      hide Windowed, Chained, Keyed;
    }

    /** The hash of the first two bytes. */
    method StartHash()
      requires Windowed() && base == strstart == 0 && (eofile || lookahead >= MIN_LOOKAHEAD)
      modifies this`insH
      ensures Keyed(0)
    {
      hide Rolling, UpdateHash, Shown;
      ShownAt(window[..], input, base, lookahead, 0);
      ShownAt(window[..], input, base, lookahead, 1);
      insH := 0;
      insH := UpdateHash(insH, window[0]);
      insH := UpdateHash(insH, window[1]);
      if |input| >= 2 {
        RollStart(input, 0);
      } else {
        RollShort(input, 0, insH);
      }
    }

    /** memzero(head). */
    method ClearHead()
      modifies head
      ensures forall h :: 0 <= h < head.Length ==> head[h] == NIL
    {
      var n := 0;
      while n < head.Length
        invariant 0 <= n <= head.Length && forall h :: 0 <= h < n ==> head[h] == NIL
      {
        head[n] := NIL;
        n := n + 1;
      }
    }

    // ---- deflate

    /** The open block: the bits sent stand for the input before it, its tokens for the input from there up to T. */
    ghost predicate Blocked(T: int)
      reads this`base, this`blockStart, bw.Repr()
    {
      bw.Valid() && |bw.toks| < LIT_BUFSIZE && Tokenized(bw.tallied, input, T)
      && Parsed(bw.w.Sent(), bw.toks, input, base + blockStart, T)
    }

    /** FLUSH_BLOCK. */
    method Flush(eof: bool) returns (bytes: nat, ghost end: nat)
      requires Windowed() && Blocked(base + strstart) && (eof ==> base + strstart == |input|)
      modifies bw.Repr()
      ensures bw.tallied == old(bw.tallied)
      ensures !eof ==> bw.Valid() && bw.toks == [] && Parsed(bw.w.Sent(), [], input, base + strstart, base + strstart)
      ensures eof ==> bw.w.Valid() && BytesToBits(bw.w.out) == bw.w.Sent() && |bw.w.Sent()| == Aligned(end) && bytes == |bw.w.out|
      ensures eof ==> forall T :: bw.w.Sent() <= T ==> Inflated(T, 0) == Some((input, end))
    {
      hide Parsed, Tokenized, Shown, Expand, Expands, BlockAt, Inflated, BytesToBits, BlockWriter.Ready, BlockWriter.Open;
      ghost var S, toks, B, T := bw.w.Sent(), bw.toks, base + blockStart, base + strstart;
      ParsedRange(S, toks, input, B, T);
      var buf := None;
      if blockStart >= 0 {
        buf := Some(window[blockStart..strstart]);
        ShownSlice(window[..], input, base, strstart + lookahead, blockStart, strstart);
      }
      bytes, end := bw.FlushBlock(buf, strstart - blockStart, eof, input[..B], input[B..T]);
      ghost var S' := bw.w.Sent()[..end];
      if eof {
        assert input[B..T] == input[B..] && input[..T] == input;
        EndParsed(S, S', bw.w.Sent(), toks, input, B);
        SliceSize(bw.w.Sent(), end);
      } else {
        assert S' == bw.w.Sent();
        FlushParsed(S, S', toks, input, B, T);
      }
    }

    /** The lazy match found for the string before this one, if any: it may still be adopted. */
    ghost predicate Pending(available: bool, matchLength: nat)
      reads this`strstart, this`base, this`lookahead, this`matchStart
    {
      1 <= matchLength <= MAX_MATCH && (available ==> strstart >= 1)
      && (matchLength >= MIN_MATCH
          ==> available && matchLength - 1 <= lookahead && 1 <= strstart - 1 - matchStart <= MAX_DIST
              && Matches(input, base + matchStart, base + strstart - 1, matchLength))
    }

    /** Find the longest match for this string, unless there is already a match of the greatest length. */
    method FindMatch(hashHead: nat) returns (matchLength: nat, ghost s: Search)
      requires Windowed() && Chained(strstart + 1) && lookahead > 0 && 2 <= prevLength <= MAX_MATCH
      requires hashHead == NIL || SameHash(input, base + hashHead, base + strstart)
      requires Latest(input, base, base + strstart, base + hashHead) && (eofile || lookahead >= MIN_LOOKAHEAD)
      modifies this`matchStart
      ensures 1 <= matchLength <= MAX_MATCH && (matchLength >= 2 || lookahead == 1)
      ensures Sought(input, base + strstart, prevLength, s)
      ensures if s.kept >= 3 then matchLength == s.kept > prevLength && strstart - matchStart == s.dist && s.kept <= lookahead
              else matchLength <= prevLength
    {
      hide *;
      Settings(prevLength);
      WindowFacts();
      LookaheadFacts();
      matchLength := MIN_MATCH - 1;
      if hashHead != NIL && prevLength < MAX_LAZY && strstart - hashHead <= MAX_DIST {
        ghost var low;
        matchLength, low := LongestMatch(hashHead);
        s := SearchDone(matchLength, low);
        if matchLength > lookahead {
          matchLength := lookahead;
        }
        if matchLength == MIN_MATCH && strstart - matchStart > TOO_FAR {
          matchLength := matchLength - 1;
        }
      } else if prevLength >= MAX_LAZY {
        s := SearchLeft(input, base + strstart, prevLength);
      } else {
        ReachIs();
        s := NothingSought(input, base, hashHead, base + strstart, prevLength);
      }
    }

    lemma LookaheadFacts()
      requires Windowed() && (eofile || lookahead >= MIN_LOOKAHEAD)
      ensures base + strstart + lookahead <= |input| && (lookahead >= 258 || base + strstart + lookahead == |input|)
    {
      hide Shown;
    }

    /** The farthest position does not depend on where the window begins. */
    lemma ReachIs()
      requires Windowed()
      ensures base + Limit() == Reach(base + strstart) && (strstart > MAX_DIST ==> Limit() == strstart - MAX_DIST)
      ensures NIL <= Limit()
    {
      hide Shown;
    }

    /** What longest_match found, as far as there is input. */
    lemma SearchDone(best: nat, low: nat) returns (s: Search)
      requires Windowed() && lookahead > 0 && (eofile || lookahead >= MIN_LOOKAHEAD) && 2 <= prevLength <= best <= MAX_MATCH
      requires low < base + strstart && Longest(input, low, base + strstart, lookahead, best)
      requires lookahead >= MIN_MATCH
               ==> |Twins(input, low, base + strstart)| <= Tries(prevLength)
                   && (low <= base + Limit() + 1 || |Twins(input, low, base + strstart)| == Tries(prevLength) || best >= MAX_MATCH)
      requires best > prevLength ==> Foremost(low, best)
      ensures Sought(input, base + strstart, prevLength, s)
      ensures var len := if best < lookahead then best else lookahead;
              if len <= prevLength then s.kept == 2
              else s.dist == strstart - matchStart && s.kept == if len == 3 && strstart - matchStart > TOO_FAR then 2 else len
    {
      hide *;
      Settings(prevLength);
      LookaheadFacts();
      ReachIs();
      var b := base + strstart;
      if lookahead < MIN_MATCH {
        s := SearchLeft(input, b, prevLength);
      } else if best <= prevLength || lookahead <= prevLength {
        s := NothingFound(input, b, prevLength, low, lookahead, best);
      } else {
        ForemostFacts(low, best);
        s := MatchTaken(input, b, prevLength, low, lookahead, best, strstart - matchStart);
      }
    }

    lemma ForemostFacts(low: int, len: nat)
      requires Foremost(low, len)
      ensures 0 < matchStart < strstart && strstart - matchStart <= MAX_DIST && low <= base + matchStart && len >= 1
      ensures Matches(input, base + matchStart, base + strstart, if len < lookahead then len else lookahead)
      ensures Longest(input, base + matchStart + 1, base + strstart, lookahead, len - 1)
    {
      hide Longest, Matches;
    }

    /** Output the match of the string before this one, and insert all strings up to its end. */
    method AdoptMatch(prevMatch: int)
      requires Windowed() && Chained(strstart + 1) && Keyed(strstart + 1) && MIN_MATCH <= prevLength <= MAX_MATCH
      requires strstart >= 1 && prevLength - 1 <= lookahead && 1 <= strstart - 1 - prevMatch <= MAX_DIST
      requires Matches(input, base + prevMatch, base + strstart - 1, prevLength)
      requires (eofile || lookahead >= MIN_LOOKAHEAD) && Blocked(base + strstart - 1) && |bw.toks| < LIT_BUFSIZE - 1
      modifies this`insH, this`strstart, this`lookahead, this`blockStart, this`prevLength, prev, head, bw.Repr()
      ensures Windowed() && Chained(strstart) && Keyed(strstart) && strstart == old(strstart) + old(prevLength) - 1
      ensures Blocked(base + strstart) && |bw.toks| < LIT_BUFSIZE - 1
      ensures bw.tallied == old(bw.tallied) + [Match(old(prevLength), old(strstart) - 1 - prevMatch)]
    {
      hide *;
      ReprFacts();
      var flush := TallyMatch(strstart - 1 - prevMatch, prevLength);
      InsertAll();
      if flush {
        FlushHere();
      }
    }

    /** The match goes into the open block. */
    method TallyMatch(dist: nat, length: nat) returns (flush: bool)
      requires Windowed() && strstart >= 1 && MIN_MATCH <= length <= MAX_MATCH && 1 <= dist <= MAX_DIST
      requires Matches(input, base + strstart - 1 - dist, base + strstart - 1, length)
      requires Blocked(base + strstart - 1) && |bw.toks| < LIT_BUFSIZE - 1
      modifies bw.Repr()
      ensures Windowed() && Blocked(base + strstart - 1 + length) && (flush || |bw.toks| < LIT_BUFSIZE - 1)
      ensures bw.tallied == old(bw.tallied) + [Match(length, dist)]
    {
      hide Shown, Matches, Parsed, Tokenized, BlockWriter.Ready, BlockWriter.Open;
      MatchParsed(bw.w.Sent(), bw.toks, input, base + blockStart, base + strstart - 1, length, dist);
      MatchTokenized(bw.tallied, input, base + strstart - 1, length, dist);
      flush := bw.Tally(dist, length - MIN_MATCH, strstart, blockStart);
    }

    /** FLUSH_BLOCK(0), block_start = strstart. */
    method FlushHere()
      requires Windowed() && Blocked(base + strstart)
      modifies this`blockStart, bw.Repr()
      ensures Windowed() && Blocked(base + strstart) && bw.toks == [] && bw.tallied == old(bw.tallied)
    {
      hide Shown, Parsed, Tokenized, BlockWriter.Ready, BlockWriter.Open;
      var bytes, _ := Flush(false);
      blockStart := strstart;
    }

    lemma ReprFacts()
      requires Windowed()
      ensures this !in bw.Repr() && window !in bw.Repr() && prev !in bw.Repr() && head !in bw.Repr()
      ensures bw.Repr() == {bw, bw.w, bw.builder, bw.builder.heap, bw.builder.depth, bw.dynLtree, bw.dynDtree, bw.blTree,
                            bw.staticLtree, bw.staticDtree, bw.lDesc, bw.dDesc, bw.blDesc}
    {
      hide Shown;
    }

    /** The strings up to the end of the match. */
    method InsertAll()
      requires Windowed() && Chained(strstart + 1) && Keyed(strstart + 1) && MIN_MATCH <= prevLength <= MAX_MATCH
      requires prevLength - 1 <= lookahead && (eofile || lookahead >= MIN_LOOKAHEAD)
      modifies this`insH, this`strstart, this`lookahead, this`prevLength, prev, head
      ensures Windowed() && Chained(strstart) && Keyed(strstart) && strstart == old(strstart) + old(prevLength) - 1
    {
      hide *;
      Settings(0);
      WindowFacts();
      ghost var end, len := strstart + lookahead, prevLength;
      lookahead := lookahead - (prevLength - 1);
      prevLength := prevLength - 2;
      while true
        invariant 1 <= prevLength <= len - 2 && strstart == old(strstart) + len - 2 - prevLength
        invariant lookahead == old(lookahead) - (len - 1)
        invariant Chained(strstart + 1) && Keyed(strstart + 1) && Shown(window[..], input, base, end)
        decreases prevLength
      {
        strstart := strstart + 1;
        ShownAt(window[..], input, base, end, strstart + 2);
        var hashHead := InsertString(strstart);
        prevLength := prevLength - 1;
        if prevLength == 0 {
          break;
        }
      }
      strstart := strstart + 1;
      WindowedMade();
    }

    lemma WindowedMade()
      requires Shape() && strstart + lookahead <= 2 * WSIZE && base + strstart + lookahead == bytesRead <= |input|
      requires Shown(window[..], input, base, strstart + lookahead) && (eofile ==> bytesRead == |input|)
      requires blockStart <= strstart && base + blockStart >= 0 && (base == 0 || strstart >= MAX_DIST)
      ensures Windowed()
    {
      hide Shown;
    }

    /** No match is adopted at the string before this one: it is a single literal. */
    method EmitLiteral()
      requires Windowed() && strstart >= 1 && lookahead > 0 && Blocked(base + strstart - 1) && |bw.toks| < LIT_BUFSIZE - 1
      modifies this`blockStart, bw.Repr()
      ensures Windowed() && Blocked(base + strstart) && |bw.toks| < LIT_BUFSIZE - 1
      ensures base + strstart <= |input| && bw.tallied == old(bw.tallied) + [Literal(input[base + strstart - 1])]
    {
      hide Shown, Parsed, Tokenized, BlockWriter.Ready, BlockWriter.Open;
      LiteralParsed(bw.w.Sent(), bw.toks, input, base + blockStart, base + strstart - 1);
      LiteralTokenized(bw.tallied, input, base + strstart - 1);
      ShownAt(window[..], input, base, strstart + lookahead, strstart - 1);
      var flush := bw.Tally(0, window[strstart - 1], strstart, blockStart);
      if flush {
        FlushHere();
      }
    }

    /** Where the lazy parse stands: everything before this string is in blocks or in the open one, but for the
        byte before it when that is still undecided. */
    ghost predicate Stepping(available: bool, matchLength: nat)
      reads this, window, prev, head, bw.Repr()
    {
      Windowed() && Chained(strstart) && Keyed(strstart) && Pending(available, matchLength)
      && Blocked(base + strstart - if available then 1 else 0) && |bw.toks| < LIT_BUFSIZE - 1
    }

    lemma SteppingFacts(available: bool, length: nat)
      requires Stepping(available, length)
      ensures Windowed() && Chained(strstart) && Keyed(strstart) && 1 <= length <= MAX_MATCH && (available ==> strstart >= 1)
      ensures length >= MIN_MATCH
              ==> available && length - 1 <= lookahead && 1 <= strstart - 1 - matchStart <= MAX_DIST
                  && Matches(input, base + matchStart, base + strstart - 1, length)
      ensures Blocked(base + strstart - if available then 1 else 0) && |bw.toks| < LIT_BUFSIZE - 1
      ensures base + strstart + lookahead == bytesRead <= |input| && (eofile ==> bytesRead == |input|)
      ensures this !in bw.Repr() && window !in bw.Repr() && prev !in bw.Repr() && head !in bw.Repr()
      ensures bw.Repr() == {bw, bw.w, bw.builder, bw.builder.heap, bw.builder.depth, bw.dynLtree, bw.dynDtree, bw.blTree,
                            bw.staticLtree, bw.staticDtree, bw.lDesc, bw.dDesc, bw.blDesc}
    {
      hide Shown, Heads, Links, Rolling, Matches, Parsed, Tokenized, BlockWriter.Ready, BlockWriter.Open;
    }

    lemma SteppingMade(available: bool, length: nat)
      requires Windowed() && Chained(strstart) && Keyed(strstart) && 1 <= length <= MAX_MATCH && (available ==> strstart >= 1)
      requires length >= MIN_MATCH
               ==> available && length - 1 <= lookahead && 1 <= strstart - 1 - matchStart <= MAX_DIST
                   && Matches(input, base + matchStart, base + strstart - 1, length)
      requires Blocked(base + strstart - if available then 1 else 0) && |bw.toks| < LIT_BUFSIZE - 1
      ensures Stepping(available, length)
    {
      hide Windowed, Chained, Keyed, Matches, Blocked;
    }

    /** Insert this string, and find its longest match. */
    method NextMatch(length: nat) returns (matchLength: nat, ghost s: Search)
      requires Windowed() && Chained(strstart) && Keyed(strstart) && lookahead > 0 && 2 <= length <= MAX_MATCH
      requires eofile || lookahead >= MIN_LOOKAHEAD
      modifies this`insH, this`matchStart, this`prevLength, prev, head
      ensures Chained(strstart + 1) && Keyed(strstart + 1) && prevLength == length
      ensures 1 <= matchLength <= MAX_MATCH && (matchLength >= 2 || lookahead == 1)
      ensures Sought(input, base + strstart, length, s)
      ensures if s.kept >= 3 then matchLength == s.kept > length && strstart - matchStart == s.dist && s.kept <= lookahead
              else matchLength <= length
    {
      hide Latest, Heads, Links, Rolling, Shown, Matches, SameHash, Sought;
      ShownAt(window[..], input, base, strstart + lookahead, strstart + 2);
      var hashHead := InsertString(strstart);
      prevLength := length;
      matchLength, s := FindMatch(hashHead);
    }

    // ---- The searches of the run

    /** The tokens so far are those of a lazy parse; `length` is what was found for the string before this one, if that is
        undecided. */
    ghost predicate Lazing(available: bool, length: nat)
      reads this`strstart, this`lookahead, this`matchStart, this`eofile, this`trace, bw`tallied
    {
      Lazily(input, bw.tallied, trace) && |trace| == |bw.tallied| + (if available then 1 else 0)
      && (length >= 2 || (eofile && lookahead == 0))
      && if available then Undecided(trace[|bw.tallied|], length, strstart - 1 - matchStart)
         else length == 2 && (bw.tallied == [] || bw.tallied[|bw.tallied| - 1].Match?)
    }

    ghost predicate Undecided(s: Search, length: nat, dist: int) {
      if s.kept >= 3 then s.kept == length && s.dist == dist else s.kept == 2 && length <= 2
    }

    lemma LazingFacts(available: bool, length: nat)
      requires Lazing(available, length)
      ensures Lazily(input, bw.tallied, trace) && |trace| == |bw.tallied| + (if available then 1 else 0)
      ensures length >= 2 || (eofile && lookahead == 0)
      ensures available ==> var s := trace[|bw.tallied|];
                            (if s.kept >= 3 then s.kept == length && s.dist == strstart - 1 - matchStart else s.kept == 2 && length <= 2)
      ensures !available ==> length == 2 && (bw.tallied == [] || bw.tallied[|bw.tallied| - 1].Match?)
    {
      hide Lazily;
    }

    lemma LazingMade(available: bool, length: nat)
      requires Lazily(input, bw.tallied, trace) && |trace| == |bw.tallied| + (if available then 1 else 0)
      requires length >= 2 || (eofile && lookahead == 0)
      requires available ==> var s := trace[|bw.tallied|];
                             (if s.kept >= 3 then s.kept == length && s.dist == strstart - 1 - matchStart else s.kept == 2 && length <= 2)
      requires !available ==> length == 2 && (bw.tallied == [] || bw.tallied[|bw.tallied| - 1].Match?)
      ensures Lazing(available, length)
    {
      hide Lazily;
    }

    lemma PlaceIs(T: int)
      requires Blocked(T)
      ensures Place(bw.tallied, |bw.tallied|) == T >= 0
    {
      hide Parsed, BlockWriter.Ready, BlockWriter.Open, Expand, Expands;
      TokenizedPlace(bw.tallied, input, T);
    }

    /** Process one string of the input: adopt the match of the one before if this one has no longer match; else the byte
        before, if it is still undecided, is a literal, and this string is undecided now. */
    method Step(available: bool, length: nat) returns (matchAvailable: bool, matchLength: nat)
      requires Stepping(available, length) && Lazing(available, length) && (eofile || lookahead >= MIN_LOOKAHEAD) && lookahead != 0
      modifies this`insH, this`matchStart, this`strstart, this`lookahead, this`blockStart, this`prevLength, this`trace, prev, head,
               bw.Repr()
      ensures Stepping(matchAvailable, matchLength) && Lazing(matchAvailable, matchLength) && strstart > old(strstart)
      ensures matchAvailable
              ==> strstart == old(strstart) + 1 && (length < MIN_MATCH || matchLength > length)
                  && if available then old(base + strstart) - 1 < |input|
                                       && bw.tallied == old(bw.tallied) + [Literal(input[old(base + strstart) - 1])]
                     else bw.tallied == old(bw.tallied)
      ensures !matchAvailable
              ==> length >= MIN_MATCH && strstart == old(strstart) + length - 1 && old(strstart - 1 - matchStart) >= 1
                  && bw.tallied == old(bw.tallied) + [Match(length, old(strstart - 1 - matchStart))]
    {
      hide *;
      Settings(length);
      SteppingFacts(available, length);
      LazingFacts(available, length);
      matchAvailable, matchLength := available, length;
      var prevMatch := matchStart;
      ghost var place, all, b := base + strstart - (if available then 1 else 0), bw.tallied, base + strstart;
      PlaceIs(place);
      ghost var s;
      matchLength, s := NextMatch(length);
      SoughtKept(input, b, length, s);
      if prevLength >= MIN_MATCH && matchLength <= prevLength {
        UnbeatenBy(input, b, length, s);
        LazyToken(input, all, trace, Match(length, strstart - 1 - prevMatch));
        AdoptMatch(prevMatch);
        matchAvailable, matchLength := false, MIN_MATCH - 1;
        SteppingMade(matchAvailable, matchLength);
        LazingMade(matchAvailable, matchLength);
      } else {
        GoOn(available, length, matchLength, s);
        matchAvailable := true;
      }
    }

    /** There is no match before this string, or a longer one here: the byte before is a literal, if it is still undecided, and
        this string is undecided now. */
    method GoOn(available: bool, ghost length: nat, ghost matchLength: nat, ghost s: Search)
      requires Windowed() && Chained(strstart + 1) && Keyed(strstart + 1) && lookahead > 0 && (eofile || lookahead >= MIN_LOOKAHEAD)
      requires (available ==> strstart >= 1) && Blocked(base + strstart - if available then 1 else 0) && |bw.toks| < LIT_BUFSIZE - 1
      requires Lazily(input, bw.tallied, trace) && |trace| == |bw.tallied| + (if available then 1 else 0)
      requires available ==> trace[|bw.tallied|].kept == (if length >= 3 then length else 2) && length >= 2
      requires !available ==> length == 2 && (bw.tallied == [] || bw.tallied[|bw.tallied| - 1].Match?)
      requires Sought(input, base + strstart, length, s) && 1 <= matchLength <= MAX_MATCH && (matchLength >= 2 || lookahead == 1)
      requires length < 3 || matchLength > length
      requires if s.kept >= 3 then matchLength == s.kept > length && strstart - matchStart == s.dist && s.kept <= lookahead
               else matchLength <= length
      modifies this`strstart, this`lookahead, this`blockStart, this`trace, bw.Repr()
      ensures Stepping(true, matchLength) && Lazing(true, matchLength) && strstart == old(strstart) + 1
      ensures available ==> old(base + strstart) - 1 < |input|
                            && bw.tallied == old(bw.tallied) + [Literal(input[old(base + strstart) - 1])]
      ensures !available ==> bw.tallied == old(bw.tallied)
    {
      hide *;
      Settings(length);
      WindowFacts();
      ReprFacts();
      PlaceIs(base + strstart - if available then 1 else 0);
      SoughtKept(input, base + strstart, length, s);
      SoughtGenuine(input, base + strstart, length, s);
      ghost var all, b := bw.tallied, base + strstart;
      if available {
        EmitLiteral();
        LazyLiteral(input, all, trace, input[b - 1], s);
      } else {
        LazySearch(input, all, trace, s);
      }
      trace := trace + [s];
      NextString(matchLength);
      LazingMade(true, matchLength);
    }

    /** Leave this string undecided and go on to the next one. */
    method NextString(ghost matchLength: nat)
      requires Windowed() && Chained(strstart + 1) && Keyed(strstart + 1) && Blocked(base + strstart) && |bw.toks| < LIT_BUFSIZE - 1
      requires lookahead > 0 && 1 <= matchLength <= MAX_MATCH
      requires matchLength >= MIN_MATCH
               ==> matchLength <= lookahead && 1 <= strstart - matchStart <= MAX_DIST
                   && Matches(input, base + matchStart, base + strstart, matchLength)
      modifies this`strstart, this`lookahead
      ensures Stepping(true, matchLength) && strstart == old(strstart) + 1 && lookahead == old(lookahead) - 1
    {
      hide Heads, Links, Rolling, Shown, Matches, Parsed, Tokenized, BlockWriter.Ready, BlockWriter.Open;
      strstart := strstart + 1;
      lookahead := lookahead - 1;
    }

    method Deflate() returns (bytes: nat, ghost end: nat)
      requires Started() && bw.Valid() && bw.toks == bw.tallied == [] && bw.w.Sent() == []
      modifies this, window, prev, head, bw.Repr()
      ensures bw.w.Valid() && BytesToBits(bw.w.out) == bw.w.Sent() && |bw.w.Sent()| == Aligned(end) && bytes == |bw.w.out|
      ensures forall T :: bw.w.Sent() <= T ==> Inflated(T, 0) == Some((input, end))
      ensures Expand([], bw.tallied, |bw.tallied|) == input && forall k :: 0 <= k < |bw.tallied| ==> InReach(bw.tallied, k)
      ensures Lazily(input, bw.tallied, trace) && |trace| == |bw.tallied|
    {
      hide *;
      var matchAvailable, matchLength := Parse();
      bytes, end := Finish(matchAvailable, matchLength);
    }

    /** The loop over the strings of the input. */
    method Parse() returns (matchAvailable: bool, matchLength: nat)
      requires Started() && bw.Valid() && bw.toks == bw.tallied == [] && bw.w.Sent() == []
      modifies this, window, prev, head, bw.Repr()
      ensures Stepping(matchAvailable, matchLength) && Lazing(matchAvailable, matchLength) && eofile && lookahead == 0
    {
      hide *;
      Settings(0);
      matchAvailable, matchLength := false, MIN_MATCH - 1;
      StartStepping();
      LazyStart(input);
      LazingMade(matchAvailable, matchLength);
      while lookahead != 0
        invariant Stepping(matchAvailable, matchLength) && Lazing(matchAvailable, matchLength) && (eofile || lookahead >= MIN_LOOKAHEAD)
        decreases |input| - (base + strstart)
      {
        SteppingFacts(matchAvailable, matchLength);
        matchAvailable, matchLength := Step(matchAvailable, matchLength);
        SteppingFacts(matchAvailable, matchLength);
        FillUp(matchAvailable, matchLength);
      }
    }

    lemma StartStepping()
      requires Started() && bw.Valid() && bw.toks == bw.tallied == [] && bw.w.Sent() == []
      ensures Stepping(false, MIN_MATCH - 1) && (eofile || lookahead >= MIN_LOOKAHEAD) && trace == []
    {
      hide Shown, Heads, Links, Rolling, Parsed, Tokenized, BlockWriter.Ready, BlockWriter.Open;
      StartParsed(input);
      NoneTokenized(input);
    }

    /** The byte that is still undecided, and the last block. */
    method Finish(matchAvailable: bool, ghost matchLength: nat) returns (bytes: nat, ghost end: nat)
      requires Stepping(matchAvailable, matchLength) && Lazing(matchAvailable, matchLength) && eofile && lookahead == 0
      modifies bw.Repr()
      ensures bw.w.Valid() && BytesToBits(bw.w.out) == bw.w.Sent() && |bw.w.Sent()| == Aligned(end) && bytes == |bw.w.out|
      ensures forall T :: bw.w.Sent() <= T ==> Inflated(T, 0) == Some((input, end))
      ensures Expand([], bw.tallied, |bw.tallied|) == input && forall k :: 0 <= k < |bw.tallied| ==> InReach(bw.tallied, k)
      ensures Lazily(input, bw.tallied, trace) && |trace| == |bw.tallied|
    {
      hide Heads, Links, Rolling, Shown, Matches, Parsed, Tokenized, InReach, Expand, SameHash, Inflated, BytesToBits, Lazily, BlockWriter.Ready, BlockWriter.Open;
      if matchAvailable {
        LazyToken(input, bw.tallied, trace, Literal(input[base + strstart - 1]));
        LastLiteral();
      }
      bytes, end := Flush(true);
      AllInReach(bw.tallied, input);
    }

    /** Make sure that there is always enough lookahead. */
    method FillUp(ghost available: bool, ghost matchLength: nat)
      requires Stepping(available, matchLength) && Lazing(available, matchLength)
      modifies this`matchStart, this`strstart, this`blockStart, this`base, this`lookahead, this`eofile, this`bytesRead,
               this`portions, window, prev, head
      ensures Stepping(available, matchLength) && Lazing(available, matchLength)
      ensures eofile || lookahead >= MIN_LOOKAHEAD
      ensures base + strstart == old(base + strstart) && base + blockStart == old(base + blockStart)
    {
      hide Heads, Links, Rolling, Shown, Matches, Parsed, Tokenized, Lazily, BlockWriter.Ready, BlockWriter.Open;
      while lookahead < MIN_LOOKAHEAD && !eofile
        invariant Stepping(available, matchLength) && Lazing(available, matchLength)
        invariant base + strstart == old(base + strstart) && base + blockStart == old(base + blockStart)
        decreases |input| - bytesRead, !eofile
      {
        FillWindow();
      }
    }

    method LastLiteral()
      requires Windowed() && strstart >= 1 && Blocked(base + strstart - 1) && |bw.toks| < LIT_BUFSIZE - 1
      modifies bw.Repr()
      ensures Windowed() && Blocked(base + strstart)
      ensures base + strstart <= |input| && bw.tallied == old(bw.tallied) + [Literal(input[base + strstart - 1])]
    {
      hide Shown, Parsed, Tokenized, BlockWriter.Ready, BlockWriter.Open;
      LiteralParsed(bw.w.Sent(), bw.toks, input, base + blockStart, base + strstart - 1);
      LiteralTokenized(bw.tallied, input, base + strstart - 1);
      ShownAt(window[..], input, base, strstart + lookahead, strstart - 1);
      var flush := bw.Tally(0, window[strstart - 1], strstart, blockStart);
    }
  }

  lemma ShownSlice(window: seq<byte>, input: seq<byte>, base: nat, end: nat, i: nat, j: nat)
    requires Shown(window, input, base, end) && i <= j <= end
    ensures j <= |window| && base + j <= |input| && window[i..j] == input[base + i..base + j]
  {}

  lemma ShownAt(window: seq<byte>, input: seq<byte>, base: nat, end: nat, i: nat)
    requires Shown(window, input, base, end)
    ensures i < end ==> i < |window| && base + i < |input| && window[i] == input[base + i]
  {}

  lemma SliceSize(s: seq<bool>, n: nat)
    requires n <= |s|
    ensures |s[..n]| == n && s[..n] <= s
  {}

  /** Where the bytes differ, or where no match can be longer, a match ends. */
  lemma EndsAt(window: seq<byte>, input: seq<byte>, base: nat, cur: nat, s: nat, lookahead: nat, i: nat, most: nat)
    requires Shown(window, input, base, s + lookahead) && cur < s && s + i < |window| && i <= most
    requires i == MAX_MATCH || window[cur + i] != window[s + i]
    ensures NoLonger(input, base + cur, base + s, lookahead, most)
  {
    var a, b := base + cur, base + s;
    if i < lookahead && i < MAX_MATCH {
      assert window[cur + i] == input[a + i] && window[s + i] == input[b + i];
    }
    hide Shown;
    forall n: nat | n <= MAX_MATCH && n <= lookahead && Matches(input, a, b, n)
      ensures n <= i
    {
      MatchAt(input, a, b, n, i);
    }
  }

  lemma MatchAt(input: seq<byte>, a: int, b: int, n: nat, i: nat)
    requires Matches(input, a, b, n)
    ensures i < n ==> input[b + i] == input[a + i]
  {
    assert i < n ==> input[b + i] == input[b + i - (b - a)];
  }

  lemma SameHashOrder(input: seq<byte>, a: nat, b: nat)
    requires SameHash(input, a, b)
    ensures a < b
  {}

  lemma HashesAt(input: seq<byte>, a: nat)
    requires a + 2 < |input|
    ensures Hashes(input, a, HashAt(input, a))
  {}

  lemma HashesShort(input: seq<byte>, a: nat, h: nat)
    requires |input| <= a + 2
    ensures Hashes(input, a, h)
  {}

  /** The third byte need not be compared: it is equal because the hashes are. */
  lemma MatchFound(window: seq<byte>, input: seq<byte>, base: nat, cur: nat, s: nat, lookahead: nat, len: nat)
    requires Shown(window, input, base, s + lookahead) && SameHash(input, base + cur, base + s) && cur < s && s + len <= |window|
    requires len >= 3 && window[cur] == window[s] && window[cur + 1] == window[s + 1]
    requires forall i :: s + 3 <= i < s + len ==> window[i] == window[i - (s - cur)]
    ensures Matches(input, base + cur, base + s, if len < lookahead then len else lookahead)
  {
    hide SameHash;
    var n := if len < lookahead then len else lookahead;
    if n >= 3 {
      assert input[base + cur] == input[base + s] && input[base + cur + 1] == input[base + s + 1];
      ThreeBytes(input, base + cur, base + s);
    }
    forall i | base + s <= i < base + s + n
      ensures input[i] == input[i - (s - cur)]
    {
      var j := i - base;
      if j != s + 2 { assert window[j] == window[j - (s - cur)]; }
    }
  }
}
