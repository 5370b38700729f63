/** What the tokens of a lazy parse stand for. */
module Parsing {
  import opened Options
  import opened Bits
  import opened Lz77
  import opened Rfc1951
  import opened Tokens
  import opened Blocks
  import opened HashChains

  /** len bytes at b repeat those at a. */
  ghost predicate Matches(input: seq<byte>, a: int, b: int, len: nat) {
    0 <= a < b && b + len <= |input| && forall i :: b <= i < b + len ==> input[i] == input[i - (b - a)]
  }

  /** A match at a for the string at b, with so many bytes to come, is at most `most` bytes long. */
  ghost predicate NoLonger(input: seq<byte>, a: int, b: int, lookahead: nat, most: nat) {
    forall n: nat :: n <= MAX_MATCH && n <= lookahead && Matches(input, a, b, n) ==> n <= most
  }

  /** At positions from low on with the same hash, no match is longer. */
  ghost predicate Searched(input: seq<byte>, low: int, b: nat, lookahead: nat, most: nat) {
    forall a: nat :: low <= a < b && Twin(input, a, b) ==> NoLonger(input, a, b, lookahead, most)
  }

  /** From low on there is no longer match at all. */
  ghost predicate Longest(input: seq<byte>, low: int, b: nat, lookahead: nat, most: nat) {
    forall a: nat, n: nat :: low <= a < b && MIN_MATCH <= n <= MAX_MATCH && n <= lookahead && Matches(input, a, b, n) ==> n <= most
  }

  lemma SearchedMore(input: seq<byte>, low: int, low': nat, b: nat, lookahead: nat, most: nat, most': nat)
    requires Searched(input, low, b, lookahead, most) && most <= most' && low' <= low
    requires forall a: nat :: low' < a < low && a < b ==> !Twin(input, a, b)
    requires low' < low && low' < b ==> NoLonger(input, low', b, lookahead, most')
    ensures Searched(input, low', b, lookahead, most')
  {
    hide Twin, Matches;
  }

  lemma NoneSearched(input: seq<byte>, base: nat, cur: nat, b: nat, lookahead: nat, most: nat)
    requires Latest(input, base, b, base + cur)
    ensures Searched(input, base + cur + 1, b, lookahead, most)
  {
    hide Twin, NoLonger;
  }

  /** On from a position that was looked at to the next one on its chain. */
  lemma ChainSearched(input: seq<byte>, base: nat, cur: nat, next: nat, b: nat, lookahead: nat, most: nat)
    requires Searched(input, base + cur, b, lookahead, most)
    requires SameHash(input, base + cur, b) && Latest(input, base, base + cur, base + next)
    ensures Searched(input, base + next + 1, b, lookahead, most)
  {
    hide Twin, NoLonger, SameHash;
    forall a: nat | base + next + 1 <= a < b && Twin(input, a, b)
      ensures NoLonger(input, a, b, lookahead, most)
    {
      if a < base + cur { TwinShared(input, a, base + cur, b); }
    }
  }

  lemma SearchedLater(input: seq<byte>, low: int, low': int, b: nat, lookahead: nat, most: nat)
    requires Searched(input, low, b, lookahead, most) && low <= low'
    ensures Searched(input, low', b, lookahead, most)
  {
    hide Twin, NoLonger;
  }

  /** Strings of three equal bytes have the same hash. */
  lemma SearchedAll(input: seq<byte>, low: int, b: nat, lookahead: nat, most: nat)
    requires Searched(input, low, b, lookahead, most)
    ensures Longest(input, low, b, lookahead, most)
  {
    hide NoLonger, Twin, Matches;
    forall a: nat, n: nat | low <= a < b && MIN_MATCH <= n <= MAX_MATCH && n <= lookahead && Matches(input, a, b, n)
      ensures n <= most
    {
      MatchTwin(input, a, b, n);
      Bounded(input, a, b, lookahead, most, n);
    }
  }

  lemma MatchTwin(input: seq<byte>, a: nat, b: nat, n: nat)
    requires Matches(input, a, b, n) && n >= 3
    ensures Twin(input, a, b)
  {
    hide Hash3;
    assert input[b] == input[a] && input[b + 1] == input[a + 1] && input[b + 2] == input[a + 2];
  }

  lemma Bounded(input: seq<byte>, a: int, b: int, lookahead: nat, most: nat, n: nat)
    requires NoLonger(input, a, b, lookahead, most) && n <= MAX_MATCH && n <= lookahead && Matches(input, a, b, n)
    ensures n <= most
  {}

  lemma LongestMore(input: seq<byte>, low: int, b: nat, lookahead: nat, most: nat, most': nat)
    requires Longest(input, low, b, lookahead, most) && most <= most'
    ensures Longest(input, low, b, lookahead, most')
  {}

  /** The bits S stand for input[..B], and the tokens of the open block for input[B..T]. */
  ghost predicate Parsed(S: seq<bool>, toks: seq<Token>, input: seq<byte>, B: int, T: int) {
    0 <= B <= T <= |input| && Reads(S, input[..B]) && Expands(input[..B], toks, |toks|)
    && Expand(input[..B], toks, |toks|) == input[..T]
  }

  /** All the tokens of the run so far stand for input[..T], and no match reaches back further than MAX_DIST. */
  ghost predicate Tokenized(all: seq<Token>, input: seq<byte>, T: int) {
    0 <= T <= |input| && Expands([], all, |all|) && Expand([], all, |all|) == input[..T]
    && forall k :: 0 <= k < |all| && all[k].Match? ==> all[k].dist <= MAX_DIST
  }

  lemma NoneTokenized(input: seq<byte>)
    ensures Tokenized([], input, 0)
  {}

  lemma MoreTokenized(all: seq<Token>, input: seq<byte>, T: int, t: Token, T': int)
    requires Tokenized(all, input, T) && TokenOk(t) && T <= T' <= |input| && (t.Match? ==> t.dist <= MAX_DIST)
    requires Applicable(t, T) && Apply(input[..T], t) == input[..T']
    ensures Tokenized(all + [t], input, T')
  {
    hide Apply;
    ExpandKept([], all, t, |all|);
    assert (all + [t])[|all|] == t;
  }

  lemma LiteralTokenized(all: seq<Token>, input: seq<byte>, T: int)
    requires Tokenized(all, input, T) && T < |input|
    ensures Tokenized(all + [Literal(input[T])], input, T + 1)
  {
    hide Tokenized;
    TokenizedRange(all, input, T);
    assert input[..T + 1] == input[..T] + [input[T]];
    MoreTokenized(all, input, T, Literal(input[T]), T + 1);
  }

  lemma MatchTokenized(all: seq<Token>, input: seq<byte>, T: int, len: nat, dist: nat)
    requires Tokenized(all, input, T) && MIN_MATCH <= len <= MAX_MATCH && 1 <= dist <= MAX_DIST
    requires Matches(input, T - dist, T, len)
    ensures Tokenized(all + [Match(len, dist)], input, T + len)
  {
    hide Tokenized;
    TokenizedRange(all, input, T);
    CopyIs(input[..T], dist, len, input[..T + len]);
    MoreTokenized(all, input, T, Match(len, dist), T + len);
  }

  lemma TokenizedPlace(all: seq<Token>, input: seq<byte>, T: int)
    requires Tokenized(all, input, T)
    ensures |Expand([], all, |all|)| == T >= 0
  {
    hide Expand, Expands;
  }

  lemma TokenizedRange(all: seq<Token>, input: seq<byte>, T: int)
    requires Tokenized(all, input, T)
    ensures 0 <= T <= |input|
  {}

  /** A token of a run that can be written: a match is in the format's range and refers to bytes produced before it. */
  ghost predicate InReach(all: seq<Token>, k: nat)
    requires k < |all|
  {
    all[k].Match? ==> 3 <= all[k].len <= 258 && 1 <= all[k].dist <= MAX_DIST && all[k].dist <= |Expand([], all, k)|
  }

  lemma {:induction false} ExpandsAt(out: seq<byte>, all: seq<Token>, n: nat, k: nat)
    requires k < n <= |all| && Expands(out, all, n)
    ensures TokenOk(all[k]) && Applicable(all[k], |Expand(out, all, k)|)
  {
    if k < n - 1 { ExpandsAt(out, all, n - 1, k); }
  }

  lemma AllInReach(all: seq<Token>, input: seq<byte>)
    requires Tokenized(all, input, |input|)
    ensures Expand([], all, |all|) == input && forall k :: 0 <= k < |all| ==> InReach(all, k)
  {
    forall k | 0 <= k < |all|
      ensures InReach(all, k)
    {
      ExpandsAt([], all, |all|, k);
    }
    assert input[..|input|] == input;
  }

  lemma {:induction false} ExpandKept(out: seq<byte>, toks: seq<Token>, t: Token, n: nat)
    requires n <= |toks|
    ensures Expand(out, toks + [t], n) == Expand(out, toks, n) && Expands(out, toks + [t], n) == Expands(out, toks, n)
  {
    hide Apply;
    if n > 0 {
      ExpandKept(out, toks, t, n - 1);
      assert (toks + [t])[n - 1] == toks[n - 1];
    }
  }

  lemma TokenParsed(S: seq<bool>, toks: seq<Token>, input: seq<byte>, B: int, T: int, t: Token, T': int)
    requires Parsed(S, toks, input, B, T) && TokenOk(t) && T <= T' <= |input|
    requires Applicable(t, T) && Apply(input[..T], t) == input[..T']
    ensures Parsed(S, toks + [t], input, B, T')
  {
    hide Reads, Apply;
    ExpandKept(input[..B], toks, t, |toks|);
    assert (toks + [t])[|toks|] == t;
  }

  lemma LiteralParsed(S: seq<bool>, toks: seq<Token>, input: seq<byte>, B: int, T: int)
    requires Parsed(S, toks, input, B, T) && T < |input|
    ensures Parsed(S, toks + [Literal(input[T])], input, B, T + 1)
  {
    hide Parsed;
    ParsedRange(S, toks, input, B, T);
    assert input[..T + 1] == input[..T] + [input[T]];
    TokenParsed(S, toks, input, B, T, Literal(input[T]), T + 1);
  }

  lemma MatchParsed(S: seq<bool>, toks: seq<Token>, input: seq<byte>, B: int, T: int, len: nat, dist: nat)
    requires Parsed(S, toks, input, B, T) && MIN_MATCH <= len <= MAX_MATCH && 1 <= dist <= WSIZE
    requires Matches(input, T - dist, T, len)
    ensures Parsed(S, toks + [Match(len, dist)], input, B, T + len)
  {
    hide Parsed;
    ParsedRange(S, toks, input, B, T);
    CopyIs(input[..T], dist, len, input[..T + len]);
    TokenParsed(S, toks, input, B, T, Match(len, dist), T + len);
  }

  lemma ParsedRange(S: seq<bool>, toks: seq<Token>, input: seq<byte>, B: int, T: int)
    requires Parsed(S, toks, input, B, T)
    ensures 0 <= B <= T <= |input| && Expands(input[..B], toks, |toks|)
    ensures Expand(input[..B], toks, |toks|) == input[..B] + input[B..T] && |input[B..T]| == T - B
  {
    hide Reads, Expands, Expand;
  }

  /** A new block. */
  lemma FlushParsed(S: seq<bool>, S': seq<bool>, toks: seq<Token>, input: seq<byte>, B: int, T: int)
    requires Parsed(S, toks, input, B, T) && S <= S' && BlockAt(S', |S|, false, input[..B], input[..B] + input[B..T])
    ensures Parsed(S', [], input, T, T)
  {
    hide Reads, Expand, BlockAt;
    assert input[..B] + input[B..T] == input[..T];
    BlockRead1(S, S', input[..B], input[..T]);
    NoTokens(input[..T]);
  }

  lemma NoTokens(out: seq<byte>)
    ensures Expands(out, [], 0) && Expand(out, [], 0) == out
  {}

  lemma StartParsed(input: seq<byte>)
    ensures Parsed([], [], input, 0, 0)
  {
    NothingRead();
    NoTokens([]);
    hide Reads, Expand;
    assert input[..0] == [];
  }

  /** The last block: everything is decoded. */
  lemma EndParsed(S: seq<bool>, S': seq<bool>, W: seq<bool>, toks: seq<Token>, input: seq<byte>, B: int)
    requires Parsed(S, toks, input, B, |input|) && S <= S' <= W
    requires BlockAt(S', |S|, true, input[..B], input[..B] + input[B..])
    ensures forall T :: W <= T ==> Inflated(T, 0) == Some((input, |S'|))
  {
    hide Expand, Expands, BlockAt, Reads, Inflated;
    assert input[..B] + input[B..] == input;
    forall T | W <= T
      ensures Inflated(T, 0) == Some((input, |S'|))
    {
      assert S' <= T;
      LastBlockRead(S, S', T, input[..B], input);
    }
  }
}
