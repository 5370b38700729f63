/** What deflate looks for at each string, what it takes of that, and which tokens a run of it may therefore have. */
module LazyParsing {
  import opened Bits
  import opened Lz77
  import opened Sums
  import opened Tokens
  import opened HashChains
  import opened Parsing

  const TOO_FAR: nat := 4096
  // configuration_table: the settings for maximum compression
  const GOOD_MATCH: nat := 32
  const MAX_LAZY: nat := 258
  const NICE_MATCH: nat := 258
  const MAX_CHAIN: nat := 4096

  /** How many positions of a chain are looked at. */
  function Tries(prevLength: nat): nat { if prevLength >= GOOD_MATCH then MAX_CHAIN / 4 else MAX_CHAIN }

  lemma Settings(prevLength: nat)
    ensures NIL == 0 < MIN_MATCH == 3 && NICE_MATCH == MAX_LAZY == MAX_MATCH == 258 && MAX_DIST == 32506 < WSIZE == 32768
    ensures MAX_CHAIN == 4096 && Tries(prevLength) == if prevLength >= 32 then 1024 else 4096
    ensures MIN_LOOKAHEAD == MAX_MATCH + MIN_MATCH + 1 && TOO_FAR == 4096 && GOOD_MATCH == 32
  {}

  // ---- Positions with the same hash

  /** The positions from low on whose hash is that of the string at b. */
  ghost function Twins(input: seq<byte>, low: int, b: nat): set<nat> {
    set a: nat | a < b && low <= a && Twin(input, a, b)
  }

  lemma NoTwins(input: seq<byte>, base: nat, cur: nat, b: nat, low: int)
    requires Latest(input, base, b, base + cur) && base + cur < low
    ensures Twins(input, low, b) == {}
  {
    hide Twin;
    assert forall a: nat :: a < b && low <= a ==> !Twin(input, a, b);
  }

  /** Between a position and the one that it is linked to there is none. */
  lemma TwinsSkip(input: seq<byte>, base: nat, cur: nat, next: nat, b: nat, low: int)
    requires SameHash(input, base + cur, b) && Latest(input, base, base + cur, base + next) && base + next < low <= base + cur
    ensures Twins(input, low, b) == Twins(input, base + cur, b)
  {
    hide Twin, SameHash;
    forall a: nat | a < b && low <= a && Twin(input, a, b)
      ensures base + cur <= a
    {
      if a < base + cur { TwinShared(input, a, base + cur, b); }
    }
  }

  /** One more position. */
  lemma TwinsMore(input: seq<byte>, cur: nat, b: nat)
    requires SameHash(input, cur, b) && b + 2 < |input|
    ensures |Twins(input, cur, b)| == |Twins(input, cur + 1, b)| + 1
  {
    hide HashAt;
    assert Twins(input, cur, b) == Twins(input, cur + 1, b) + {cur};
  }

  // ---- One search

  /** From low on no match at b is longer than `most`. */
  ghost predicate Best(input: seq<byte>, low: int, b: nat, most: nat) {
    forall a: nat, n: nat :: low <= a < b && 3 <= n <= 258 && Matches(input, a, b, n) ==> n <= most
  }

  /** The farthest position that may be matched. */
  function Reach(b: nat): nat { if b > MAX_DIST then b - MAX_DIST else 0 }

  /** A search: the length it ends with, how far back that match is, the earliest position it looked at, and the length of
      what is kept of it, 2 for nothing. */
  datatype Search = Search(len: nat, dist: nat, low: nat, kept: nat)

  /** What a search at b for a match of more than q bytes comes to. It looks at the positions with the same hash, the latest
      first, until it is out of reach, has looked at as many as it may, or has a match of the greatest length. Of those it
      takes the longest, and of these the latest. Three bytes are not worth a distance of more than 4096. */
  ghost predicate Sought(input: seq<byte>, b: nat, q: nat, s: Search) {
    b <= |input| && s.low <= b && |Twins(input, s.low, b)| <= Tries(q) && Ended(input, b, q, s)
    && Best(input, s.low, b, Most(q, s.len)) && (s.len > q ==> Genuine(input, b, s))
    && s.kept == if s.len <= q || (s.len == 3 && s.dist > TOO_FAR) then 2 else s.len
  }

  ghost predicate Ended(input: seq<byte>, b: nat, q: nat, s: Search) {
    s.low <= Reach(b) + 1 || |Twins(input, s.low, b)| == Tries(q) || Most(q, s.len) >= 258 || b + Most(q, s.len) >= |input|
  }

  function Most(q: nat, len: nat): nat { if len > q then len else q }

  /** The match is there, not at the first byte of the input, and among those looked at no later one is as long. */
  ghost predicate Genuine(input: seq<byte>, b: nat, s: Search) {
    3 <= s.len <= 258 && 1 <= s.dist <= MAX_DIST && s.low <= b - s.dist && b - s.dist > 0 && Matches(input, b - s.dist, b, s.len)
    && (b + s.len < |input| ==> Best(input, b - s.dist + 1, b, s.len - 1))
  }

  /** Without anything to look at. */
  lemma NothingSought(input: seq<byte>, base: nat, cur: nat, b: nat, q: nat) returns (s: Search)
    requires b <= |input| && q >= 2 && Latest(input, base, b, base + cur) && base + cur < Reach(b) + 1
    ensures Sought(input, b, q, s) && s.kept == 2 && s.len == q
  {
    var low := if Reach(b) + 1 <= b then Reach(b) + 1 else b;
    s := Search(q, 0, low, 2);
    NothingThere(input, base, cur, b, q, low);
    hide Twins, Best, Latest;
  }

  lemma NothingThere(input: seq<byte>, base: nat, cur: nat, b: nat, q: nat, low: nat)
    requires b <= |input| && Latest(input, base, b, base + cur) && low <= b && (base + cur < low || low == b)
    ensures Twins(input, low, b) == {} && Best(input, low, b, q)
  {
    hide Twin, Matches;
    assert forall a: nat :: a < b && low <= a ==> !Twin(input, a, b);
    forall a: nat, n: nat | low <= a < b && 3 <= n <= 258
      ensures !Matches(input, a, b, n)
    {
      if Matches(input, a, b, n) { MatchTwin(input, a, b, n); }
    }
  }

  /** With a match already that cannot be beaten. */
  lemma SearchLeft(input: seq<byte>, b: nat, q: nat) returns (s: Search)
    requires b <= |input| && (q >= 258 || b + q >= |input|)
    ensures Sought(input, b, q, s) && s.kept == 2 && s.len == q
  {
    s := Search(q, 0, b, 2);
    assert Twins(input, b, b) == {};
  }

  lemma BestOf(input: seq<byte>, low: int, b: nat, lookahead: nat, most: nat, n: nat)
    requires Longest(input, low, b, lookahead, most) && b + lookahead <= |input|
    requires lookahead >= 258 || b + lookahead == |input|
    requires n >= most || n >= lookahead
    ensures Best(input, low, b, n)
  {}

  /** A search that went down to low and found nothing longer. */
  lemma NothingFound(input: seq<byte>, b: nat, q: nat, low: nat, lookahead: nat, best: nat) returns (s: Search)
    requires Longest(input, low, b, lookahead, best) && b + lookahead <= |input| && low <= b
    requires lookahead >= 258 || b + lookahead == |input|
    requires |Twins(input, low, b)| <= Tries(q) && best <= 258 && (best <= q || lookahead <= q)
    requires low <= Reach(b) + 1 || |Twins(input, low, b)| == Tries(q) || best >= 258
    ensures Sought(input, b, q, s) && s.kept == 2 && s.len == q
  {
    hide Twins, Best, Longest, Reach;
    s := Search(q, 0, low, 2);
    BestOf(input, low, b, lookahead, best, q);
  }

  /** A search that went down to low, where the latest of the longest matches is dist back. */
  lemma MatchTaken(input: seq<byte>, b: nat, q: nat, low: nat, lookahead: nat, best: nat, dist: nat) returns (s: Search)
    requires Longest(input, low, b, lookahead, best) && b + lookahead <= |input| && 2 <= q < best <= 258 && q < lookahead
    requires lookahead >= 258 || b + lookahead == |input|
    requires |Twins(input, low, b)| <= Tries(q)
    requires low <= Reach(b) + 1 || |Twins(input, low, b)| == Tries(q) || best >= 258
    requires 1 <= dist <= MAX_DIST && low <= b - dist && b - dist > 0 && Longest(input, b - dist + 1, b, lookahead, best - 1)
    requires Matches(input, b - dist, b, if best < lookahead then best else lookahead)
    ensures var len := if best < lookahead then best else lookahead;
            Sought(input, b, q, s) && s.len == len && s.dist == dist && s.kept == if len == 3 && dist > TOO_FAR then 2 else len
  {
    hide Twins, Best, Longest, Reach, Matches;
    var len := if best < lookahead then best else lookahead;
    s := Search(len, dist, low, if len == 3 && dist > TOO_FAR then 2 else len);
    BestOf(input, low, b, lookahead, best, len);
    if b + len < |input| { BestOf(input, b - dist + 1, b, lookahead, best - 1, len - 1); }
  }

  // ---- A run

  /** Where token k begins. */
  function Place(toks: seq<Token>, k: nat): nat
    requires k <= |toks|
  {
    |Expand([], toks, k)|
  }

  /** The search for token k is for matches longer than what the byte before was given up for; there is one search for each
      token, and one more while a string is undecided. */
  ghost predicate SearchedFor(input: seq<byte>, toks: seq<Token>, trace: seq<Search>, k: nat)
    requires k < |trace| <= |toks| + 1
  {
    Sought(input, Place(toks, k), if k == 0 || toks[k - 1].Match? then 2 else trace[k - 1].kept, trace[k])
  }

  /** A match is what was found for it, and the next string has no longer one; a literal stands where there was nothing to
      keep, or where the next string has a longer match. */
  ghost predicate Chosen(input: seq<byte>, toks: seq<Token>, trace: seq<Search>, k: nat)
    requires k < |toks| <= |trace|
  {
    match toks[k]
    case Literal(_) => trace[k].kept < 3 || (k + 1 < |trace| && trace[k + 1].kept > trace[k].kept)
    case Match(len, dist) =>
      len == trace[k].kept >= 3 && dist == trace[k].dist && Unbeaten(input, Place(toks, k) + 1, len)
  }

  /** A search at b for a match of more than q bytes has nothing to keep that is longer. */
  ghost predicate Unbeaten(input: seq<byte>, b: nat, q: nat) {
    exists s: Search :: NoBetter(input, b, q, s)
  }

  ghost predicate NoBetter(input: seq<byte>, b: nat, q: nat, s: Search) { Sought(input, b, q, s) && s.kept <= q }

  /** The tokens of a lazy parse. */
  ghost predicate Lazily(input: seq<byte>, toks: seq<Token>, trace: seq<Search>) {
    |toks| <= |trace| <= |toks| + 1
    && (forall k :: 0 <= k < |trace| ==> SearchedFor(input, toks, trace, k)) && (forall k :: 0 <= k < |toks| ==> Chosen(input, toks, trace, k))
  }

  lemma SoughtKept(input: seq<byte>, b: nat, q: nat, s: Search)
    requires Sought(input, b, q, s)
    ensures s.kept == 2 || 3 <= s.kept <= 258
  {
    hide Twins, Best, Matches;
  }

  lemma UnbeatenBy(input: seq<byte>, b: nat, q: nat, s: Search)
    requires Sought(input, b, q, s) && s.kept <= q
    ensures Unbeaten(input, b, q)
  {
    hide Sought;
    assert NoBetter(input, b, q, s);
  }

  lemma SoughtGenuine(input: seq<byte>, b: nat, q: nat, s: Search)
    requires Sought(input, b, q, s)
    ensures s.kept >= 3 ==> 1 <= s.dist <= MAX_DIST && Matches(input, b - s.dist, b, s.kept)
  {
    hide Twins, Best, Matches;
  }

  lemma LazyStart(input: seq<byte>)
    ensures Lazily(input, [], [])
  {}

  lemma PlaceKept(toks: seq<Token>, t: Token, k: nat)
    requires k <= |toks|
    ensures Place(toks + [t], k) == Place(toks, k)
  {
    ExpandKept([], toks, t, k);
    hide Expand;
  }

  /** One more search. */
  lemma LazySearch(input: seq<byte>, toks: seq<Token>, trace: seq<Search>, s: Search)
    requires Lazily(input, toks, trace) && |trace| == |toks|
    requires toks == [] || toks[|toks| - 1].Match?
    requires Sought(input, Place(toks, |toks|), 2, s)
    ensures Lazily(input, toks, trace + [s])
  {
    hide Sought, Place, Unbeaten;
    var more := trace + [s];
    forall k | 0 <= k < |more|
      ensures SearchedFor(input, toks, more, k)
    {
      if k < |trace| { assert SearchedFor(input, toks, trace, k); }
    }
    forall k | 0 <= k < |toks|
      ensures Chosen(input, toks, more, k)
    {
      assert Chosen(input, toks, trace, k);
    }
  }

  /** One more token, with the searches up to it. */
  lemma LazyToken(input: seq<byte>, toks: seq<Token>, trace: seq<Search>, t: Token)
    requires Lazily(input, toks, trace) && |trace| == |toks| + 1
    requires match t
             case Literal(_) => trace[|toks|].kept < 3
             case Match(len, dist) =>
               len == trace[|toks|].kept >= 3 && dist == trace[|toks|].dist && Unbeaten(input, Place(toks, |toks|) + 1, len)
    ensures Lazily(input, toks + [t], trace)
  {
    hide Sought, Unbeaten;
    KeptSearches(input, toks, trace, t);
    KeptChoices(input, toks, trace, trace, t);
    PlaceKept(toks, t, |toks|);
    assert Chosen(input, toks + [t], trace, |toks|) by { hide Place; }
    hide Place;
  }

  lemma KeptSearches(input: seq<byte>, toks: seq<Token>, trace: seq<Search>, t: Token)
    requires Lazily(input, toks, trace)
    ensures forall k :: 0 <= k < |trace| ==> SearchedFor(input, toks + [t], trace, k)
  {
    hide Sought, Place, Chosen;
    forall k | 0 <= k < |trace|
      ensures SearchedFor(input, toks + [t], trace, k)
    {
      PlaceKept(toks, t, k);
      assert SearchedFor(input, toks, trace, k);
      assert k > 0 ==> (toks + [t])[k - 1] == toks[k - 1];
    }
  }

  lemma KeptChoices(input: seq<byte>, toks: seq<Token>, trace: seq<Search>, more: seq<Search>, t: Token)
    requires Lazily(input, toks, trace) && trace <= more
    ensures |more| > |toks| ==> forall k :: 0 <= k < |toks| ==> Chosen(input, toks + [t], more, k)
  {
    hide Sought, Place, Unbeaten, SearchedFor;
    if |more| > |toks| {
      forall k | 0 <= k < |toks|
        ensures Chosen(input, toks + [t], more, k)
      {
        PlaceKept(toks, t, k);
        assert Chosen(input, toks, trace, k);
        assert (toks + [t])[k] == toks[k];
      }
    }
  }

  /** A literal, and the search at the string after it. */
  lemma LazyLiteral(input: seq<byte>, toks: seq<Token>, trace: seq<Search>, c: byte, s: Search)
    requires Lazily(input, toks, trace) && |trace| == |toks| + 1
    requires Sought(input, Place(toks, |toks|) + 1, trace[|toks|].kept, s)
    requires trace[|toks|].kept < 3 || s.kept > trace[|toks|].kept
    ensures Lazily(input, toks + [Literal(c)], trace + [s])
  {
    hide Sought, Unbeaten;
    var t, more := Literal(c), trace + [s];
    KeptSearches(input, toks, trace, t);
    KeptChoices(input, toks, trace, more, t);
    PlaceAfter(toks, c);
    hide Place;
    forall k | 0 <= k < |more|
      ensures SearchedFor(input, toks + [t], more, k)
    {
      if k < |trace| { assert SearchedFor(input, toks + [t], trace, k); }
    }
    assert Chosen(input, toks + [t], more, |toks|);
  }

  lemma PlaceAfter(toks: seq<Token>, c: byte)
    ensures Place(toks + [Literal(c)], |toks| + 1) == Place(toks, |toks|) + 1
  {
    ExpandKept([], toks, Literal(c), |toks|);
    assert (toks + [Literal(c)])[|toks|] == Literal(c);
  }

  // ---- What that means for a token

  /** Few enough positions with the hash of b are in reach for a search to come to all of them, whatever it is for. */
  ghost predicate Uncrowded(input: seq<byte>, b: nat) {
    |Twins(input, Reach(b) + 1, b)| < 1024
  }

  lemma {:induction false} SubsetSize(a: set<nat>, b: set<nat>)
    requires a <= b
    ensures |a| <= |b|
  {
    if a != {} {
      var x :| x in a;
      SubsetSize(a - {x}, b - {x});
    }
  }

  /** Such a search leaves nothing longer in reach. */
  lemma AllLookedAt(input: seq<byte>, b: nat, q: nat, s: Search, a: nat, n: nat)
    requires Sought(input, b, q, s) && Uncrowded(input, b) && Reach(b) < a < b && 3 <= n <= 258 && Matches(input, a, b, n)
    ensures n <= Most(q, s.len)
  {
    hide Matches, Twins, Reach;
    LowReached(input, b, q, s);
    if s.low <= Reach(b) + 1 {
      assert s.low <= a;
    } else {
      MatchEnds(input, a, b, n);
    }
  }

  lemma MatchEnds(input: seq<byte>, a: nat, b: nat, n: nat)
    requires Matches(input, a, b, n)
    ensures b + n <= |input|
  {}

  lemma LowReached(input: seq<byte>, b: nat, q: nat, s: Search)
    requires Sought(input, b, q, s) && Uncrowded(input, b)
    ensures s.low <= Reach(b) + 1 || Most(q, s.len) >= 258 || b + Most(q, s.len) >= |input|
  {
    hide Best, Genuine;
    if s.low > Reach(b) + 1 {
      assert Twins(input, s.low, b) <= Twins(input, Reach(b) + 1, b);
      SubsetSize(Twins(input, s.low, b), Twins(input, Reach(b) + 1, b));
    }
  }

  /** Where a literal stands and there is a match in reach of four bytes or more, a longer one was found for the next string. */
  lemma LiteralMeans(input: seq<byte>, toks: seq<Token>, trace: seq<Search>, k: nat, a: nat, n: nat)
    requires Lazily(input, toks, trace) && |trace| == |toks| && k < |toks| && toks[k].Literal? && Uncrowded(input, Place(toks, k))
    requires Reach(Place(toks, k)) < a < Place(toks, k) && 4 <= n <= 258 && Matches(input, a, Place(toks, k), n)
    ensures k + 1 < |toks| && trace[k + 1].kept > n
  {
    hide Sought, Matches, Place, Uncrowded;
    assert SearchedFor(input, toks, trace, k) && Chosen(input, toks, trace, k);
    var q := if k == 0 || toks[k - 1].Match? then 2 else trace[k - 1].kept;
    AllLookedAt(input, Place(toks, k), q, trace[k], a, n);
    KeptIs(input, Place(toks, k), q, trace[k]);
    if k > 0 { assert Chosen(input, toks, trace, k - 1); }
  }

  /** Where a match stands, no match in reach is longer there or at the next string, and no nearer one is as long, unless it
      goes on to the end of the input. */
  lemma MatchMeans(input: seq<byte>, toks: seq<Token>, trace: seq<Search>, k: nat, a: nat, n: nat)
    requires Lazily(input, toks, trace) && |trace| == |toks| && k < |toks| && toks[k].Match? && 3 <= n <= 258
    ensures var b := Place(toks, k);
            Uncrowded(input, b) && Reach(b) < a < b && Matches(input, a, b, n) ==> n <= toks[k].len
    ensures var b := Place(toks, k);
            b - toks[k].dist < a < b && b + toks[k].len < |input| && Matches(input, a, b, n) ==> n < toks[k].len
    ensures var b := Place(toks, k) + 1;
            Uncrowded(input, b) && Reach(b) < a < b && Matches(input, a, b, n) ==> n <= toks[k].len
  {
    hide Sought, Matches, Place, Uncrowded, Reach;
    assert SearchedFor(input, toks, trace, k) && Chosen(input, toks, trace, k);
    var q := if k == 0 || toks[k - 1].Match? then 2 else trace[k - 1].kept;
    var b := Place(toks, k);
    KeptIs(input, b, q, trace[k]);
    LatestTaken(input, b, q, trace[k], a, n);
    if Uncrowded(input, b) && Reach(b) < a < b && Matches(input, a, b, n) { AllLookedAt(input, b, q, trace[k], a, n); }
    var s: Search :| NoBetter(input, b + 1, toks[k].len, s);
    KeptIs(input, b + 1, toks[k].len, s);
    if Uncrowded(input, b + 1) && Reach(b + 1) < a < b + 1 && Matches(input, a, b + 1, n) {
      AllLookedAt(input, b + 1, toks[k].len, s, a, n);
    }
  }

  lemma LatestTaken(input: seq<byte>, b: nat, q: nat, s: Search, a: nat, n: nat)
    requires Sought(input, b, q, s) && s.len > q
    ensures b - s.dist < a < b && b + s.len < |input| && 3 <= n <= 258 && Matches(input, a, b, n) ==> n < s.len
  {
    hide Matches, Twins;
  }

  lemma KeptIs(input: seq<byte>, b: nat, q: nat, s: Search)
    requires Sought(input, b, q, s)
    ensures s.kept == if s.len <= q || (s.len == 3 && s.dist > TOO_FAR) then 2 else s.len
  {}

  // ---- A small run

  lemma FewTwins(input: seq<byte>, low: int, b: nat)
    requires b < 1024
    ensures |Twins(input, low, b)| < 1024
  {
    hide Twin;
    SmallSet(Twins(input, low, b), b);
  }

  /** A token, and the search for it. */
  lemma TokenFacts(input: seq<byte>, toks: seq<Token>, trace: seq<Search>, k: nat)
    requires Lazily(input, toks, trace) && k < |toks|
    ensures k < |trace| && Sought(input, Place(toks, k), if k == 0 || toks[k - 1].Match? then 2 else trace[k - 1].kept, trace[k])
    ensures toks[k].Literal? ==> trace[k].kept < 3 || (k + 1 < |trace| && trace[k + 1].kept > trace[k].kept)
    ensures toks[k].Match? ==> toks[k].len == trace[k].kept >= 3 && toks[k].dist == trace[k].dist
  {
    hide Sought, Unbeaten, Place;
    assert SearchedFor(input, toks, trace, k) && Chosen(input, toks, trace, k);
  }

  /** What is kept of a search was found before b, and there is that much input. */
  lemma KeptGenuine(input: seq<byte>, b: nat, q: nat, s: Search)
    requires Sought(input, b, q, s)
    ensures s.kept == 2 || (s.kept == s.len >= 3 && 1 <= s.dist < b && b + s.len <= |input|)
  {
    hide Twins, Best;
  }

  lemma PlaceNext(input: seq<byte>, toks: seq<Token>, trace: seq<Search>, k: nat)
    requires Lazily(input, toks, trace) && k < |toks|
    ensures toks[k].Match? ==> toks[k].len >= 3
    ensures Place(toks, k + 1) == Place(toks, k) + if toks[k].Literal? then 1 else toks[k].len
  {
    hide Sought, Lazily;
    TokenFacts(input, toks, trace, k);
    KeptGenuine(input, Place(toks, k), if k == 0 || toks[k - 1].Match? then 2 else trace[k - 1].kept, trace[k]);
  }

  lemma {:induction false} PlacesGrow(input: seq<byte>, toks: seq<Token>, trace: seq<Search>, k: nat, n: nat)
    requires Lazily(input, toks, trace) && k <= n <= |toks|
    ensures Place(toks, n) >= Place(toks, k) + (n - k)
    decreases n
  {
    hide Lazily, Place;
    if k < n {
      PlacesGrow(input, toks, trace, k, n - 1);
      PlaceNext(input, toks, trace, n - 1);
    }
  }

  /** The tokens go on as long as there is input. */
  lemma Growth(input: seq<byte>, toks: seq<Token>, trace: seq<Search>, k: nat)
    requires Lazily(input, toks, trace) && k <= |toks| && Place(toks, |toks|) == |input|
    ensures k < |toks| <==> Place(toks, k) < |input|
    ensures k < |toks| ==> Place(toks, k + 1) == Place(toks, k) + if toks[k].Literal? then 1 else toks[k].len
  {
    hide Lazily, Place;
    PlacesGrow(input, toks, trace, k, |toks|);
    if k < |toks| { PlaceNext(input, toks, trace, k); }
  }

  /** Neither the first byte nor the second has anything before it that it may repeat. */
  lemma NothingYet(input: seq<byte>, toks: seq<Token>, trace: seq<Search>, k: nat)
    requires Lazily(input, toks, trace) && k < |toks| && k <= 1 && Place(toks, k) == k
    ensures |trace| > k && trace[k].kept == 2 && toks[k].Literal?
  {
    hide *;
    TokenFacts(input, toks, trace, k);
    KeptGenuine(input, k, if k == 0 || toks[k - 1].Match? then 2 else trace[k - 1].kept, trace[k]);
  }

  /** The third byte is repeated with all that follows. */
  lemma SixEqual(input: seq<byte>, c: byte, toks: seq<Token>, trace: seq<Search>)
    requires input == [c, c, c, c, c, c, c, c] && Lazily(input, toks, trace) && |trace| == |toks| > 2 && Place(toks, 2) == 2
    requires toks[1].Literal? && trace[1].kept == 2
    ensures toks[2].Match? && toks[2].len == 6 && toks[2].dist == 1
  {
    hide *;
    TokenFacts(input, toks, trace, 2);
    FirstReach(input);
    RepeatsFirst(input, c);
    AllLookedAt(input, 2, 2, trace[2], 1, 6);
    MostIs(2, trace[2].len);
    KeptGenuine(input, 2, 2, trace[2]);
    KeptIs(input, 2, 2, trace[2]);
    if toks[2].Literal? {
      PlaceNext(input, toks, trace, 2);
      TokenFacts(input, toks, trace, 3);
      KeptGenuine(input, 3, trace[2].kept, trace[3]);
    }
  }

  lemma MostIs(q: nat, len: nat)
    ensures Most(q, len) == if len > q then len else q
  {}

  lemma FirstReach(input: seq<byte>)
    ensures Reach(2) == 0 && Uncrowded(input, 2)
  {
    FewTwins(input, Reach(2) + 1, 2);
  }

  lemma RepeatsFirst(input: seq<byte>, c: byte)
    requires input == [c, c, c, c, c, c, c, c]
    ensures Matches(input, 1, 2, 6)
  {}

  /** Eight equal bytes: nothing matches the first byte, so the second is a literal too; the other six repeat it. */
  lemma EightEqual(c: byte, toks: seq<Token>, trace: seq<Search>)
    requires var input := [c, c, c, c, c, c, c, c];
             Lazily(input, toks, trace) && |trace| == |toks| && Expand([], toks, |toks|) == input
    ensures toks == [Literal(c), Literal(c), Match(6, 1)]
  {
    hide *;
    var input: seq<byte> := [c, c, c, c, c, c, c, c];
    PlaceZero(toks);
    Growth(input, toks, trace, 0);
    NothingYet(input, toks, trace, 0);
    Growth(input, toks, trace, 1);
    NothingYet(input, toks, trace, 1);
    Growth(input, toks, trace, 2);
    SixEqual(input, c, toks, trace);
    Growth(input, toks, trace, 3);
    FirstBytes(input, toks);
  }

  lemma PlaceZero(toks: seq<Token>)
    ensures Place(toks, 0) == 0 && Place(toks, |toks|) == |Expand([], toks, |toks|)|
  {}

  /** Two literals at the front stand for the first two bytes. */
  lemma FirstBytes(input: seq<byte>, toks: seq<Token>)
    requires |toks| == 3 && toks[0].Literal? && toks[1].Literal? && toks[2] == Match(6, 1) && Expand([], toks, 3) == input
    ensures |input| == 8 && toks[0].c == input[0] && toks[1].c == input[1]
  {
    var out := Expand([], toks, 2);
    assert Expand([], toks, 1) == [toks[0].c] && out == [toks[0].c, toks[1].c];
    CopyKeeps(out, 1, 6);
  }

  lemma {:induction false} CopyKeeps(out: seq<byte>, dist: nat, n: nat)
    requires 1 <= dist <= |out|
    ensures out <= CopyBytes(out, dist, n)
    decreases n
  {
    if n > 0 { CopyKeeps(out + [out[|out| - dist]], dist, n - 1); }
  }
}
