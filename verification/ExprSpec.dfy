/** expr: what the operators compute, what a list of arguments means read from left to right, and that a printed
    expression tree means what the tree does. */
module ExprSpec {
  import opened Options

  datatype Val = Int(i: int) | Str(s: string)

  /** The : operator on two strings; None when the pattern is not one. */
  type Colon = (string, string) -> Option<Val>

  // ---- Coercions

  predicate IsSpace(c: char) { c == ' ' || ('\t' <= c && c <= '\r') }

  predicate IsDigit(c: char) { '0' <= c && c <= '9' }

  function DigitsFrom(s: string, acc: int): int {
    if s == "" || !IsDigit(s[0]) then acc else DigitsFrom(s[1..], 10 * acc + (s[0] as int - '0' as int))
  }

  /** atoi: leading space, a sign, and the digits there are. */
  function Atoi(s: string): int {
    if s == "" then 0
    else if IsSpace(s[0]) then Atoi(s[1..])
    else if s[0] == '-' then -DigitsFrom(s[1..], 0)
    else if s[0] == '+' then DigitsFrom(s[1..], 0)
    else DigitsFrom(s, 0)
  }

  function Decimal(n: nat): string {
    if n < 10 then [('0' as int + n) as char] else Decimal(n / 10) + [('0' as int + n % 10) as char]
  }

  /** printf's %d. */
  function Printed(i: int): string { if i < 0 then "-" + Decimal(-i) else Decimal(i) }

  function ToInt(v: Val): int { if v.Int? then v.i else Atoi(v.s) }

  function ToStr(v: Val): string { if v.Int? then Printed(v.i) else v.s }

  predicate IsNull(v: Val) { if v.Int? then v.i == 0 else v.s == "" || v.s == "0" }

  // ---- Operators

  /** The level of precedence of an operator, from | at 0 to : at 5; none for other words. */
  function OpLevel(t: string): int {
    if t == "|" then 0
    else if t == "&" then 1
    else if t == "<" || t == "<=" || t == "=" || t == "==" || t == "!=" || t == ">=" || t == ">" then 2
    else if t == "+" || t == "-" then 3
    else if t == "*" || t == "/" || t == "%" then 4
    else if t == ":" then 5
    else -1
  }

  function Truth(b: bool): Val { Int(if b then 1 else 0) }

  /** C's division truncates toward zero. */
  function Quotient(a: int, b: int): int
    requires b != 0
  {
    if a >= 0 then a / b else -((-a) / b)
  }

  function Compare(t: string, a: int, b: int): bool {
    if t == "<" then a < b
    else if t == "<=" then a <= b
    else if t == "=" || t == "==" then a == b
    else if t == "!=" then a != b
    else if t == ">=" then a >= b
    else a > b
  }

  /** What an operator makes of two values; None is an error. Both operands of a comparison are made integers. */
  function Apply(c: Colon, t: string, l: Val, r: Val): Option<Val> {
    if OpLevel(t) == 0 then Some(if IsNull(l) then r else l)
    else if OpLevel(t) == 1 then Some(if IsNull(l) || IsNull(r) then Int(0) else l)
    else if OpLevel(t) == 2 then Some(Truth(Compare(t, ToInt(l), ToInt(r))))
    else if t == "+" then Some(Int(ToInt(l) + ToInt(r)))
    else if t == "-" then Some(Int(ToInt(l) - ToInt(r)))
    else if t == "*" then Some(Int(ToInt(l) * ToInt(r)))
    else if t == "/" then (if ToInt(r) == 0 then None else Some(Int(Quotient(ToInt(l), ToInt(r)))))
    else if t == "%" then (if ToInt(r) == 0 then None else Some(Int(ToInt(l) - ToInt(r) * Quotient(ToInt(l), ToInt(r)))))
    else c(ToStr(l), ToStr(r))
  }

  predicate IsKeyword(t: string) { t == "quote" || t == "length" || t == "match" || t == "index" || t == "substr" }

  /** strcspn: how many characters of s come before one of t. */
  function Span(s: string, t: string): (n: nat)
    ensures n <= |s|
  {
    if s == "" || s[0] in t then 0 else 1 + Span(s[1..], t)
  }

  function IndexIn(s: string, t: string): int { if Span(s, t) == |s| then 0 else Span(s, t) + 1 }

  function Substring(s: string, i: int, n: int): string {
    if i > |s| || i <= 0 || n <= 0 then ""
    else if i - 1 + n <= |s| then s[i - 1..i - 1 + n]
    else s[i - 1..]
  }

  // ---- What the arguments mean, read by the functions eval (level 0) to eval7

  function EvalAt(c: Colon, k: nat, ts: seq<string>): (r: Option<(Val, seq<string>)>)
    requires k <= 7
    ensures r.Some? ==> |r.value.1| < |ts|
    decreases |ts|, 2 * (10 - k)
  {
    if k <= 5 then
      match EvalAt(c, k + 1, ts)
      case None => None
      case Some((l, rest)) => Loop(c, k, l, rest)
    else if k == 6 then EvalKeyword(c, ts)
    else if ts == [] then None
    else if ts[0] == "(" then
      match EvalAt(c, 0, ts[1..])
      case None => None
      case Some((v, rest)) => if rest != [] && rest[0] == ")" then Some((v, rest[1..])) else None
    else if ts[0] == ")" then None
    else Some((Str(ts[0]), ts[1..]))
  }

  /** Operators of level k, from left to right. */
  function Loop(c: Colon, k: nat, l: Val, ts: seq<string>): (r: Option<(Val, seq<string>)>)
    requires k <= 5
    ensures r.Some? ==> |r.value.1| <= |ts|
    decreases |ts|, 0
  {
    if ts == [] || OpLevel(ts[0]) != k then Some((l, ts))
    else
      match EvalAt(c, k + 1, ts[1..])
      case None => None
      case Some((r, rest)) =>
        match Apply(c, ts[0], l, r)
        case None => None
        case Some(v) => Loop(c, k, v, rest)
  }

  function EvalKeyword(c: Colon, ts: seq<string>): (r: Option<(Val, seq<string>)>)
    ensures r.Some? ==> |r.value.1| < |ts|
    decreases |ts|, 7
  {
    if ts == [] || !IsKeyword(ts[0]) then EvalAt(c, 7, ts)
    else if ts[0] == "quote" then (if |ts| < 2 then None else Some((Str(ts[1]), ts[2..])))
    else
      match EvalAt(c, 6, ts[1..])
      case None => None
      case Some((a, rest)) =>
        if ts[0] == "length" then Some((Int(|ToStr(a)|), rest))
        else
          match EvalAt(c, 6, rest)
          case None => None
          case Some((b, rest')) =>
            if ts[0] == "match" then
              match c(ToStr(a), ToStr(b))
              case None => None
              case Some(v) => Some((v, rest'))
            else if ts[0] == "index" then Some((Int(IndexIn(ToStr(a), ToStr(b))), rest'))
            else
              match EvalAt(c, 6, rest')
              case None => None
              case Some((n, rest'')) => Some((Str(Substring(ToStr(a), ToInt(b), ToInt(n))), rest''))
  }

  // ---- Expression trees

  datatype Expr =
    | Operand(word: string)
    | Quoted(word: string)
    | Length(a: Expr)
    | MatchOf(a: Expr, b: Expr)
    | IndexOf(a: Expr, b: Expr)
    | SubstrOf(a: Expr, b: Expr, n: Expr)
    | Binary(op: string, l: Expr, r: Expr)

  /** Operators are operators, and bare operands are neither parentheses nor keywords. */
  predicate WellFormed(e: Expr) {
    match e
    case Operand(s) => s != "(" && s != ")" && !IsKeyword(s)
    case Quoted(_) => true
    case Length(a) => WellFormed(a)
    case MatchOf(a, b) => WellFormed(a) && WellFormed(b)
    case IndexOf(a, b) => WellFormed(a) && WellFormed(b)
    case SubstrOf(a, b, n) => WellFormed(a) && WellFormed(b) && WellFormed(n)
    case Binary(op, l, r) => OpLevel(op) >= 0 && WellFormed(l) && WellFormed(r)
  }

  function LevelOf(e: Expr): (k: nat)
    requires WellFormed(e)
    ensures k <= 7
  {
    if e.Binary? then OpLevel(e.op) else if e.Operand? then 7 else 6
  }

  /** The words of a tree where level k is expected: parentheses only where they are needed, operators of one level
      grouped to the left. */
  function Words(e: Expr, k: nat): seq<string>
    requires WellFormed(e) && k <= 7
    decreases e, if LevelOf(e) < k then 1 else 0
  {
    if LevelOf(e) < k then ["("] + Words(e, 0) + [")"]
    else
      match e
      case Operand(s) => [s]
      case Quoted(s) => ["quote", s]
      case Length(a) => ["length"] + Words(a, 6)
      case MatchOf(a, b) => ["match"] + (Words(a, 6) + Words(b, 6))
      case IndexOf(a, b) => ["index"] + (Words(a, 6) + Words(b, 6))
      case SubstrOf(a, b, n) => ["substr"] + (Words(a, 6) + (Words(b, 6) + Words(n, 6)))
      case Binary(op, l, r) => Words(l, OpLevel(op)) + ([op] + Words(r, OpLevel(op) + 1))
  }

  /** The value of a tree; None when some part of it is an error. */
  function Meaning(c: Colon, e: Expr): Option<Val> {
    match e
    case Operand(s) => Some(Str(s))
    case Quoted(s) => Some(Str(s))
    case Length(a) =>
      var x := Meaning(c, a);
      if x.None? then None else Some(Int(|ToStr(x.value)|))
    case MatchOf(a, b) =>
      var x, y := Meaning(c, a), Meaning(c, b);
      if x.None? || y.None? then None else c(ToStr(x.value), ToStr(y.value))
    case IndexOf(a, b) =>
      var x, y := Meaning(c, a), Meaning(c, b);
      if x.None? || y.None? then None else Some(Int(IndexIn(ToStr(x.value), ToStr(y.value))))
    case SubstrOf(a, b, n) =>
      var x, y, z := Meaning(c, a), Meaning(c, b), Meaning(c, n);
      if x.None? || y.None? || z.None? then None else Some(Str(Substring(ToStr(x.value), ToInt(y.value), ToInt(z.value))))
    case Binary(op, l, r) =>
      var x, y := Meaning(c, l), Meaning(c, r);
      if x.None? || y.None? then None else Apply(c, op, x.value, y.value)
  }

  // ---- Reading back what was printed

  /** No operator of a higher level than k comes next. */
  predicate Follows(k: nat, rest: seq<string>) { rest == [] || OpLevel(rest[0]) <= k }

  /** What reading at level k gives after a value: the operators of that level that follow. */
  function After(c: Colon, k: nat, v: Option<Val>, rest: seq<string>): Option<(Val, seq<string>)>
    requires k <= 7
  {
    if v.None? then None else if k <= 5 then Loop(c, k, v.value, rest) else Some((v.value, rest))
  }

  lemma AtLevel(c: Colon, k: nat, ts: seq<string>)
    requires k <= 5
    ensures EvalAt(c, k, ts)
            == match EvalAt(c, k + 1, ts) { case None => None case Some((l, rest)) => Loop(c, k, l, rest) }
  {}

  lemma AtSix(c: Colon, ts: seq<string>)
    ensures EvalAt(c, 6, ts) == EvalKeyword(c, ts)
    ensures ts != [] && !IsKeyword(ts[0]) ==> EvalAt(c, 6, ts) == EvalAt(c, 7, ts)
  {}

  /** Without an operator of level k to come, level k adds nothing to level k + 1. */
  lemma Descend(c: Colon, k: nat, ts: seq<string>, v: Option<Val>, rest: seq<string>)
    requires k <= 6 && Follows(k, rest) && EvalAt(c, k + 1, ts) == After(c, k + 1, v, rest)
    requires k == 6 ==> ts != [] && !IsKeyword(ts[0])
    ensures EvalAt(c, k, ts) == After(c, k, v, rest)
  {
    if k <= 5 {
      AtLevel(c, k, ts);
      AfterNone(c, k + 1, v, rest);
      hide EvalAt, Loop;
    } else {
      AtSix(c, ts);
      hide EvalAt;
    }
  }

  lemma AfterNone(c: Colon, k: nat, v: Option<Val>, rest: seq<string>)
    requires k <= 7 && (rest == [] || OpLevel(rest[0]) < k)
    ensures After(c, k, v, rest) == if v.None? then None else Some((v.value, rest))
  {}

  /** The size of what is left to prove at a level. */
  function Steps(e: Expr, k: nat): nat
    requires WellFormed(e) && k <= 7
  {
    if LevelOf(e) < k then 20 - k else LevelOf(e) - k
  }

  lemma WordsAt(e: Expr, k: nat, rest: seq<string>)
    requires WellFormed(e) && k <= 7
    ensures LevelOf(e) < k ==> Words(e, k) == ["("] + Words(e, 0) + [")"]
    ensures k < LevelOf(e) ==> Words(e, k) == Words(e, k + 1)
    ensures LevelOf(e) < k < 7 ==> Words(e, k) == Words(e, k + 1)
  {}

  /** Printing a tree and reading it at some level reads exactly the tree, with its value. */
  lemma {:induction false} ReadBack(c: Colon, e: Expr, k: nat, rest: seq<string>)
    requires WellFormed(e) && k <= 7 && Follows(k, rest)
    ensures EvalAt(c, k, Words(e, k) + rest) == After(c, k, Meaning(c, e), rest)
    decreases e, Steps(e, k) + 1
  {
    hide *;
    WordsAt(e, k, rest);
    LevelRange(e);
    StepsAre(e, k);
    if LevelOf(e) < k {
      if k < 7 {
        StepsAre(e, k + 1);
        FollowsMore(k, rest);
        ReadBack(c, e, k + 1, rest);
        Parenthesized(Words(e, 0), rest);
        Descend(c, k, Words(e, k) + rest, Meaning(c, e), rest);
      } else {
        StepsAre(e, 0);
        ClosingFollows(rest);
        ReadBack(c, e, 0, [")"] + rest);
        Parenthesized(Words(e, 0), rest);
        InParentheses(c, Words(e, 0), rest, Meaning(c, e));
      }
    } else if k < LevelOf(e) {
      StepsAre(e, k + 1);
      FollowsMore(k, rest);
      ReadBack(c, e, k + 1, rest);
      if k == 6 { OperandStarts(e, rest); }
      Descend(c, k, Words(e, k) + rest, Meaning(c, e), rest);
    } else {
      ReadWhole(c, e, rest);
    }
  }

  lemma LevelRange(e: Expr)
    requires WellFormed(e)
    ensures LevelOf(e) <= 7
  {}

  lemma StepsAre(e: Expr, k: nat)
    requires WellFormed(e) && k <= 7
    ensures Steps(e, k) == if LevelOf(e) < k then 20 - k else LevelOf(e) - k
  {}

  lemma FollowsMore(k: nat, rest: seq<string>)
    requires Follows(k, rest)
    ensures Follows(k + 1, rest)
  {}

  lemma ClosingFollows(rest: seq<string>)
    ensures Follows(0, [")"] + rest)
  {}

  lemma Parenthesized(w: seq<string>, rest: seq<string>)
    ensures var t := ["("] + w + [")"] + rest;
            t != [] && !IsKeyword(t[0]) && t[0] == "(" && t[1..] == w + ([")"] + rest)
  {}

  lemma OperandStarts(e: Expr, rest: seq<string>)
    requires WellFormed(e) && LevelOf(e) == 7
    ensures Words(e, 6) + rest != [] && !IsKeyword((Words(e, 6) + rest)[0])
  {}

  lemma InParentheses(c: Colon, w: seq<string>, rest: seq<string>, v: Option<Val>)
    requires EvalAt(c, 0, w + ([")"] + rest)) == After(c, 0, v, [")"] + rest)
    requires var t := ["("] + w + [")"] + rest;
             t != [] && t[0] == "(" && t[1..] == w + ([")"] + rest)
    ensures EvalAt(c, 7, ["("] + w + [")"] + rest) == After(c, 7, v, rest)
  {
    AfterNone(c, 0, v, [")"] + rest) by { assert ([")"] + rest)[0] == ")" && OpLevel(")") == -1; }
    assert ([")"] + rest)[1..] == rest;
    hide After;
    AfterSeven(c, v, rest);
  }

  lemma AfterSeven(c: Colon, v: Option<Val>, rest: seq<string>)
    ensures After(c, 7, v, rest) == if v.None? then None else Some((v.value, rest))
    ensures After(c, 6, v, rest) == if v.None? then None else Some((v.value, rest))
  {}

  /** At its own level: a word, a keyword with its operands, or an operator between its operands. */
  lemma {:induction false} ReadWhole(c: Colon, e: Expr, rest: seq<string>)
    requires WellFormed(e) && Follows(LevelOf(e), rest)
    ensures EvalAt(c, LevelOf(e), Words(e, LevelOf(e)) + rest) == After(c, LevelOf(e), Meaning(c, e), rest)
    decreases e, 0
  {
    hide EvalAt, Loop, After, Follows, Words, EvalKeyword, Substring, IndexIn, Apply, IsKeyword, OpLevel;
    WordsOf(e);
    FollowsSix(rest);
    match e
    case Operand(s) =>
      ReadWord(c, s, rest);
    case Quoted(s) =>
      ReadQuoted(c, s, rest);
    case Length(a) =>
      ReadBack(c, a, 6, rest);
      ReadLength(c, Words(a, 6), Meaning(c, a), rest);
    case MatchOf(a, b) =>
      FollowsSix(Words(b, 6) + rest);
      ReadBack(c, a, 6, Words(b, 6) + rest);
      ReadBack(c, b, 6, rest);
      ReadTwo(c, "match", Words(a, 6), Words(b, 6), Meaning(c, a), Meaning(c, b), rest);
    case IndexOf(a, b) =>
      FollowsSix(Words(b, 6) + rest);
      ReadBack(c, a, 6, Words(b, 6) + rest);
      ReadBack(c, b, 6, rest);
      ReadTwo(c, "index", Words(a, 6), Words(b, 6), Meaning(c, a), Meaning(c, b), rest);
    case SubstrOf(a, b, n) =>
      FollowsSix(Words(b, 6) + (Words(n, 6) + rest));
      FollowsSix(Words(n, 6) + rest);
      ReadBack(c, a, 6, Words(b, 6) + (Words(n, 6) + rest));
      ReadBack(c, b, 6, Words(n, 6) + rest);
      ReadBack(c, n, 6, rest);
      ReadThree(c, Words(a, 6), Words(b, 6), Words(n, 6), Meaning(c, a), Meaning(c, b), Meaning(c, n), rest);
    case Binary(op, l, r) =>
      var k := LevelOf(e);
      OperatorLevel(op);
      OperatorFollows(op, Words(r, k + 1) + rest);
      FollowsMore(k, rest);
      ReadBack(c, l, k, [op] + (Words(r, k + 1) + rest));
      ReadBack(c, r, k + 1, rest);
      ReadBinary(c, op, Words(l, k), Words(r, k + 1), Meaning(c, l), Meaning(c, r), rest);
  }

  lemma OperatorLevel(op: string)
    ensures OpLevel(op) <= 5
  {}

  lemma OperatorFollows(op: string, more: seq<string>)
    requires OpLevel(op) >= 0
    ensures Follows(OpLevel(op), [op] + more)
  {
    hide OpLevel;
  }

  lemma FollowsSix(rest: seq<string>)
    ensures Follows(6, rest) && Follows(7, rest)
  {}

  /** The words of a tree at its own level. */
  lemma WordsOf(e: Expr)
    requires WellFormed(e)
    ensures Words(e, LevelOf(e)) ==
            match e
            case Operand(s) => [s]
            case Quoted(s) => ["quote", s]
            case Length(a) => ["length"] + Words(a, 6)
            case MatchOf(a, b) => ["match"] + (Words(a, 6) + Words(b, 6))
            case IndexOf(a, b) => ["index"] + (Words(a, 6) + Words(b, 6))
            case SubstrOf(a, b, n) => ["substr"] + (Words(a, 6) + (Words(b, 6) + Words(n, 6)))
            case Binary(op, l, r) => Words(l, OpLevel(op)) + ([op] + Words(r, OpLevel(op) + 1))
  {
    hide OpLevel, IsKeyword;
  }

  lemma ReadWord(c: Colon, s: string, rest: seq<string>)
    requires s != "(" && s != ")"
    ensures EvalAt(c, 7, [s] + rest) == After(c, 7, Some(Str(s)), rest)
  {
    var t := [s] + rest;
    assert t[0] == s && t[1..] == rest;
  }

  lemma ReadQuoted(c: Colon, s: string, rest: seq<string>)
    ensures EvalAt(c, 6, ["quote", s] + rest) == After(c, 6, Some(Str(s)), rest)
  {
    var t := ["quote", s] + rest;
    assert t[0] == "quote" && t[1] == s && t[2..] == rest;
  }

  lemma KeywordStarts(kw: string, w: seq<string>, rest: seq<string>)
    ensures var t := [kw] + w + rest;
            t != [] && t[0] == kw && t[1..] == w + rest
  {}

  lemma ReadLength(c: Colon, w: seq<string>, x: Option<Val>, rest: seq<string>)
    requires EvalAt(c, 6, w + rest) == After(c, 6, x, rest)
    ensures EvalAt(c, 6, ["length"] + w + rest) == After(c, 6, if x.None? then None else Some(Int(|ToStr(x.value)|)), rest)
  {
    hide ToStr, Loop;
    var t := ["length"] + w + rest;
    KeywordStarts("length", w, rest);
    AfterSeven(c, x, rest);
    KeywordOne(c, t);
    hide EvalAt, EvalKeyword;
  }

  lemma KeywordOne(c: Colon, t: seq<string>)
    requires t != [] && t[0] == "length"
    ensures EvalAt(c, 6, t)
            == match EvalAt(c, 6, t[1..]) { case None => None case Some((a, rest)) => Some((Int(|ToStr(a)|), rest)) }
  {
    hide ToStr;
    AtSix(c, t);
  }

  /** What match and index make of their operands. */
  function Two(c: Colon, kw: string, a: Val, b: Val): Option<Val> {
    if kw == "match" then c(ToStr(a), ToStr(b)) else Some(Int(IndexIn(ToStr(a), ToStr(b))))
  }

  lemma KeywordTwo(c: Colon, t: seq<string>)
    requires t != [] && (t[0] == "match" || t[0] == "index")
    ensures EvalAt(c, 6, t)
            == match EvalAt(c, 6, t[1..])
               case None => None
               case Some((a, rest)) =>
                 match EvalAt(c, 6, rest)
                 case None => None
                 case Some((b, rest')) =>
                   match Two(c, t[0], a, b)
                   case None => None
                   case Some(v) => Some((v, rest'))
  {
    hide ToStr, IndexIn;
    AtSix(c, t);
  }

  lemma ReadTwo(c: Colon, kw: string, wa: seq<string>, wb: seq<string>, x: Option<Val>, y: Option<Val>, rest: seq<string>)
    requires kw == "match" || kw == "index"
    requires EvalAt(c, 6, wa + (wb + rest)) == After(c, 6, x, wb + rest) && EvalAt(c, 6, wb + rest) == After(c, 6, y, rest)
    ensures EvalAt(c, 6, [kw] + (wa + wb) + rest)
            == After(c, 6, if x.None? || y.None? then None else Two(c, kw, x.value, y.value), rest)
  {
    hide *;
    var t := [kw] + (wa + wb) + rest;
    KeywordStarts(kw, wa + wb, rest);
    Grouped(wa, wb, rest);
    AfterSeven(c, x, wb + rest);
    AfterSeven(c, y, rest);
    KeywordTwo(c, t);
    if x.Some? && y.Some? { AfterSeven(c, Two(c, kw, x.value, y.value), rest); }
    AfterSeven(c, None, rest);
  }

  lemma Grouped(a: seq<string>, b: seq<string>, rest: seq<string>)
    ensures a + b + rest == a + (b + rest)
  {}

  lemma KeywordThree(c: Colon, t: seq<string>)
    requires t != [] && t[0] == "substr"
    ensures EvalAt(c, 6, t)
            == match EvalAt(c, 6, t[1..])
               case None => None
               case Some((a, rest)) =>
                 match EvalAt(c, 6, rest)
                 case None => None
                 case Some((b, rest')) =>
                   match EvalAt(c, 6, rest')
                   case None => None
                   case Some((n, rest'')) => Some((Str(Substring(ToStr(a), ToInt(b), ToInt(n))), rest''))
  {
    hide ToStr, ToInt, Substring;
    AtSix(c, t);
  }

  lemma ReadThree(c: Colon, wa: seq<string>, wb: seq<string>, wn: seq<string>, x: Option<Val>, y: Option<Val>, z: Option<Val>,
                  rest: seq<string>)
    requires EvalAt(c, 6, wa + (wb + (wn + rest))) == After(c, 6, x, wb + (wn + rest))
    requires EvalAt(c, 6, wb + (wn + rest)) == After(c, 6, y, wn + rest) && EvalAt(c, 6, wn + rest) == After(c, 6, z, rest)
    ensures EvalAt(c, 6, ["substr"] + (wa + (wb + wn)) + rest)
            == After(c, 6, if x.None? || y.None? || z.None? then None
                           else Some(Str(Substring(ToStr(x.value), ToInt(y.value), ToInt(z.value)))), rest)
  {
    hide *;
    var t := ["substr"] + (wa + (wb + wn)) + rest;
    KeywordStarts("substr", wa + (wb + wn), rest);
    Grouped(wa, wb + wn, rest);
    Grouped(wb, wn, rest);
    AfterSeven(c, x, wb + (wn + rest));
    AfterSeven(c, y, wn + rest);
    AfterSeven(c, z, rest);
    KeywordThree(c, t);
    AfterSeven(c, None, rest);
    if x.Some? && y.Some? && z.Some? {
      AfterSeven(c, Some(Str(Substring(ToStr(x.value), ToInt(y.value), ToInt(z.value)))), rest);
    }
  }

  lemma LoopStep(c: Colon, k: nat, l: Val, ts: seq<string>)
    requires k <= 5 && ts != [] && OpLevel(ts[0]) == k
    ensures Loop(c, k, l, ts)
            == match EvalAt(c, k + 1, ts[1..])
               case None => None
               case Some((r, rest)) =>
                 match Apply(c, ts[0], l, r)
                 case None => None
                 case Some(v) => Loop(c, k, v, rest)
  {}

  lemma ReadBinary(c: Colon, op: string, wl: seq<string>, wr: seq<string>, x: Option<Val>, y: Option<Val>, rest: seq<string>)
    requires 0 <= OpLevel(op) <= 5 && Follows(OpLevel(op), rest)
    requires EvalAt(c, OpLevel(op), wl + ([op] + (wr + rest))) == After(c, OpLevel(op), x, [op] + (wr + rest))
    requires EvalAt(c, OpLevel(op) + 1, wr + rest) == After(c, OpLevel(op) + 1, y, rest)
    ensures EvalAt(c, OpLevel(op), wl + ([op] + wr) + rest)
            == After(c, OpLevel(op), if x.None? || y.None? then None else Apply(c, op, x.value, y.value), rest)
  {
    hide *;
    var k := OpLevel(op);
    var ts := [op] + (wr + rest);
    Grouped(wl, [op] + wr, rest);
    Grouped([op], wr, rest);
    assert ts[0] == op && ts[1..] == wr + rest;
    FollowsHead(k, rest);
    AfterNone(c, k + 1, y, rest);
    AfterIs(c, k, x, ts);
    AfterIs(c, k, None, rest);
    if x.Some? {
      LoopStep(c, k, x.value, ts);
      if y.Some? {
        AfterIs(c, k, Apply(c, op, x.value, y.value), rest);
      }
    }
  }

  lemma FollowsHead(k: nat, rest: seq<string>)
    requires Follows(k, rest)
    ensures rest == [] || OpLevel(rest[0]) < k + 1
  {}

  lemma AfterIs(c: Colon, k: nat, v: Option<Val>, rest: seq<string>)
    requires k <= 5
    ensures After(c, k, v, rest) == if v.None? then None else Loop(c, k, v.value, rest)
  {}

  /** A printed tree is read to its last word, and its value is the tree's; reading fails exactly when the tree's
      value is an error. */
  lemma PrintedTree(c: Colon, e: Expr)
    requires WellFormed(e)
    ensures EvalAt(c, 0, Words(e, 0)) == if Meaning(c, e).None? then None else Some((Meaning(c, e).value, []))
  {
    hide *;
    NothingFollows();
    ReadBack(c, e, 0, []);
    assert Words(e, 0) + [] == Words(e, 0);
    AfterNone(c, 0, Meaning(c, e), []);
  }

  lemma NothingFollows()
    ensures Follows(0, [])
  {}
}
