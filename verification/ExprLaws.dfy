/** What expr makes of short argument lists, with its operators named by their words alone: which of two operators binds
    tighter, what each of them computes, and what its conversions between words and numbers do. */
module ExprLaws {
  import opened Options
  import opened ExprSpec

  // ---- Words

  /** A word that stands for itself. */
  predicate Bare(w: string) {
    w != "(" && w != ")" && w != "quote" && w != "length" && w != "match" && w != "index" && w != "substr"
  }

  predicate Multiplies(t: string) { t == "*" || t == "/" || t == "%" }

  predicate Adds(t: string) { t == "+" || t == "-" }

  predicate Compares(t: string) { t == "<" || t == "<=" || t == "=" || t == "==" || t == "!=" || t == ">=" || t == ">" }

  predicate Operator(t: string) { t == "|" || t == "&" || Compares(t) || Adds(t) || Multiplies(t) || t == ":" }

  /** s binds tighter than t. */
  predicate Tighter(s: string, t: string) {
    (t == "|" && (s == "&" || Compares(s) || Adds(s) || Multiplies(s) || s == ":"))
    || (t == "&" && (Compares(s) || Adds(s) || Multiplies(s) || s == ":"))
    || (Compares(t) && (Adds(s) || Multiplies(s) || s == ":"))
    || (Adds(t) && (Multiplies(s) || s == ":"))
    || (Multiplies(t) && s == ":")
  }

  /** s and t bind alike. */
  predicate Alike(s: string, t: string) {
    s == t || (Compares(s) && Compares(t)) || (Adds(s) && Adds(t)) || (Multiplies(s) && Multiplies(t))
  }

  // ---- One operator, and two

  /** The value of the whole argument list. */
  function Whole(v: Option<Val>): Option<(Val, seq<string>)> { if v.None? then None else Some((v.value, [])) }

  function Then(c: Colon, t: string, l: Option<Val>, r: Option<Val>): Option<Val> {
    if l.None? || r.None? then None else Apply(c, t, l.value, r.value)
  }

  lemma OperatorIs(t: string)
    requires Operator(t)
    ensures 0 <= OpLevel(t) <= 5
  {}

  lemma Levels(s: string, t: string)
    ensures Tighter(s, t) ==> Operator(s) && Operator(t) && OpLevel(s) > OpLevel(t)
    ensures Operator(s) && Operator(t) && Alike(s, t) ==> OpLevel(s) == OpLevel(t)
  {}

  lemma OperandWords(w: string, k: nat)
    requires Bare(w) && k <= 7
    ensures WellFormed(Operand(w)) && Words(Operand(w), k) == [w]
  {}

  lemma BinaryWords(t: string, l: Expr, r: Expr, k: nat)
    requires Operator(t) && WellFormed(l) && WellFormed(r) && k <= 7
    ensures 0 <= OpLevel(t) <= 5 && WellFormed(Binary(t, l, r))
    ensures k <= OpLevel(t) ==> Words(Binary(t, l, r), k) == Words(l, OpLevel(t)) + ([t] + Words(r, OpLevel(t) + 1))
  {
    OperatorIs(t);
    hide OpLevel;
  }

  lemma MeaningIs(c: Colon, t: string, l: Expr, r: Expr, w: string)
    ensures Meaning(c, Binary(t, l, r)) == Then(c, t, Meaning(c, l), Meaning(c, r)) && Meaning(c, Operand(w)) == Some(Str(w))
  {
    hide Apply;
  }

  lemma One(c: Colon, a: string, t: string, b: string)
    requires Bare(a) && Bare(b) && Operator(t)
    ensures EvalAt(c, 0, [a, t, b]) == Whole(Apply(c, t, Str(a), Str(b)))
  {
    hide *;
    OperatorIs(t);
    OperandWords(a, OpLevel(t));
    OperandWords(b, OpLevel(t) + 1);
    BinaryWords(t, Operand(a), Operand(b), 0);
    PrintedTree(c, Binary(t, Operand(a), Operand(b)));
    MeaningIs(c, t, Operand(a), Operand(b), a);
    MeaningIs(c, t, Operand(a), Operand(b), b);
    ThenIs(c, t, Some(Str(a)), Some(Str(b)));
    WholeIs(Apply(c, t, Str(a), Str(b)));
    assert [a] + ([t] + [b]) == [a, t, b];
  }

  lemma ThenIs(c: Colon, t: string, l: Option<Val>, r: Option<Val>)
    ensures Then(c, t, l, r) == if l.None? || r.None? then None else Apply(c, t, l.value, r.value)
  {}

  lemma WholeIs(v: Option<Val>)
    ensures Whole(v) == if v.None? then None else Some((v.value, []))
  {}

  /** The operator on the right goes first if it binds tighter. */
  lemma RightFirst(c: Colon, a: string, t: string, b: string, s: string, d: string)
    requires Bare(a) && Bare(b) && Bare(d) && Tighter(s, t)
    ensures EvalAt(c, 0, [a, t, b, s, d]) == Whole(Then(c, t, Some(Str(a)), Apply(c, s, Str(b), Str(d))))
  {
    hide *;
    Levels(s, t);
    OperatorIs(s);
    OperatorIs(t);
    OperandWords(a, OpLevel(t));
    OperandWords(b, OpLevel(s));
    OperandWords(d, OpLevel(s) + 1);
    var e := Binary(s, Operand(b), Operand(d));
    BinaryWords(s, Operand(b), Operand(d), OpLevel(t) + 1);
    BinaryWords(t, Operand(a), e, 0);
    PrintedTree(c, Binary(t, Operand(a), e));
    MeaningIs(c, t, Operand(a), e, a);
    MeaningIs(c, s, Operand(b), Operand(d), b);
    MeaningIs(c, s, Operand(b), Operand(d), d);
    ThenIs(c, s, Some(Str(b)), Some(Str(d)));
    WholeIs(Then(c, t, Some(Str(a)), Apply(c, s, Str(b), Str(d))));
    assert [a] + ([t] + ([b] + ([s] + [d]))) == [a, t, b, s, d];
  }

  /** Otherwise the one on the left does. */
  lemma LeftFirst(c: Colon, a: string, s: string, b: string, t: string, d: string)
    requires Bare(a) && Bare(b) && Bare(d) && Operator(s) && Operator(t) && (Tighter(s, t) || Alike(s, t))
    ensures EvalAt(c, 0, [a, s, b, t, d]) == Whole(Then(c, t, Apply(c, s, Str(a), Str(b)), Some(Str(d))))
  {
    hide *;
    Levels(s, t);
    OperatorIs(s);
    OperatorIs(t);
    OperandWords(a, OpLevel(s));
    OperandWords(b, OpLevel(s) + 1);
    OperandWords(d, OpLevel(t) + 1);
    var e := Binary(s, Operand(a), Operand(b));
    BinaryWords(s, Operand(a), Operand(b), OpLevel(t));
    BinaryWords(t, e, Operand(d), 0);
    PrintedTree(c, Binary(t, e, Operand(d)));
    MeaningIs(c, t, e, Operand(d), d);
    MeaningIs(c, s, Operand(a), Operand(b), a);
    MeaningIs(c, s, Operand(a), Operand(b), b);
    ThenIs(c, s, Some(Str(a)), Some(Str(b)));
    WholeIs(Then(c, t, Apply(c, s, Str(a), Str(b)), Some(Str(d))));
    assert [a] + ([s] + [b]) + ([t] + [d]) == [a, s, b, t, d];
  }

  /** Any two operators are ordered one way. */
  lemma Ordered(s: string, t: string)
    requires Operator(s) && Operator(t)
    ensures (Tighter(s, t) && !Alike(s, t) && !Tighter(t, s)) || (!Tighter(s, t) && Alike(s, t) && !Tighter(t, s))
            || (!Tighter(s, t) && !Alike(s, t) && Tighter(t, s))
  {}

  // ---- What the operators compute

  lemma Computes(c: Colon, l: Val, r: Val)
    ensures Apply(c, "+", l, r) == Some(Int(ToInt(l) + ToInt(r))) && Apply(c, "-", l, r) == Some(Int(ToInt(l) - ToInt(r)))
    ensures Apply(c, "*", l, r) == Some(Int(ToInt(l) * ToInt(r)))
    ensures Apply(c, "/", l, r) == if ToInt(r) == 0 then None else Some(Int(Quotient(ToInt(l), ToInt(r))))
    ensures Apply(c, "%", l, r) == if ToInt(r) == 0 then None else Some(Int(ToInt(l) - ToInt(r) * Quotient(ToInt(l), ToInt(r))))
  {
    hide ToInt, Quotient;
  }

  lemma Number(w: string, i: int)
    ensures ToInt(Str(w)) == Atoi(w) && ToInt(Int(i)) == i
  {}

  /** Sums and differences go from left to right. */
  lemma Sums(c: Colon, a: string, b: string, d: string)
    requires Bare(a) && Bare(b) && Bare(d)
    ensures EvalAt(c, 0, [a, "-", b, "-", d]) == Some((Int((Atoi(a) - Atoi(b)) - Atoi(d)), []))
    ensures EvalAt(c, 0, [a, "-", b, "+", d]) == Some((Int((Atoi(a) - Atoi(b)) + Atoi(d)), []))
    ensures EvalAt(c, 0, [a, "+", b, "-", d]) == Some((Int((Atoi(a) + Atoi(b)) - Atoi(d)), []))
  {
    hide *;
    Classes();
    Number(a, Atoi(a) - Atoi(b));
    Number(b, Atoi(a) + Atoi(b));
    Number(d, 0);
    Computes(c, Str(a), Str(b));
    Computes(c, Int(Atoi(a) - Atoi(b)), Str(d));
    Computes(c, Int(Atoi(a) + Atoi(b)), Str(d));
    LeftFirst(c, a, "-", b, "-", d);
    ThenIs(c, "-", Apply(c, "-", Str(a), Str(b)), Some(Str(d)));
    WholeIs(Apply(c, "-", Int(Atoi(a) - Atoi(b)), Str(d)));
    LeftFirst(c, a, "-", b, "+", d);
    ThenIs(c, "+", Apply(c, "-", Str(a), Str(b)), Some(Str(d)));
    WholeIs(Apply(c, "+", Int(Atoi(a) - Atoi(b)), Str(d)));
    LeftFirst(c, a, "+", b, "-", d);
    ThenIs(c, "-", Apply(c, "+", Str(a), Str(b)), Some(Str(d)));
    WholeIs(Apply(c, "-", Int(Atoi(a) + Atoi(b)), Str(d)));
  }

  /** Products go before sums and differences. */
  lemma ProductsFirst(c: Colon, a: string, b: string, d: string)
    requires Bare(a) && Bare(b) && Bare(d)
    ensures EvalAt(c, 0, [a, "+", b, "*", d]) == Some((Int(Atoi(a) + Atoi(b) * Atoi(d)), []))
    ensures EvalAt(c, 0, [a, "-", b, "*", d]) == Some((Int(Atoi(a) - Atoi(b) * Atoi(d)), []))
    ensures EvalAt(c, 0, [a, "*", b, "+", d]) == Some((Int(Atoi(a) * Atoi(b) + Atoi(d)), []))
    ensures EvalAt(c, 0, [a, "*", b, "-", d]) == Some((Int(Atoi(a) * Atoi(b) - Atoi(d)), []))
  {
    hide *;
    Classes();
    Number(a, Atoi(a) * Atoi(b));
    Number(b, Atoi(b) * Atoi(d));
    Number(d, 0);
    Computes(c, Str(a), Str(b));
    Computes(c, Str(b), Str(d));
    Computes(c, Str(a), Int(Atoi(b) * Atoi(d)));
    Computes(c, Int(Atoi(a) * Atoi(b)), Str(d));
    RightFirst(c, a, "+", b, "*", d);
    ThenIs(c, "+", Some(Str(a)), Apply(c, "*", Str(b), Str(d)));
    WholeIs(Apply(c, "+", Str(a), Int(Atoi(b) * Atoi(d))));
    RightFirst(c, a, "-", b, "*", d);
    ThenIs(c, "-", Some(Str(a)), Apply(c, "*", Str(b), Str(d)));
    WholeIs(Apply(c, "-", Str(a), Int(Atoi(b) * Atoi(d))));
    LeftFirst(c, a, "*", b, "+", d);
    ThenIs(c, "+", Apply(c, "*", Str(a), Str(b)), Some(Str(d)));
    WholeIs(Apply(c, "+", Int(Atoi(a) * Atoi(b)), Str(d)));
    LeftFirst(c, a, "*", b, "-", d);
    ThenIs(c, "-", Apply(c, "*", Str(a), Str(b)), Some(Str(d)));
    WholeIs(Apply(c, "-", Int(Atoi(a) * Atoi(b)), Str(d)));
  }

  /** Division truncates toward zero, its remainder has the sign of the dividend, and dividing by zero is an error. */
  lemma Divisions(c: Colon, a: string, b: string)
    requires Bare(a) && Bare(b)
    ensures Atoi(b) == 0 ==> EvalAt(c, 0, [a, "/", b]) == None && EvalAt(c, 0, [a, "%", b]) == None
    ensures Atoi(b) != 0
            ==> exists q: int, r: int ::
                  EvalAt(c, 0, [a, "/", b]) == Some((Int(q), [])) && EvalAt(c, 0, [a, "%", b]) == Some((Int(r), []))
                  && Truncates(Atoi(a), Atoi(b), q, r)
  {
    hide *;
    Classes();
    One(c, a, "/", b);
    One(c, a, "%", b);
    Number(a, 0);
    Number(b, 0);
    Computes(c, Str(a), Str(b));
    WholeIs(Apply(c, "/", Str(a), Str(b)));
    WholeIs(Apply(c, "%", Str(a), Str(b)));
    if Atoi(b) != 0 { QuotientTruncates(Atoi(a), Atoi(b)); }
  }

  /** a divided by b is q with the remainder r, of which there is only one such pair. */
  predicate Truncates(a: int, b: int, q: int, r: int) {
    a == b * q + r && (a >= 0 ==> 0 <= r) && (a <= 0 ==> r <= 0) && -Abs(b) < r < Abs(b)
  }

  function Abs(b: int): int { if b < 0 then -b else b }

  lemma QuotientTruncates(a: int, b: int)
    requires b != 0
    ensures Truncates(a, b, Quotient(a, b), a - b * Quotient(a, b))
  {
    var n := if a >= 0 then a else -a;
    var q, r := n / b, n % b;
    assert n == b * q + r && 0 <= r < Abs(b);
    if a < 0 { Negated(b, q); }
  }

  lemma Negated(b: int, q: int)
    ensures b * -q == -(b * q)
  {}

  lemma TruncatesOnce(a: int, b: int, q: int, r: int, q': int, r': int)
    requires b != 0 && Truncates(a, b, q, r) && Truncates(a, b, q', r')
    ensures q == q' && r == r'
  {
    Differ(b, q, q');
    if q != q' { Away(b, q - q'); }
  }

  lemma Differ(b: int, q: int, q': int)
    ensures b * (q - q') == b * q - b * q'
  {}

  lemma Away(b: int, d: int)
    requires b != 0 && d != 0
    ensures Abs(b * d) >= Abs(b)
  {
    if b > 0 {
      if d > 0 { assert b * d >= b; } else { assert b * d <= -b; }
    } else {
      if d > 0 { assert b * d <= b; } else { assert b * d >= -b; }
    }
  }

  /** The comparisons are those of the numbers. */
  lemma Comparisons(c: Colon, a: string, b: string)
    requires Bare(a) && Bare(b)
    ensures EvalAt(c, 0, [a, "<", b]) == Some((Int(if Atoi(a) < Atoi(b) then 1 else 0), []))
    ensures EvalAt(c, 0, [a, "<=", b]) == Some((Int(if Atoi(b) < Atoi(a) then 0 else 1), []))
    ensures EvalAt(c, 0, [a, "=", b]) == EvalAt(c, 0, [a, "==", b]) == Some((Int(if Atoi(a) == Atoi(b) then 1 else 0), []))
    ensures EvalAt(c, 0, [a, "!=", b]) == Some((Int(if Atoi(a) == Atoi(b) then 0 else 1), []))
    ensures EvalAt(c, 0, [a, ">=", b]) == Some((Int(if Atoi(a) < Atoi(b) then 0 else 1), []))
    ensures EvalAt(c, 0, [a, ">", b]) == Some((Int(if Atoi(b) < Atoi(a) then 1 else 0), []))
  {
    hide *;
    Classes();
    Number(a, 0);
    Number(b, 0);
    ComparesLess(c, Str(a), Str(b));
    ComparesEqual(c, Str(a), Str(b));
    One(c, a, "<", b);
    One(c, a, "<=", b);
    One(c, a, "=", b);
    One(c, a, "==", b);
    One(c, a, "!=", b);
    One(c, a, ">=", b);
    One(c, a, ">", b);
    WholeIs(Apply(c, "<", Str(a), Str(b)));
    WholeIs(Apply(c, "<=", Str(a), Str(b)));
    WholeIs(Apply(c, "=", Str(a), Str(b)));
    WholeIs(Apply(c, "==", Str(a), Str(b)));
    WholeIs(Apply(c, "!=", Str(a), Str(b)));
    WholeIs(Apply(c, ">=", Str(a), Str(b)));
    WholeIs(Apply(c, ">", Str(a), Str(b)));
  }

  lemma ComparesLess(c: Colon, l: Val, r: Val)
    ensures Apply(c, "<", l, r) == Some(Int(if ToInt(l) < ToInt(r) then 1 else 0))
    ensures Apply(c, "<=", l, r) == Some(Int(if ToInt(r) < ToInt(l) then 0 else 1))
    ensures Apply(c, ">=", l, r) == Some(Int(if ToInt(l) < ToInt(r) then 0 else 1))
    ensures Apply(c, ">", l, r) == Some(Int(if ToInt(r) < ToInt(l) then 1 else 0))
  {
    hide ToInt;
  }

  lemma ComparesEqual(c: Colon, l: Val, r: Val)
    ensures Apply(c, "=", l, r) == Apply(c, "==", l, r) == Some(Int(if ToInt(l) == ToInt(r) then 1 else 0))
    ensures Apply(c, "!=", l, r) == Some(Int(if ToInt(l) == ToInt(r) then 0 else 1))
  {
    hide ToInt;
  }

  /** | gives its first operand unless that is null, & gives it unless either is; only "" and "0" are null words. */
  lemma Truths(c: Colon, a: string, b: string)
    requires Bare(a) && Bare(b)
    ensures EvalAt(c, 0, [a, "|", b]) == Some((Str(if a == "" || a == "0" then b else a), []))
    ensures EvalAt(c, 0, [a, "&", b]) == Some((if a == "" || a == "0" || b == "" || b == "0" then Int(0) else Str(a), []))
  {
    hide *;
    Classes();
    One(c, a, "|", b);
    One(c, a, "&", b);
    Connects(c, Str(a), Str(b));
    Connects(c, Str(b), Str(a));
    WholeIs(Apply(c, "|", Str(a), Str(b)));
    WholeIs(Apply(c, "&", Str(a), Str(b)));
  }

  lemma Connects(c: Colon, l: Val, r: Val)
    ensures Apply(c, "|", l, r) == Some(if IsNull(l) then r else l)
    ensures Apply(c, "&", l, r) == Some(if IsNull(l) || IsNull(r) then Int(0) else l)
    ensures IsNull(l) <==> l == Int(0) || l == Str("") || l == Str("0")
  {}

  // ---- The keywords

  /** match is the operator :, quote gives the next word whatever it is, length counts characters. */
  lemma Keywords(c: Colon, a: string, b: string, n: string)
    requires Bare(a) && Bare(b) && Bare(n)
    ensures EvalAt(c, 0, ["match", a, b]) == EvalAt(c, 0, [a, ":", b]) == Whole(c(a, b))
    ensures EvalAt(c, 0, ["length", a]) == Some((Int(|a|), []))
    ensures EvalAt(c, 0, ["index", a, b]) == Some((Int(IndexIn(a, b)), []))
    ensures EvalAt(c, 0, ["substr", a, b, n]) == Some((Str(Substring(a, Atoi(b), Atoi(n))), []))
  {
    hide *;
    var x, y, z := Operand(a), Operand(b), Operand(n);
    OperandWords(a, 6);
    OperandWords(b, 6);
    OperandWords(n, 6);
    Number(b, 0);
    Number(n, 0);
    KeywordWords(x, y, z);
    KeywordMeanings(c, a, b, n);
    PrintedTree(c, MatchOf(x, y));
    PrintedTree(c, Length(x));
    PrintedTree(c, IndexOf(x, y));
    PrintedTree(c, SubstrOf(x, y, z));
    One5(c, a, b);
    WholeIs(c(a, b));
    assert ["match"] + ([a] + [b]) == ["match", a, b] && ["length"] + [a] == ["length", a] && ["index"] + ([a] + [b]) == ["index", a, b];
    assert ["substr"] + ([a] + ([b] + [n])) == ["substr", a, b, n];
  }

  lemma One5(c: Colon, a: string, b: string)
    requires Bare(a) && Bare(b)
    ensures EvalAt(c, 0, [a, ":", b]) == Whole(c(a, b))
  {
    One(c, a, ":", b);
    ColonIs(c, a, b);
    hide *;
  }

  lemma ColonIs(c: Colon, a: string, b: string)
    ensures Operator(":") && Apply(c, ":", Str(a), Str(b)) == c(a, b)
  {}

  lemma KeywordWords(x: Expr, y: Expr, z: Expr)
    requires WellFormed(x) && WellFormed(y) && WellFormed(z)
    ensures WellFormed(MatchOf(x, y)) && Words(MatchOf(x, y), 0) == ["match"] + (Words(x, 6) + Words(y, 6))
    ensures WellFormed(Length(x)) && Words(Length(x), 0) == ["length"] + Words(x, 6)
    ensures WellFormed(IndexOf(x, y)) && Words(IndexOf(x, y), 0) == ["index"] + (Words(x, 6) + Words(y, 6))
    ensures WellFormed(SubstrOf(x, y, z)) && Words(SubstrOf(x, y, z), 0) == ["substr"] + (Words(x, 6) + (Words(y, 6) + Words(z, 6)))
  {
    hide OpLevel, IsKeyword;
  }

  lemma KeywordMeanings(c: Colon, a: string, b: string, n: string)
    ensures Meaning(c, MatchOf(Operand(a), Operand(b))) == c(a, b) && Meaning(c, Length(Operand(a))) == Some(Int(|a|))
    ensures Meaning(c, IndexOf(Operand(a), Operand(b))) == Some(Int(IndexIn(a, b)))
    ensures Meaning(c, SubstrOf(Operand(a), Operand(b), Operand(n))) == Some(Str(Substring(a, ToInt(Str(b)), ToInt(Str(n)))))
  {
    hide IndexIn, Substring, ToInt;
  }

  /** The place, from 1, of the first character of s that is one of t; 0 if none is. */
  lemma {:induction false} IndexPlace(s: string, t: string)
    ensures IndexIn(s, t) == 0 <==> forall k :: 0 <= k < |s| ==> s[k] !in t
    ensures var i := IndexIn(s, t); i > 0 ==> i <= |s| && s[i - 1] in t && forall k :: 0 <= k < i - 1 ==> s[k] !in t
  {
    SpanPlace(s, t);
  }

  lemma {:induction false} SpanPlace(s: string, t: string)
    ensures forall k :: 0 <= k < Span(s, t) ==> s[k] !in t
    ensures Span(s, t) < |s| ==> s[Span(s, t)] in t
  {
    if s != "" && s[0] !in t {
      SpanPlace(s[1..], t);
      forall k | 0 <= k < Span(s, t)
        ensures s[k] !in t
      {
        if k > 0 { assert s[k] == s[1..][k - 1]; }
      }
    }
  }

  /** The n characters from place i on, or as many as there are; none when i or n is out of range. */
  lemma SubstringOf(s: string, i: int, n: int)
    ensures 1 <= i <= |s| && n >= 1 ==> |Substring(s, i, n)| == (if n < |s| - i + 1 then n else |s| - i + 1)
    ensures !(1 <= i <= |s| && n >= 1) ==> Substring(s, i, n) == ""
    ensures forall k :: 0 <= k < |Substring(s, i, n)| ==> Substring(s, i, n)[k] == s[i - 1 + k]
  {}

  // ---- Numbers as words

  predicate AllDigits(s: string) { forall i :: 0 <= i < |s| ==> '0' <= s[i] <= '9' }

  /** The value of a digit string in base ten. */
  function Digits(s: string): int
    requires AllDigits(s)
  {
    if s == "" then 0 else 10 * Digits(s[..|s| - 1]) + (s[|s| - 1] as nat - '0' as nat)
  }

  /** What printf writes are digits, the first one 0 only for zero, with the number as their value. */
  lemma {:induction false} DecimalIs(n: nat)
    ensures |Decimal(n)| >= 1 && AllDigits(Decimal(n))
    ensures Digits(Decimal(n)) == n && (Decimal(n)[0] == '0' ==> n == 0)
  {
    if n >= 10 {
      DecimalIs(n / 10);
      var d := [('0' as int + n % 10) as char];
      assert (Decimal(n / 10) + d)[..|Decimal(n / 10)|] == Decimal(n / 10);
    } else {
      assert Decimal(n)[..0] == "";
    }
  }

  function Power(n: nat): nat { if n == 0 then 1 else 10 * Power(n - 1) }

  lemma TenTimes(a: int, p: nat, d: int)
    ensures 10 * (a * p + d) == a * (10 * p) + 10 * d
  {}

  lemma {:induction false} ReadsUpTo(s: string, rest: string, acc: int)
    requires AllDigits(s)
    ensures DigitsFrom(s + rest, acc) == DigitsFrom(rest, acc * Power(|s|) + Digits(s))
  {
    if s == "" {
      assert s + rest == rest;
    } else {
      var t, d := s[..|s| - 1], s[|s| - 1..];
      assert s + rest == t + (d + rest);
      ReadsUpTo(t, d + rest, acc);
      assert (d + rest)[0] == s[|s| - 1] && (d + rest)[1..] == rest;
      TenTimes(acc, Power(|t|), Digits(t));
    }
  }
  /** atoi skips blanks, takes a sign, and reads digits up to the first other character; without digits the value is 0. */
  lemma {:induction false} AtoiOf(blanks: string, sign: string, s: string, rest: string)
    requires forall i :: 0 <= i < |blanks| ==> blanks[i] in [' ', '\t', '\n', '\U{0B}', '\U{0C}', '\r']
    requires (sign == "" || sign == "+" || sign == "-") && AllDigits(s) && (rest == "" || !('0' <= rest[0] <= '9'))
    requires s == sign == "" ==> rest == "" || rest[0] !in [' ', '\t', '\n', '\U{0B}', '\U{0C}', '\r', '+', '-']
    ensures Atoi(blanks + (sign + (s + rest))) == if sign == "-" then -Digits(s) else Digits(s)
    decreases |blanks|
  {
    var tail := sign + (s + rest);
    if blanks == "" {
      assert blanks + tail == tail;
      ReadsUpTo(s, rest, 0);
      if sign == "" {
        assert tail == s + rest;
      } else {
        assert tail[1..] == s + rest;
      }
      hide Digits, Power;
    } else {
      assert (blanks + tail)[0] == blanks[0] && (blanks + tail)[1..] == blanks[1..] + tail;
      AtoiOf(blanks[1..], sign, s, rest);
    }
  }

  /** What printf writes is read back as the same number. */
  lemma PrintedBack(i: int)
    ensures Atoi(Printed(i)) == i && (Printed(i)[0] == '-' <==> i < 0)
  {
    var n: nat := if i < 0 then -i else i;
    DecimalIs(n);
    hide Atoi, Decimal, Digits;
    AtoiOf("", if i < 0 then "-" else "", Decimal(n), "");
    assert Decimal(n) + "" == Decimal(n);
    assert "" + (if i < 0 then "-" else "") + Decimal(n) == Printed(i);
    assert "" + ((if i < 0 then "-" else "") + Decimal(n)) == Printed(i);
  }

  lemma Classes()
    ensures Operator("+") && Operator("-") && Operator("*") && Operator("/") && Operator("%") && Operator("|") && Operator("&")
    ensures Operator("<") && Operator("<=") && Operator("=") && Operator("==") && Operator("!=") && Operator(">=") && Operator(">")
    ensures Tighter("*", "+") && Tighter("*", "-") && Tighter("/", "+") && Tighter("/", "-") && Tighter("%", "+") && Tighter("%", "-")
    ensures Alike("+", "+") && Alike("+", "-") && Alike("-", "+") && Alike("-", "-") && Alike("*", "*")
    ensures Alike("/", "*") && Alike("*", "/") && Alike("/", "/") && Alike("*", "%") && Alike("%", "*")
  {}
}
