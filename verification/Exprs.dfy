/** expr: the one-pass evaluator, a cursor over the arguments and one method for each level of precedence. */
module Exprs {
  import opened Options
  import opened ExprSpec

  /** VALUE: an integer or a string, changed in place by the coercions. */
  class Value {
    var isInt: bool
    var i: int
    var s: string

    function Get(): Val
      reads this
    {
      if isInt then Int(i) else Str(s)
    }

    constructor Integer(i: int)
      ensures Get() == Int(i)
    {
      isInt, this.i, s := true, i, "";
    }

    constructor Text(s: string)
      ensures Get() == Str(s)
    {
      isInt, i, this.s := false, 0, s;
    }

    method Null() returns (r: bool)
      ensures r == IsNull(Get())
    {
      r := if isInt then i == 0 else s == "" || s == "0";
    }

    /** toarith: succeeds for every string, for atoi does. */
    method ToArith()
      modifies this
      ensures Get() == Int(ToInt(old(Get())))
    {
      if !isInt {
        i := Atoi(s);
        isInt := true;
      }
    }

    method ToText()
      modifies this
      ensures Get() == Str(ToStr(old(Get())))
    {
      if isInt {
        s := Printed(i);
        isInt := false;
      }
    }
  }

  /** What reading from the cursor gave: null after an error, else a new value, and the words after it. */
  ghost predicate Gave(spec: Option<(Val, seq<string>)>, v: Value?, rest: seq<string>)
    reads if v == null then {} else {v}
  {
    match spec
    case None => v == null
    case Some((x, more)) => v != null && v.Get() == x && rest == more
  }

  predicate IsComparison(t: string) {
    t == "<" || t == "<=" || t == "=" || t == "==" || t == "!=" || t == ">=" || t == ">"
  }

  lemma ComparisonApplies(c: Colon, t: string, l: Val, r: Val)
    requires IsComparison(t)
    ensures Apply(c, t, l, r) == Some(Int(if Compare(t, ToInt(l), ToInt(r)) then 1 else 0))
  {
    hide Compare, ToInt, ToStr;
  }

  class Evaluator {
    const colon: Colon
    const args: seq<string>
    var at: nat

    ghost predicate Valid()
      reads this
    {
      at <= |args|
    }

    /** The words to come. */
    ghost function Rest(): seq<string>
      requires Valid()
      reads this
    {
      args[at..]
    }

    constructor (colon: Colon, args: seq<string>)
      ensures Valid() && this.colon == colon && this.args == args && Rest() == args
    {
      this.colon, this.args, at := colon, args, 0;
    }

    method NextArg(t: string) returns (r: bool)
      requires Valid()
      ensures r == (Rest() != [] && Rest()[0] == t)
    {
      r := at < |args| && args[at] == t;
    }

    method Advance()
      requires Valid() && Rest() != []
      modifies this`at
      ensures Valid() && Rest() == old(Rest())[1..] && at == old(at) + 1
    {
      at := at + 1;
    }

    /** docolon, with the matching itself left to `colon`. */
    method DoColon(sv: Value, pv: Value) returns (v: Value?)
      modifies sv, pv
      requires sv != pv
      ensures match colon(ToStr(old(sv.Get())), ToStr(old(pv.Get())))
              case None => v == null
              case Some(x) => v != null && fresh(v) && v.Get() == x
    {
      sv.ToText();
      pv.ToText();
      var r := colon(sv.s, pv.s);
      if r.None? {
        v := null;
      } else if r.value.Int? {
        v := new Value.Integer(r.value.i);
      } else {
        v := new Value.Text(r.value.s);
      }
    }

    /** less_than, less_equal, equal, not_equal, greater_equal and greater_than, of operands that are integers by then. */
    method Comparison(t: string, l: Value, r: Value) returns (v: Value)
      requires l != r && IsComparison(t)
      modifies l, r
      ensures fresh(v) && Apply(colon, t, old(l.Get()), old(r.Get())) == Some(v.Get())
    {
      hide Atoi, Printed;
      ComparisonApplies(colon, t, l.Get(), r.Get());
      l.ToArith();
      r.ToArith();
      var a, b := l.i, r.i;
      var holds: bool;
      if t == "<" {
        holds := a < b;
      } else if t == "<=" {
        holds := a <= b;
      } else if t == "=" || t == "==" {
        holds := a == b;
      } else if t == "!=" {
        holds := a != b;
      } else if t == ">=" {
        holds := a >= b;
      } else {
        holds := a > b;
      }
      v := new Value.Integer(if holds then 1 else 0);
    }

    /** plus, minus and multiply. */
    method Arithmetic(t: string, l: Value, r: Value) returns (v: Value)
      requires l != r && (t == "+" || t == "-" || t == "*")
      modifies l, r
      ensures fresh(v) && Apply(colon, t, old(l.Get()), old(r.Get())) == Some(v.Get())
    {
      hide Atoi, Printed;
      l.ToArith();
      r.ToArith();
      if t == "+" {
        v := new Value.Integer(l.i + r.i);
      } else if t == "-" {
        v := new Value.Integer(l.i - r.i);
      } else {
        v := new Value.Integer(l.i * r.i);
      }
    }

    /** divide and mod; null after division by zero. */
    method Division(t: string, l: Value, r: Value) returns (v: Value?)
      requires l != r && (t == "/" || t == "%")
      modifies l, r
      ensures match Apply(colon, t, old(l.Get()), old(r.Get()))
              case None => v == null
              case Some(x) => v != null && fresh(v) && v.Get() == x
    {
      hide Atoi, Printed, Quotient;
      l.ToArith();
      r.ToArith();
      var a, b := l.i, r.i;
      if b == 0 {
        v := null;
      } else if t == "/" {
        v := new Value.Integer(Quotient(a, b));
      } else {
        v := new Value.Integer(a - b * Quotient(a, b));
      }
    }

    // ---- The levels

    /** Parentheses and bare operands. */
    method Eval7() returns (v: Value?)
      requires Valid()
      modifies this`at
      ensures Valid() && Gave(EvalAt(colon, 7, old(Rest())), v, Rest()) && (v != null ==> fresh(v) && at > old(at))
      decreases |args| - at, 0
    {
      hide Loop, EvalKeyword;
      if at == |args| {
        return null;
      }
      var open := NextArg("(");
      if open {
        Advance();
        v := Eval();
        if v == null {
          return;
        }
        var closed := NextArg(")");
        if !closed {
          return null;
        }
        Advance();
        return;
      }
      var closed := NextArg(")");
      if closed {
        return null;
      }
      v := new Value.Text(args[at]);
      Advance();
    }

    /** match, substr, index, length and quote. */
    method Eval6() returns (v: Value?)
      requires Valid()
      modifies this`at
      ensures Valid() && Gave(EvalAt(colon, 6, old(Rest())), v, Rest()) && (v != null ==> fresh(v) && at > old(at))
      decreases |args| - at, 1
    {
      hide EvalAt;
      AtSix(colon, Rest());
      if at == |args| || !IsKeyword(args[at]) {
        v := Eval7();
        return;
      }
      var kw := args[at];
      Advance();
      if kw == "quote" {
        if at == |args| {
          return null;
        }
        v := new Value.Text(args[at]);
        Advance();
        return;
      }
      var a := Eval6();
      if a == null {
        return null;
      }
      if kw == "length" {
        a.ToText();
        v := new Value.Integer(|a.s|);
        return;
      }
      var b := Eval6();
      if b == null {
        return null;
      }
      if kw == "match" {
        v := DoColon(a, b);
        return;
      }
      if kw == "index" {
        v := Index(a, b);
        return;
      }
      var n := Eval6();
      if n == null {
        return null;
      }
      v := Substr(a, b, n);
    }

    method Index(l: Value, r: Value) returns (v: Value)
      requires l != r
      modifies l, r
      ensures fresh(v) && v.Get() == Int(IndexIn(ToStr(old(l.Get())), ToStr(old(r.Get()))))
    {
      hide Atoi, Printed, Span;
      l.ToText();
      r.ToText();
      v := new Value.Integer(Span(l.s, r.s) + 1);
      if v.i == |l.s| + 1 {
        v.i := 0;
      }
    }

    method Substr(l: Value, i1: Value, i2: Value) returns (v: Value)
      requires l != i1 && l != i2 && i1 != i2
      modifies l, i1, i2
      ensures fresh(v) && v.Get() == Str(Substring(ToStr(old(l.Get())), ToInt(old(i1.Get())), ToInt(old(i2.Get()))))
    {
      hide Atoi, Printed;
      l.ToText();
      i1.ToArith();
      i2.ToArith();
      if i1.i > |l.s| || i1.i <= 0 || i2.i <= 0 {
        v := new Value.Text("");
      } else {
        var from := l.s[i1.i - 1..];
        v := new Value.Text(if i2.i < |from| then from[..i2.i] else from);
        assert i1.i - 1 + i2.i <= |l.s| ==> from[..i2.i] == l.s[i1.i - 1..i1.i - 1 + i2.i];
      }
    }

    /** The operator :. */
    method Eval5() returns (v: Value?)
      requires Valid()
      modifies this`at
      ensures Valid() && Gave(EvalAt(colon, 5, old(Rest())), v, Rest()) && (v != null ==> fresh(v) && at > old(at))
      decreases |args| - at, 2
    {
      hide EvalAt, Loop, ToStr;
      AtLevel(colon, 5, Rest());
      ghost var spec := EvalAt(colon, 5, Rest());
      var l := Eval6();
      if l == null {
        return null;
      }
      while true
        invariant Valid() && fresh(l) && at > old(at) && Loop(colon, 5, l.Get(), Rest()) == spec
        decreases |args| - at
      {
        LoopOnce(colon, 5, l.Get(), Rest());
        var more := NextArg(":");
        if !more {
          return l;
        }
        Advance();
        var r := Eval6();
        if r == null {
          return null;
        }
        ColonApplies(colon, l.Get(), r.Get());
        var x := DoColon(l, r);
        if x == null {
          return null;
        }
        l := x;
      }
    }

    /** The operators *, / and %. */
    method Eval4() returns (v: Value?)
      requires Valid()
      modifies this`at
      ensures Valid() && Gave(EvalAt(colon, 4, old(Rest())), v, Rest()) && (v != null ==> fresh(v) && at > old(at))
      decreases |args| - at, 3
    {
      hide EvalAt, Loop, Apply;
      AtLevel(colon, 4, Rest());
      ghost var spec := EvalAt(colon, 4, Rest());
      var l: Value? := Eval5();
      if l == null {
        return null;
      }
      while true
        invariant Valid() && l != null && fresh(l) && at > old(at) && Loop(colon, 4, l.Get(), Rest()) == spec
        decreases |args| - at
      {
        LoopOnce(colon, 4, l.Get(), Rest());
        if at == |args| || !(args[at] == "*" || args[at] == "/" || args[at] == "%") {
          return l;
        }
        var t := args[at];
        Advance();
        var r := Eval5();
        if r == null {
          return null;
        }
        if t == "*" {
          l := Arithmetic(t, l, r);
        } else {
          l := Division(t, l, r);
          if l == null {
            return null;
          }
        }
      }
    }

    /** The operators + and -. */
    method Eval3() returns (v: Value?)
      requires Valid()
      modifies this`at
      ensures Valid() && Gave(EvalAt(colon, 3, old(Rest())), v, Rest()) && (v != null ==> fresh(v) && at > old(at))
      decreases |args| - at, 4
    {
      hide EvalAt, Loop, Apply;
      AtLevel(colon, 3, Rest());
      ghost var spec := EvalAt(colon, 3, Rest());
      var l := Eval4();
      if l == null {
        return null;
      }
      while true
        invariant Valid() && l != null && fresh(l) && at > old(at) && Loop(colon, 3, l.Get(), Rest()) == spec
        decreases |args| - at
      {
        LoopOnce(colon, 3, l.Get(), Rest());
        if at == |args| || !(args[at] == "+" || args[at] == "-") {
          return l;
        }
        var t := args[at];
        Advance();
        var r := Eval4();
        if r == null {
          return null;
        }
        l := Arithmetic(t, l, r);
      }
    }

    /** The comparisons. */
    method Eval2() returns (v: Value?)
      requires Valid()
      modifies this`at
      ensures Valid() && Gave(EvalAt(colon, 2, old(Rest())), v, Rest()) && (v != null ==> fresh(v) && at > old(at))
      decreases |args| - at, 5
    {
      hide EvalAt, Loop, Apply;
      AtLevel(colon, 2, Rest());
      ghost var spec := EvalAt(colon, 2, Rest());
      var l := Eval3();
      if l == null {
        return null;
      }
      while true
        invariant Valid() && l != null && fresh(l) && at > old(at) && Loop(colon, 2, l.Get(), Rest()) == spec
        decreases |args| - at
      {
        LoopOnce(colon, 2, l.Get(), Rest());
        if at == |args| || !IsComparison(args[at]) {
          return l;
        }
        var t := args[at];
        Advance();
        var r := Eval3();
        if r == null {
          return null;
        }
        l := Comparison(t, l, r);
      }
    }

    /** The operator &. */
    method Eval1() returns (v: Value?)
      requires Valid()
      modifies this`at
      ensures Valid() && Gave(EvalAt(colon, 1, old(Rest())), v, Rest()) && (v != null ==> fresh(v) && at > old(at))
      decreases |args| - at, 6
    {
      hide EvalAt, Loop;
      AtLevel(colon, 1, Rest());
      ghost var spec := EvalAt(colon, 1, Rest());
      var l := Eval2();
      if l == null {
        return null;
      }
      while true
        invariant Valid() && fresh(l) && at > old(at) && Loop(colon, 1, l.Get(), Rest()) == spec
        decreases |args| - at
      {
        LoopOnce(colon, 1, l.Get(), Rest());
        var more := NextArg("&");
        if !more {
          return l;
        }
        Advance();
        var r := Eval2();
        if r == null {
          return null;
        }
        var nl := l.Null();
        var nr := r.Null();
        if nl || nr {
          l := new Value.Integer(0);
        }
      }
    }

    /** The operator |. */
    method Eval() returns (v: Value?)
      requires Valid()
      modifies this`at
      ensures Valid() && Gave(EvalAt(colon, 0, old(Rest())), v, Rest()) && (v != null ==> fresh(v) && at > old(at))
      decreases |args| - at, 7
    {
      hide EvalAt, Loop;
      AtLevel(colon, 0, Rest());
      ghost var spec := EvalAt(colon, 0, Rest());
      var l := Eval1();
      if l == null {
        return null;
      }
      while true
        invariant Valid() && fresh(l) && at > old(at) && Loop(colon, 0, l.Get(), Rest()) == spec
        decreases |args| - at
      {
        LoopOnce(colon, 0, l.Get(), Rest());
        var more := NextArg("|");
        if !more {
          return l;
        }
        Advance();
        var r := Eval1();
        if r == null {
          return null;
        }
        var n := l.Null();
        if n {
          l := r;
        }
      }
    }
  }

  /** One round of a level's loop, or its end. */
  lemma LoopOnce(c: Colon, k: nat, l: Val, ts: seq<string>)
    requires k <= 5
    ensures ts == [] || OpLevel(ts[0]) != k ==> Loop(c, k, l, ts) == Some((l, ts))
    ensures ts != [] && OpLevel(ts[0]) == k
            ==> Loop(c, k, l, ts)
                == match EvalAt(c, k + 1, ts[1..])
                   case None => None
                   case Some((r, rest)) =>
                     match Apply(c, ts[0], l, r)
                     case None => None
                     case Some(v) => Loop(c, k, v, rest)
    ensures ts != [] ==> (OpLevel(ts[0]) == 5 <==> ts[0] == ":") && (OpLevel(ts[0]) == 1 <==> ts[0] == "&")
                         && (OpLevel(ts[0]) == 0 <==> ts[0] == "|") && (OpLevel(ts[0]) == 2 <==> IsComparison(ts[0]))
                         && (OpLevel(ts[0]) == 3 <==> ts[0] == "+" || ts[0] == "-")
                         && (OpLevel(ts[0]) == 4 <==> ts[0] == "*" || ts[0] == "/" || ts[0] == "%")
  {
    hide EvalAt, Apply;
  }

  lemma ColonApplies(c: Colon, l: Val, r: Val)
    ensures Apply(c, ":", l, r) == c(ToStr(l), ToStr(r))
  {
    hide ToStr, ToInt, Compare;
  }

  /** The whole program: the value of its arguments; None for a syntax or any other error. */
  method ExprMain(colon: Colon, args: seq<string>) returns (result: Option<Val>)
    ensures result == match EvalAt(colon, 0, args) { case None => None case Some((v, rest)) => if rest == [] then Some(v) else None }
  {
    hide EvalAt;
    if args == [] {
      NoArguments(colon);
      return None;
    }
    var e := new Evaluator(colon, args);
    var v := e.Eval();
    if v == null || e.at < |args| {
      return None;
    }
    result := Some(v.Get());
  }

  lemma NoArguments(colon: Colon)
    ensures EvalAt(colon, 0, []) == None
  {
    AtLevel(colon, 0, []);
    AtLevel(colon, 1, []);
    AtLevel(colon, 2, []);
    AtLevel(colon, 3, []);
    AtLevel(colon, 4, []);
    AtLevel(colon, 5, []);
    AtSix(colon, []);
  }

  /** Evaluating the words of an expression tree gives the tree's value, or fails exactly when it is an error. */
  method EvaluatePrinted(colon: Colon, e: Expr) returns (result: Option<Val>)
    requires WellFormed(e)
    ensures result == Meaning(colon, e)
  {
    hide EvalAt, Words, Meaning;
    PrintedTree(colon, e);
    result := ExprMain(colon, Words(e, 0));
  }
}
