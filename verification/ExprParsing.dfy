/** Reading expressions back: what the evaluator makes of a list of arguments. */
module ExprParsing {
  import opened Options
  import opened Expressions

  type Tokens = seq<string>

  /** A value and the arguments that follow it. */
  type Read = Result<(Value, Tokens)>

  /** The operator that a token stands for at level `k`. */
  function OperatorAt(k: nat, token: string): Option<Operator>
  {
    if k == 0 then (if token == "|" then Some(Or) else None)
    else if k == 1 then (if token == "&" then Some(And) else None)
    else if k == 2 then Comparison(token)
    else if k == 3 then (if token == "+" then Some(Add) else if token == "-" then Some(Subtract) else None)
    else if k == 4 then
      (if token == "*" then Some(Multiply) else if token == "/" then Some(Divide)
       else if token == "%" then Some(Modulo) else None)
    else if k == 5 then (if token == ":" then Some(Colon) else None)
    else None
  }

  function Comparison(token: string): Option<Operator>
  {
    if token == "<" then Some(Less)
    else if token == "<=" then Some(LessEqual)
    else if token == "=" then Some(Equal)
    else if token == "==" then Some(EqualEqual)
    else if token == "!=" then Some(NotEqual)
    else if token == ">=" then Some(GreaterEqual)
    else if token == ">" then Some(Greater)
    else None
  }

  /** An operand at level `k`: up to 5, operands of the next level joined by operators from left to right; at 6,
      keywords; at 7, bare arguments and brackets. */
  function Parse(k: nat, s: Tokens, pattern: Pattern): (r: Read)
    requires k <= 7
    ensures r.Ok? ==> |r.value.1| < |s|
    decreases |s|, 8 - k, 1
  {
    if k <= 5 then
      var l :- Parse(k + 1, s, pattern);
      Join(k, l.0, l.1, pattern)
    else if k == 6 then Keyword(s, pattern)
    else Bare(s, pattern)
  }

  /** What follows the first operand at level `k`. */
  function Join(k: nat, l: Value, s: Tokens, pattern: Pattern): (r: Read)
    requires k <= 5
    ensures r.Ok? ==> |r.value.1| <= |s|
    decreases |s|, 8 - k, 0
  {
    if s == [] || OperatorAt(k, s[0]).None? then Ok((l, s))
    else
      var r :- Parse(k + 1, s[1..], pattern);
      var v :- Apply(OperatorAt(k, s[0]).value, l, r.0, pattern);
      Join(k, v, r.1, pattern)
  }

  function Keyword(s: Tokens, pattern: Pattern): (r: Read)
    ensures r.Ok? ==> |r.value.1| < |s|
    decreases |s|, 2, 0
  {
    if s == [] then Parse(7, s, pattern)
    else if s[0] == "quote" then (if |s| == 1 then Err(Syntax) else Ok((Str(s[1]), s[2..])))
    else if s[0] == "length" then
      var a :- Parse(6, s[1..], pattern);
      Ok((Int(|Text(a.0)|), a.1))
    else if s[0] == "match" then
      var a :- Parse(6, s[1..], pattern);
      var b :- Parse(6, a.1, pattern);
      var v :- pattern(Text(a.0), Text(b.0));
      Ok((v, b.1))
    else if s[0] == "index" then
      var a :- Parse(6, s[1..], pattern);
      var b :- Parse(6, a.1, pattern);
      Ok((IndexIn(a.0, b.0), b.1))
    else if s[0] == "substr" then
      var a :- Parse(6, s[1..], pattern);
      var b :- Parse(6, a.1, pattern);
      var c :- Parse(6, b.1, pattern);
      Ok((SubString(a.0, b.0, c.0), c.1))
    else Parse(7, s, pattern)
  }

  function Bare(s: Tokens, pattern: Pattern): (r: Read)
    ensures r.Ok? ==> |r.value.1| < |s|
    decreases |s|, 1, 0
  {
    if s == [] then Err(Syntax)
    else if s[0] == "(" then
      var v :- Parse(0, s[1..], pattern);
      if v.1 == [] || v.1[0] != ")" then Err(Syntax) else Ok((v.0, v.1[1..]))
    else if s[0] == ")" then Err(Syntax)
    else Ok((Str(s[0]), s[1..]))
  }

  // ---------- What is printed is read back ----------

  /** No operator of level `k` or more comes first. */
  predicate Ends(k: nat, s: Tokens)
  {
    s == [] || forall j :: k <= j <= 5 ==> OperatorAt(j, s[0]).None?
  }

  /** A value handed on. */
  function Then(v: Result<Value>, rest: Tokens): Read
  {
    if v.Ok? then Ok((v.value, rest)) else Err(v.error)
  }

  lemma OperatorIs(op: Operator, j: nat)
    ensures OperatorAt(j, Token(op)) == if j == Level(op) then Some(op) else None
  {
  }

  lemma JoinEnds(k: nat, v: Value, s: Tokens, pattern: Pattern)
    requires k <= 5 && Ends(k, s)
    ensures Join(k, v, s, pattern) == Ok((v, s))
  {
  }

  /** Printed at level `k` and read at level `k`, an expression is the first operand there. */
  lemma {:induction false} ReadsFirst(e: Expr, k: nat, rest: Tokens, pattern: Pattern)
    requires k <= 6 && Ends(k + 1, rest)
    ensures Parse(k, Print(e, k) + rest, pattern)
         == if k <= 5 && Meaning(e, pattern).Ok? then Join(k, Meaning(e, pattern).value, rest, pattern)
            else Then(Meaning(e, pattern), rest)
    decreases e, if Bracketed(e, k) then 1 else 0, 8 - k
  {
    if k <= 5 && e.Binary? && Level(e.op) == k {
      ReadsOperator(e, rest, pattern);
    } else if k <= 5 {
      SamePrint(e, k);
      ReadsFirst(e, k + 1, rest, pattern);
      if k + 1 <= 5 && Meaning(e, pattern).Ok? {
        JoinEnds(k + 1, Meaning(e, pattern).value, rest, pattern);
      }
    } else if e.Binary? {
      ReadsBracketed(e, rest, pattern);
    } else {
      ReadsKeyword(e, rest, pattern);
    }
  }

  /** An operand is printed differently only above the level of its operator. */
  lemma SamePrint(e: Expr, k: nat)
    requires !(e.Binary? && Level(e.op) == k)
    ensures Print(e, k) == Print(e, k + 1)
  {
  }

  /** The left operand, the operator, the right operand one level up: what follows is joined to the result. */
  lemma {:induction false} ReadsOperator(e: Expr, rest: Tokens, pattern: Pattern)
    requires e.Binary? && Ends(Level(e.op) + 1, rest)
    ensures Parse(Level(e.op), Print(e, Level(e.op)) + rest, pattern)
         == if Meaning(e, pattern).Ok? then Join(Level(e.op), Meaning(e, pattern).value, rest, pattern)
            else Then(Meaning(e, pattern), rest)
    decreases e, 0, 0
  {
    hide OperatorAt, Keyword, Apply;
    var k, l, r := Level(e.op), e.l, e.r;
    var tail := Print(r, k + 1) + rest;
    var more := [Token(e.op)] + tail;
    assert Print(e, k) + rest == Print(l, k) + more;
    OperatorIs(e.op, k);
    forall j | k + 1 <= j <= 5
      ensures OperatorAt(j, more[0]).None?
    {
      OperatorIs(e.op, j);
    }
    ReadsFirst(l, k, more, pattern);
    if Meaning(l, pattern).Ok? {
      assert more[1..] == tail;
      ReadsFirst(r, k + 1, rest, pattern);
      if k + 1 <= 5 && Meaning(r, pattern).Ok? {
        JoinEnds(k + 1, Meaning(r, pattern).value, rest, pattern);
      }
    }
  }

  lemma {:induction false} ReadsBracketed(e: Expr, rest: Tokens, pattern: Pattern)
    requires e.Binary?
    ensures Parse(6, Print(e, 6) + rest, pattern) == Then(Meaning(e, pattern), rest)
    decreases e, 1, 0
  {
    hide Join, OperatorAt, Meaning;
    var s := Print(e, 6) + rest;
    var inner := [")"] + rest;
    assert s[0] == "(" && s[1..] == Print(e, 0) + inner && inner[1..] == rest;
    assert Parse(6, s, pattern) == Keyword(s, pattern) == Parse(7, s, pattern) == Bare(s, pattern);
    BracketEnds(rest);
    ReadsFirst(e, 0, inner, pattern);
    if Meaning(e, pattern).Ok? {
      JoinEnds(0, Meaning(e, pattern).value, inner, pattern);
    }
  }

  lemma BracketEnds(rest: Tokens)
    ensures Ends(0, [")"] + rest) && Ends(1, [")"] + rest)
  {
  }

  /** Keywords read as many operands as they have. */
  lemma {:induction false} ReadsKeyword(e: Expr, rest: Tokens, pattern: Pattern)
    requires !e.Binary?
    ensures Parse(6, Print(e, 6) + rest, pattern) == Then(Meaning(e, pattern), rest)
    decreases e, 0, 1
  {
    hide Join, OperatorAt, Bare, Text, IndexIn, SubString, Ends;
    NoLevelAbove(rest);
    match e
    case Quote(t) =>
      var s := Print(e, 6) + rest;
      assert s[0] == "quote" && s[1] == t && s[2..] == rest;
    case Length(x) =>
      var s := Print(e, 6) + rest;
      assert s[0] == "length" && s[1..] == Print(x, 6) + rest;
      ReadsFirst(x, 6, rest, pattern);
    case Match(_, _) => ReadsMatch(e, rest, pattern);
    case Index(_, _) => ReadsIndex(e, rest, pattern);
    case Substr(_, _, _) => ReadsSubstr(e, rest, pattern);
  }

  lemma NoLevelAbove(rest: Tokens)
    ensures Ends(7, rest)
  {
  }

  lemma {:induction false} ReadsMatch(e: Expr, rest: Tokens, pattern: Pattern)
    requires e.Match?
    ensures Parse(6, Print(e, 6) + rest, pattern) == Then(Meaning(e, pattern), rest)
    decreases e, 0, 0
  {
    hide Join, OperatorAt, Bare, Text, Ends;
    var s, second := Print(e, 6) + rest, Print(e.p, 6) + rest;
    assert s[0] == "match" && s[1..] == Print(e.e, 6) + second;
    assert Parse(6, s, pattern) == Keyword(s, pattern);
    NoLevelAbove(second);
    NoLevelAbove(rest);
    ReadsFirst(e.e, 6, second, pattern);
    ReadsFirst(e.p, 6, rest, pattern);
  }

  lemma {:induction false} ReadsIndex(e: Expr, rest: Tokens, pattern: Pattern)
    requires e.Index?
    ensures Parse(6, Print(e, 6) + rest, pattern) == Then(Meaning(e, pattern), rest)
    decreases e, 0, 0
  {
    hide Join, OperatorAt, Bare, IndexIn, Ends;
    var s, second := Print(e, 6) + rest, Print(e.chars, 6) + rest;
    assert s[0] == "index" && s[1..] == Print(e.e, 6) + second;
    assert Parse(6, s, pattern) == Keyword(s, pattern);
    NoLevelAbove(second);
    NoLevelAbove(rest);
    ReadsFirst(e.e, 6, second, pattern);
    ReadsFirst(e.chars, 6, rest, pattern);
  }

  lemma SubstrTokens(e: Expr, rest: Tokens)
    requires e.Substr?
    ensures var s := Print(e, 6) + rest;
            s != [] && s[0] == "substr" && s[1..] == Print(e.e, 6) + (Print(e.from, 6) + (Print(e.count, 6) + rest))
  {
    var a, b, c := Print(e.e, 6), Print(e.from, 6), Print(e.count, 6);
    assert Print(e, 6) == ["substr"] + a + b + c;
    hide Print;
    Regroup(["substr"], a, b, c, rest);
    assert (["substr"] + (a + (b + (c + rest))))[1..] == a + (b + (c + rest));
  }

  lemma Regroup(w: Tokens, a: Tokens, b: Tokens, c: Tokens, d: Tokens)
    ensures w + a + b + c + d == w + (a + (b + (c + d)))
  {
    assert w + a + b + c + d == w + a + b + (c + d);
    assert w + a + b + (c + d) == w + a + (b + (c + d));
  }

  lemma {:induction false} ReadsSubstr(e: Expr, rest: Tokens, pattern: Pattern)
    requires e.Substr?
    ensures Parse(6, Print(e, 6) + rest, pattern) == Then(Meaning(e, pattern), rest)
    decreases e, 0, 0
  {
    hide Join, OperatorAt, Bare, SubString, Ends, Apply, Text, IndexIn, Print;
    SubstrTokens(e, rest);
    var s, third := Print(e, 6) + rest, Print(e.count, 6) + rest;
    var second := Print(e.from, 6) + third;
    assert Parse(6, s, pattern) == Keyword(s, pattern);
    hide Parse;
    NoLevelAbove(second);
    NoLevelAbove(third);
    NoLevelAbove(rest);
    ReadsFirst(e.e, 6, second, pattern);
    ReadsFirst(e.from, 6, third, pattern);
    ReadsFirst(e.count, 6, rest, pattern);
  }

  /** Evaluating a printed expression gives its value, and leaves what follows it. */
  lemma ReadsBack(e: Expr, k: nat, rest: Tokens, pattern: Pattern)
    requires k <= 6 && Ends(k, rest)
    ensures Parse(k, Print(e, k) + rest, pattern) == Then(Meaning(e, pattern), rest)
  {
    ReadsFirst(e, k, rest, pattern);
    if k <= 5 && Meaning(e, pattern).Ok? {
      JoinEnds(k, Meaning(e, pattern).value, rest, pattern);
    }
  }
}
