/** What `expr` prints for arguments that are neither keywords nor brackets, in terms of numbers and texts. */
module ExprLaws {
  import opened Options
  import opened Expressions
  import opened ExprParsing
  import opened ExprEvaluators

  // ---------- Numbers as texts ----------

  predicate Fits(i: int) { -0x8000_0000_0000_0000 <= i <= 0x7fff_ffff_ffff_ffff }

  lemma {:induction false} DecimalRead(n: nat)
    ensures Digits(Decimal(n)) == Some(n) && Decimal(n) != [] && IsDigit(Decimal(n)[0])
  {
    var s := Decimal(n);
    assert IsDigit(s[|s| - 1]);
    if n >= 10 {
      DecimalRead(n / 10);
      assert s[..|s| - 1] == Decimal(n / 10);
    }
  }

  /** Each number is read back from its text. */
  lemma NumberRead(i: int)
    requires Fits(i)
    ensures Number(Text(Int(i))) == Some(i)
  {
    DecimalRead(Abs(i));
    var s := Text(Int(i));
    hide Digits, Decimal;
    assert SkipSpace(s) == s;
    if i < 0 {
      assert s[1..] == Decimal(Abs(i));
    }
  }

  lemma DigitIs(i: int)
    ensures 0 <= i < 10 ==> Text(Int(i)) == [['0', '1', '2', '3', '4', '5', '6', '7', '8', '9'][i]]
  {
  }

  lemma LastDigit(n: nat)
    requires n >= 10
    ensures Decimal(n) == Decimal(n / 10) + Decimal(n % 10)
  {
  }

  /** The text of a number: its sign if it is negative, and its digits, of which only that of 0 begins with a zero. */
  lemma TextIs(i: int)
    ensures 0 <= i < 10 ==> Text(Int(i)) == [['0', '1', '2', '3', '4', '5', '6', '7', '8', '9'][i]]
    ensures i >= 10 ==> Text(Int(i)) == Text(Int(i / 10)) + Text(Int(i % 10))
    ensures i < 0 ==> Text(Int(i)) == "-" + Text(Int(-i))
  {
    hide Decimal;
    DigitIs(i);
    if i >= 10 {
      LastDigit(i);
    }
  }

  /** Numbers beyond 64 bits stand for the largest or the least one. */
  lemma NumberClamped(n: nat)
    ensures Number(Decimal(n)) == Some(if n > 0x7fff_ffff_ffff_ffff then 0x7fff_ffff_ffff_ffff else n)
    ensures var m: int := n; Number("-" + Decimal(n)) == Some(if m > 0x8000_0000_0000_0000 then -0x8000_0000_0000_0000 else -m)
  {
    DecimalRead(n);
    hide Digits, Decimal;
    assert ("-" + Decimal(n))[1..] == Decimal(n);
  }

  /** White space in front, a plus sign and leading zeros do not matter. */
  lemma SameNumber(c: char, s: string)
    ensures c == ' ' || '\t' <= c <= '\r' ==> Number([c] + s) == Number(s)
    ensures s != "" && '0' <= s[0] <= '9' ==> Number("+" + s) == Number("0" + s) == Number(s)
  {
    assert ([c] + s)[1..] == s && ("+" + s)[1..] == s;
    if s != "" && '0' <= s[0] <= '9' {
      ZeroInFront(s);
      hide Digits;
      assert SkipSpace(s) == s && SkipSpace("+" + s) == "+" + s && SkipSpace("0" + s) == "0" + s;
    }
  }

  lemma {:induction false} ZeroInFront(s: string)
    requires s != ""
    ensures Digits("0" + s) == Digits(s)
  {
    var t := "0" + s;
    assert t[|t| - 1] == s[|s| - 1] && t[..|t| - 1] == "0" + s[..|s| - 1];
    if |s| > 1 {
      ZeroInFront(s[..|s| - 1]);
    } else {
      assert t[..1] == "0" && Digits("0") == Some(0);
    }
  }

  // ---------- Arguments without keywords ----------

  predicate Plain(x: string)
  {
    x !in {"quote", "length", "match", "index", "substr", "(", ")"}
  }

  lemma NumbersArePlain(i: int)
    ensures Plain(Text(Int(i)))
  {
    DecimalRead(Abs(i));
    hide Decimal, Digits;
    var s := Text(Int(i));
    assert s[0] == '-' || IsDigit(s[0]);
    assert "quote"[0] == 'q' && "length"[0] == 'l' && "match"[0] == 'm' && "index"[0] == 'i' && "substr"[0] == 's';
    assert "("[0] == '(' && ")"[0] == ')';
  }

  lemma ReadsPlain(x: string, rest: Tokens, pattern: Pattern)
    requires Plain(x)
    ensures Parse(6, [x] + rest, pattern) == Ok((Str(x), rest))
  {
    hide Join;
    var s := [x] + rest;
    assert s[0] == x && s[1..] == rest;
    assert Parse(6, s, pattern) == Keyword(s, pattern) == Parse(7, s, pattern) == Bare(s, pattern);
  }

  /** What is read at a level is read at the levels below if no operator of theirs follows. */
  lemma {:induction false} Descends(k: nat, j: nat, s: Tokens, r: Result<Value>, rest: Tokens, pattern: Pattern)
    requires j <= k <= 6 && Parse(k, s, pattern) == Then(r, rest) && Ends(j, rest)
    ensures Parse(j, s, pattern) == Then(r, rest)
    decreases k - j
  {
    hide Join, OperatorAt, Keyword, Bare;
    if j < k {
      Descends(k, j + 1, s, r, rest, pattern);
      if r.Ok? {
        JoinEnds(j, r.value, rest, pattern);
      }
    }
  }

  /** The operator applied to a value and what is read after it. */
  function Applied(op: Operator, l: Result<Value>, r: Result<Value>, pattern: Pattern): Result<Value>
  {
    var a :- l;
    var b :- r;
    Apply(op, a, b, pattern)
  }

  lemma JoinsOne(l: Value, op: Operator, t: Tokens, r: Result<Value>, rest: Tokens, pattern: Pattern)
    requires Parse(Level(op) + 1, t, pattern) == Then(r, rest)
    ensures var v := Applied(op, Ok(l), r, pattern);
            Join(Level(op), l, [Token(op)] + t, pattern) == if v.Err? then Err(v.error) else Join(Level(op), v.value, rest, pattern)
  {
    hide Apply, OperatorAt, Keyword, Bare;
    OperatorIs(op, Level(op));
    var s := [Token(op)] + t;
    assert s[0] == Token(op) && s[1..] == t;
  }

  lemma TokenEnds(op: Operator, k: nat, t: Tokens)
    requires k > Level(op)
    ensures Ends(k, [Token(op)] + t)
  {
    forall j | k <= j <= 5
      ensures OperatorAt(j, Token(op)).None?
    {
      OperatorIs(op, j);
    }
  }

  /** What is printed for the value of all arguments. */
  function Printed(r: Result<Value>): Result<Output>
  {
    match r
    case Ok(v) => Ok(Output(Text(v), Null(v)))
    case Err(e) => Err(e)
  }

  lemma ReadsAll(s: Tokens, k: nat, r: Result<Value>, pattern: Pattern)
    requires k <= 6 && s != [] && Parse(k, s, pattern) == Then(r, [])
    ensures Program(s, pattern) == Printed(r)
  {
    hide Parse;
    Descends(k, 0, s, r, [], pattern);
  }

  lemma Infix(x: string, op: Operator, y: string, pattern: Pattern)
    requires Plain(x) && Plain(y)
    ensures Program([x, Token(op), y], pattern) == Printed(Apply(op, Str(x), Str(y), pattern))
  {
    hide Parse, Join, Apply, Ends;
    var k := Level(op);
    NothingEnds(k);
    var r := ReadsOperation(x, op, y, [], pattern);
    assert [x, Token(op), y] == [x] + ([Token(op)] + ([y] + []));
    ReadsAll([x, Token(op), y], k, r, pattern);
  }

  /** Two arguments and the operator between them are read at its level. */
  lemma ReadsOperation(x: string, op: Operator, y: string, rest: Tokens, pattern: Pattern) returns (r: Result<Value>)
    requires Plain(x) && Plain(y) && Ends(Level(op), rest)
    ensures r == Apply(op, Str(x), Str(y), pattern)
    ensures Parse(Level(op), [x] + ([Token(op)] + ([y] + rest)), pattern) == Then(r, rest)
  {
    r := JoinsTo(x, op, y, rest, pattern);
    hide Parse, Join, Apply;
    if r.Ok? {
      JoinEnds(Level(op), r.value, rest, pattern);
    }
  }

  lemma JoinsTo(x: string, op: Operator, y: string, rest: Tokens, pattern: Pattern) returns (r: Result<Value>)
    requires Plain(x) && Plain(y) && Ends(Level(op) + 1, rest)
    ensures r == Apply(op, Str(x), Str(y), pattern)
    ensures Parse(Level(op), [x] + ([Token(op)] + ([y] + rest)), pattern)
         == if r.Err? then Err(r.error) else Join(Level(op), r.value, rest, pattern)
  {
    hide Join, Apply, Keyword, Bare, OperatorAt, Ends;
    var k := Level(op);
    var t := [y] + rest;
    var s := [x] + ([Token(op)] + t);
    r := Apply(op, Str(x), Str(y), pattern);
    ReadsPlain(x, [Token(op)] + t, pattern);
    ReadsPlain(y, rest, pattern);
    TokenEnds(op, k + 1, t);
    Descends(6, k + 1, s, Ok(Str(x)), [Token(op)] + t, pattern);
    Descends(6, k + 1, t, Ok(Str(y)), rest, pattern);
    JoinsOne(Str(x), op, t, Ok(Str(y)), rest, pattern);
  }

  /** Of two operators, the one of the higher level is applied first, and of two of the same level, the first one. */
  lemma Grouping(x: string, p: Operator, y: string, q: Operator, z: string, pattern: Pattern)
    requires Plain(x) && Plain(y) && Plain(z)
    ensures Program([x, Token(p), y, Token(q), z], pattern)
         == Printed(if Level(p) >= Level(q) then Applied(q, Apply(p, Str(x), Str(y), pattern), Ok(Str(z)), pattern)
                    else Applied(p, Ok(Str(x)), Apply(q, Str(y), Str(z), pattern), pattern))
  {
    hide Parse, Join, Apply, Ends;
    var s := [x, Token(p), y, Token(q), z];
    assert s == [x] + ([Token(p)] + ([y] + ([Token(q)] + ([z] + []))));
    if Level(p) >= Level(q) {
      var r := GroupsLeft(x, p, y, q, z, pattern);
      ReadsAll(s, Level(q), r, pattern);
    } else {
      var r := GroupsRight(x, p, y, q, z, pattern);
      ReadsAll(s, Level(p), r, pattern);
    }
  }

  lemma GroupsLeft(x: string, p: Operator, y: string, q: Operator, z: string, pattern: Pattern) returns (r: Result<Value>)
    requires Plain(x) && Plain(y) && Plain(z) && Level(p) >= Level(q)
    ensures r == Applied(q, Apply(p, Str(x), Str(y), pattern), Ok(Str(z)), pattern)
    ensures Parse(Level(q), [x] + ([Token(p)] + ([y] + ([Token(q)] + ([z] + [])))), pattern) == Then(r, [])
  {
    hide Join, Apply, Keyword, Bare, OperatorAt, Ends;
    var i, j := Level(p), Level(q);
    var more := [Token(q)] + ([z] + []);
    var s := [x] + ([Token(p)] + ([y] + more));
    TokenEnds(q, i + 1, [z] + []);
    TokenEnds(q, j + 1, [z] + []);
    NothingEnds(j);
    NothingEnds(j + 1);
    var l: Result<Value>;
    if j < i {
      TokenEnds(q, i, [z] + []);
      l := ReadsOperation(x, p, y, more, pattern);
      Descends(i, j + 1, s, l, more, pattern);
    } else {
      l := JoinsTo(x, p, y, more, pattern);
    }
    r := Applied(q, l, Ok(Str(z)), pattern);
    if l.Ok? {
      ReadsPlain(z, [], pattern);
      Descends(6, j + 1, [z] + [], Ok(Str(z)), [], pattern);
      JoinsOne(l.value, q, [z] + [], Ok(Str(z)), [], pattern);
      if r.Ok? {
        JoinEnds(j, r.value, [], pattern);
      }
    }
  }

  lemma NothingEnds(k: nat)
    ensures Ends(k, [])
  {
  }

  lemma GroupsRight(x: string, p: Operator, y: string, q: Operator, z: string, pattern: Pattern) returns (r: Result<Value>)
    requires Plain(x) && Plain(y) && Plain(z) && Level(p) < Level(q)
    ensures r == Applied(p, Ok(Str(x)), Apply(q, Str(y), Str(z), pattern), pattern)
    ensures Parse(Level(p), [x] + ([Token(p)] + ([y] + ([Token(q)] + ([z] + [])))), pattern) == Then(r, [])
  {
    hide Join, Apply, Keyword, Bare, OperatorAt, Ends;
    var i, j := Level(p), Level(q);
    var t := [y] + ([Token(q)] + ([z] + []));
    NothingEnds(i);
    NothingEnds(i + 1);
    NothingEnds(j);
    var right := ReadsOperation(y, q, z, [], pattern);
    Descends(j, i + 1, t, right, [], pattern);
    ReadsPlain(x, [Token(p)] + t, pattern);
    TokenEnds(p, i + 1, t);
    Descends(6, i + 1, [x] + ([Token(p)] + t), Ok(Str(x)), [Token(p)] + t, pattern);
    JoinsOne(Str(x), p, t, right, [], pattern);
    r := Applied(p, Ok(Str(x)), right, pattern);
    if r.Ok? {
      JoinEnds(i, r.value, [], pattern);
    }
  }

  /** Brackets around an operation make one operand of it. */
  lemma ReadsBrackets(x: string, p: Operator, y: string, rest: Tokens, pattern: Pattern)
    requires Plain(x) && Plain(y)
    ensures Parse(6, ["("] + ([x] + ([Token(p)] + ([y] + ([")"] + rest)))), pattern) == Then(Apply(p, Str(x), Str(y), pattern), rest)
  {
    hide Join, Apply, OperatorAt;
    var more := [")"] + rest;
    var inner := [x] + ([Token(p)] + ([y] + more));
    var s := ["("] + inner;
    BracketAlone(rest, Level(p));
    BracketAlone(rest, 0);
    var r := ReadsOperation(x, p, y, more, pattern);
    Descends(Level(p), 0, inner, r, more, pattern);
    assert s[0] == "(" && s[1..] == inner && more[0] == ")" && more[1..] == rest;
    assert Parse(6, s, pattern) == Keyword(s, pattern) == Parse(7, s, pattern) == Bare(s, pattern);
  }

  lemma BracketAlone(rest: Tokens, k: nat)
    ensures Ends(k, [")"] + rest)
  {
  }

  /** An operation in brackets is done first, whatever operator follows. */
  lemma BracketsFirst(x: string, p: Operator, y: string, q: Operator, z: string, pattern: Pattern)
    requires Plain(x) && Plain(y) && Plain(z)
    ensures Program(["(", x, Token(p), y, ")", Token(q), z], pattern)
         == Printed(Applied(q, Apply(p, Str(x), Str(y), pattern), Ok(Str(z)), pattern))
  {
    hide Join, Apply, Keyword, Bare, OperatorAt, Ends, Program;
    var j, l := Level(q), Apply(p, Str(x), Str(y), pattern);
    var more := [Token(q)] + ([z] + []);
    var s := ["("] + ([x] + ([Token(p)] + ([y] + ([")"] + more))));
    assert s == ["(", x, Token(p), y, ")", Token(q), z];
    ReadsBrackets(x, p, y, more, pattern);
    TokenEnds(q, j + 1, [z] + []);
    NothingEnds(j);
    NothingEnds(j + 1);
    Descends(6, j + 1, s, l, more, pattern);
    var r := Applied(q, l, Ok(Str(z)), pattern);
    if l.Ok? {
      ReadsPlain(z, [], pattern);
      Descends(6, j + 1, [z] + [], Ok(Str(z)), [], pattern);
      JoinsOne(l.value, q, [z] + [], Ok(Str(z)), [], pattern);
      if r.Ok? {
        JoinEnds(j, r.value, [], pattern);
      }
    }
    ReadsAll(s, j, r, pattern);
  }

  /** No arguments are too few; a closing bracket alone, a missing one and an argument left over are syntax errors. */
  lemma SyntaxErrors(x: string, y: string, pattern: Pattern)
    requires Plain(x) && (forall op :: y != Token(op))
    ensures Program([], pattern) == Err(TooFew) && Program([")"], pattern) == Err(Syntax)
    ensures Program(["(", x], pattern) == Err(Syntax) && Program([x, y], pattern) == Err(Syntax)
  {
    AlienEnds(y);
    hide Join, OperatorAt, Parse, Program;
    ReadsPlain(x, [y], pattern);
    Descends(6, 0, [x] + [y], Ok(Str(x)), [y], pattern);
    assert [x] + [y] == [x, y];
    NotClosed(x, ["(", x], pattern);
    NotOpened([")"], pattern);
    FailsBelow(["(", x], pattern);
    FailsBelow([")"], pattern);
    Programs([x, y], pattern);
    Programs(["(", x], pattern);
    Programs([")"], pattern);
    Programs([], pattern);
  }

  lemma Programs(s: Tokens, pattern: Pattern)
    ensures s == [] ==> Program(s, pattern) == Err(TooFew)
    ensures s != [] && Parse(0, s, pattern).Err? ==> Program(s, pattern) == Err(Parse(0, s, pattern).error)
    ensures s != [] && Parse(0, s, pattern).Ok? && Parse(0, s, pattern).value.1 != [] ==> Program(s, pattern) == Err(Syntax)
  {
  }

  lemma NotClosed(x: string, s: Tokens, pattern: Pattern)
    requires Plain(x) && |s| == 2 && s[0] == "(" && s[1] == x
    ensures Parse(6, s, pattern) == Err(Syntax)
  {
    hide Join, OperatorAt;
    NothingEnds(0);
    ReadsPlain(x, [], pattern);
    Descends(6, 0, [x] + [], Ok(Str(x)), [], pattern);
    assert s[1..] == [x] + [];
    assert Parse(6, s, pattern) == Keyword(s, pattern) == Parse(7, s, pattern) == Bare(s, pattern);
  }

  lemma NotOpened(s: Tokens, pattern: Pattern)
    requires |s| == 1 && s[0] == ")"
    ensures Parse(6, s, pattern) == Err(Syntax)
  {
    assert Parse(6, s, pattern) == Keyword(s, pattern) == Parse(7, s, pattern) == Bare(s, pattern);
  }

  lemma AlienEnds(y: string)
    requires forall op :: y != Token(op)
    ensures Ends(0, [y])
  {
    forall j | 0 <= j <= 5
      ensures OperatorAt(j, y).None?
    {
      OperatorToken(j, y);
    }
  }

  lemma OperatorToken(j: nat, y: string)
    ensures OperatorAt(j, y).Some? ==> Token(OperatorAt(j, y).value) == y
  {
  }

  lemma FailsBelow(s: Tokens, pattern: Pattern)
    requires Parse(6, s, pattern) == Err(Syntax)
    ensures Parse(0, s, pattern) == Err(Syntax)
  {
    NothingEnds(0);
    Descends(6, 0, s, Err(Syntax), [], pattern);
  }

  /** From the operator applied last to the one applied first. */
  lemma LevelsInOrder(op: Operator)
    ensures match Token(op)
            case "|" => Level(op) == 0
            case "&" => Level(op) == 1
            case "+" => Level(op) == 3
            case "-" => Level(op) == 3
            case "*" => Level(op) == 4
            case "/" => Level(op) == 4
            case "%" => Level(op) == 4
            case ":" => Level(op) == 5
            case _ => Level(op) == 2
  {
  }

  // ---------- Arithmetic ----------

  /** An argument that stands for a number. */
  predicate Stands(x: string, i: int)
  {
    Plain(x) && Number(x) == Some(i)
  }

  lemma TextStands(i: int)
    requires Fits(i)
    ensures Stands(Text(Int(i)), i)
  {
    NumberRead(i);
    NumbersArePlain(i);
  }

  function Prints(i: int): Result<Output>
  {
    Ok(Output(Text(Int(i)), i == 0))
  }

  lemma WrapIs(n: int, c: int)
    requires Fits(c) && (n - c) % 0x1_0000_0000_0000_0000 == 0
    ensures Wrap(n) == c
  {
  }

  /** The sum is printed, or the number of 64 bits that differs from it by a multiple of 2^64. */
  lemma SumPrinted(x: string, y: string, a: int, b: int, c: int, pattern: Pattern)
    requires Stands(x, a) && Stands(y, b) && Fits(c) && (a + b - c) % 0x1_0000_0000_0000_0000 == 0
    ensures Program([x, "+", y], pattern) == Prints(c)
  {
    hide Program, Number, Wrap, Text;
    Infix(x, Add, y, pattern);
    WrapIs(a + b, c);
  }

  lemma DifferencePrinted(x: string, y: string, a: int, b: int, d: int, pattern: Pattern)
    requires Stands(x, a) && Stands(y, b) && Fits(d) && (d + b - a) % 0x1_0000_0000_0000_0000 == 0
    ensures Program([x, "-", y], pattern) == Prints(d)
  {
    hide Program, Number, Wrap, Text;
    Infix(x, Subtract, y, pattern);
    assert (a - b - d) % 0x1_0000_0000_0000_0000 == 0;
    WrapIs(a - b, d);
  }

  lemma ProductPrinted(x: string, y: string, a: int, b: int, c: int, pattern: Pattern)
    requires Stands(x, a) && Stands(y, b) && Fits(c) && (a * b - c) % 0x1_0000_0000_0000_0000 == 0
    ensures Program([x, "*", y], pattern) == Prints(c)
  {
    hide Program, Number, Wrap, Text;
    Infix(x, Multiply, y, pattern);
    WrapIs(a * b, c);
  }

  lemma QuotientTruncates(a: int, b: int)
    requires b != 0
    ensures var r := a - b * Quotient(a, b); Abs(r) < Abs(b) && (r != 0 ==> (r < 0) == (a < 0))
  {
    var m, k := Abs(a) / Abs(b), Abs(a) % Abs(b);
    assert Abs(a) == Abs(b) * m + k;
    var q := Quotient(a, b);
    assert b * q == if a < 0 then -(Abs(b) * m) else Abs(b) * m;
  }

  /** Quotient and remainder: the remainder is nearer to zero than the divisor, and on the side of the dividend. */
  lemma QuotientPrinted(x: string, y: string, a: int, b: int, pattern: Pattern) returns (q: int, r: int)
    requires Stands(x, a) && Stands(y, b) && b != 0 && !(a == -0x8000_0000_0000_0000 && b == -1)
    ensures a == b * q + r && Abs(r) < Abs(b) && (r != 0 ==> (r < 0) == (a < 0))
    ensures Program([x, "/", y], pattern) == Prints(q) && Program([x, "%", y], pattern) == Prints(r)
  {
    hide Program, Number, Quotient, Text;
    Infix(x, Divide, y, pattern);
    Infix(x, Modulo, y, pattern);
    QuotientTruncates(a, b);
    q := Quotient(a, b);
    r := a - b * q;
  }

  /** Division fails by zero, and traps for the one quotient that does not fit. */
  lemma DivisionFails(x: string, y: string, token: string, a: int, b: int, pattern: Pattern)
    requires Stands(x, a) && Stands(y, b) && token in {"/", "%"}
    ensures b == 0 ==> Program([x, token, y], pattern) == Err(DivisionByZero)
    ensures a == -0x8000_0000_0000_0000 && b == -1 ==> Program([x, token, y], pattern) == Err(Trapped)
  {
    hide Program, Number, Quotient, Text;
    Infix(x, Divide, y, pattern);
    Infix(x, Modulo, y, pattern);
  }

  lemma NoNumberFails(x: string, op: Operator, y: string, pattern: Pattern)
    requires Plain(x) && Plain(y) && (Number(x).None? || Number(y).None?)
    requires Token(op) in {"+", "-", "*", "/", "%"}
    ensures Program([x, Token(op), y], pattern) == Err(NonNumeric)
  {
    hide Program, Number, Text, Arithmetic;
    Infix(x, op, y, pattern);
  }

  // ---------- Comparisons ----------

  predicate Shows(x: string, token: string, y: string, b: bool, pattern: Pattern)
  {
    Program([x, token, y], pattern) == Ok(if b then Output("1", false) else Output("0", true))
  }

  /** What each comparison prints, given which of the operands is the lesser one. */
  predicate Compared(x: string, y: string, less: bool, equal: bool, pattern: Pattern)
  {
    && Shows(x, "<", y, less, pattern) && Shows(x, "<=", y, less || equal, pattern)
    && Shows(x, "=", y, equal, pattern) && Shows(x, "==", y, equal, pattern) && Shows(x, "!=", y, !equal, pattern)
    && Shows(x, ">=", y, !less, pattern) && Shows(x, ">", y, !less && !equal, pattern)
  }

  lemma OrderShown(x: string, y: string, order: int, pattern: Pattern)
    requires Plain(x) && Plain(y) && order == Order(Str(x), Str(y))
    ensures Compared(x, y, order < 0, order == 0, pattern)
  {
    hide Program, Order;
    Infix(x, Less, y, pattern);
    Infix(x, LessEqual, y, pattern);
    Infix(x, Equal, y, pattern);
    Infix(x, EqualEqual, y, pattern);
    Infix(x, NotEqual, y, pattern);
    Infix(x, GreaterEqual, y, pattern);
    Infix(x, Greater, y, pattern);
    TextIs(0);
    TextIs(1);
  }

  /** Numbers are compared as numbers. */
  lemma NumbersCompared(x: string, y: string, a: int, b: int, pattern: Pattern)
    requires Stands(x, a) && Stands(y, b)
    ensures Compared(x, y, a < b, a == b, pattern)
  {
    hide Compared, Number;
    OrderShown(x, y, Order(Str(x), Str(y)), pattern);
  }

  /** A number is compared with a text as it would be printed. */
  function Spelled(x: string): string
  {
    match Number(x)
    case Some(i) => Text(Int(i))
    case None => x
  }

  /** Texts are compared at their first difference, the end coming before every character. */
  lemma TextsCompared(x: string, y: string, common: string, s: string, t: string, pattern: Pattern)
    requires Plain(x) && Plain(y) && (Number(x).None? || Number(y).None?)
    requires Spelled(x) == common + s && Spelled(y) == common + t && (s == "" || t == "" || s[0] != t[0])
    ensures Compared(x, y, t != "" && (s == "" || s[0] < t[0]), s == "" && t == "", pattern)
  {
    hide Compared, Number;
    CommonStart(common, s, t);
    OrderShown(x, y, StrCmp(Spelled(x), Spelled(y)), pattern);
  }

  lemma {:induction false} CommonStart(common: string, s: string, t: string)
    ensures StrCmp(common + s, common + t) == StrCmp(s, t)
  {
    if common == "" {
      assert common + s == s && common + t == t;
    } else {
      CommonStart(common[1..], s, t);
      assert (common + s)[1..] == common[1..] + s && (common + t)[1..] == common[1..] + t;
    }
  }

  // ---------- Choices, lengths, positions and parts ----------

  /** The first operand unless it is empty or zero, or else the second one. */
  lemma EitherPrinted(x: string, y: string, pattern: Pattern)
    requires Plain(x) && Plain(y)
    ensures Program([x, "|", y], pattern)
         == Ok(if x != "" && x != "0" then Output(x, false) else Output(y, y == "" || y == "0"))
  {
    hide Program;
    Infix(x, Or, y, pattern);
  }

  /** The first operand unless one of them is empty or zero, or else zero. */
  lemma BothPrinted(x: string, y: string, pattern: Pattern)
    requires Plain(x) && Plain(y)
    ensures Program([x, "&", y], pattern)
         == Ok(if x == "" || x == "0" || y == "" || y == "0" then Output("0", true) else Output(x, false))
  {
    hide Program;
    Infix(x, And, y, pattern);
    TextIs(0);
  }

  lemma QuotePrinted(x: string, pattern: Pattern)
    ensures Program(["quote", x], pattern) == Ok(Output(x, x == "" || x == "0"))
  {
    ReadsBack(Quote(x), 0, [], pattern);
    assert Print(Quote(x), 0) + [] == ["quote", x];
    hide Parse, Print;
  }

  lemma LengthPrinted(x: string, pattern: Pattern)
    requires Plain(x)
    ensures Program(["length", x], pattern) == Prints(|x|)
  {
    hide Join, Bare;
    ReadsPlain(x, [], pattern);
    var s := ["length", x];
    assert s[1..] == [x] + [];
    ReadsAll(s, 6, Ok(Int(|x|)), pattern);
  }

  lemma {:induction false} FirstOfIs(s: string, chars: string)
    ensures var n := FirstOf(s, chars);
            1 <= n <= |s| + 1 && (n <= |s| ==> s[n - 1] in chars) && forall i :: 0 <= i < n - 1 ==> s[i] !in chars
  {
    if s != [] && s[0] !in chars {
      FirstOfIs(s[1..], chars);
    }
  }

  /** The first position of a character of the second operand, counted from 1, or 0 if there is none. */
  lemma PositionPrinted(x: string, y: string, pattern: Pattern) returns (n: nat)
    requires Plain(x) && Plain(y)
    ensures Program(["index", x, y], pattern) == Prints(n)
    ensures if n == 0 then forall c :: c in x ==> c !in y
            else n <= |x| && x[n - 1] in y && forall i :: 0 <= i < n - 1 ==> x[i] !in y
  {
    hide Join, Bare, FirstOf, Parse;
    n := FirstOf(x, y);
    FirstOfIs(x, y);
    n := if n == |x| + 1 then 0 else n;
    ReadsTwo("index", x, y, pattern);
    ReadsAll(["index", x, y], 6, Ok(Int(n)), pattern);
  }

  lemma ReadsTwo(keyword: string, x: string, y: string, pattern: Pattern)
    requires keyword in {"index", "match"} && Plain(x) && Plain(y)
    ensures Parse(6, [keyword, x, y], pattern)
         == Then(if keyword == "index" then Ok(IndexIn(Str(x), Str(y))) else pattern(x, y), [])
  {
    hide Join, Bare, IndexIn;
    ReadsPlain(x, [y], pattern);
    ReadsPlain(y, [], pattern);
    var s := [keyword, x, y];
    assert s[1..] == [x] + [y] && [y] + [] == [y];
  }

  /** The keyword and the operator do the same. */
  lemma MatchPrinted(x: string, y: string, pattern: Pattern)
    requires Plain(x) && Plain(y)
    ensures Program(["match", x, y], pattern) == Program([x, ":", y], pattern) == Printed(pattern(x, y))
  {
    hide Join, Bare, Parse, Program;
    Infix(x, Colon, y, pattern);
    ReadsTwo("match", x, y, pattern);
    ReadsAll(["match", x, y], 6, pattern(x, y), pattern);
  }

  /** The part that begins at a position and has as many characters as asked for, or reaches to the end. */
  lemma PartPrinted(x: string, from: string, count: string, i: int, n: int, part: string, pattern: Pattern)
    requires Plain(x) && Stands(from, i) && Stands(count, n) && n <= 0x7fff_ffff
    requires if 1 <= i <= |x| && n >= 1
             then part == if i - 1 + n <= |x| then x[i - 1..i - 1 + n] else x[i - 1..]
             else part == ""
    ensures Program(["substr", x, from, count], pattern) == Ok(Output(part, part == "" || part == "0"))
  {
    hide Join, Bare, Parse, Number;
    ReadsThree(x, from, count, pattern);
    assert SubString(Str(x), Str(from), Str(count)) == Str(part);
    ReadsAll(["substr", x, from, count], 6, Ok(Str(part)), pattern);
  }

  lemma ReadsThree(x: string, from: string, count: string, pattern: Pattern)
    requires Plain(x) && Plain(from) && Plain(count)
    ensures Parse(6, ["substr", x, from, count], pattern) == Ok((SubString(Str(x), Str(from), Str(count)), []))
  {
    hide Join, Bare, SubString;
    ReadsPlain(x, [from, count], pattern);
    ReadsPlain(from, [count], pattern);
    ReadsPlain(count, [], pattern);
    var s := ["substr", x, from, count];
    assert s[1..] == [x] + [from, count] && [from] + [count] == [from, count] && [count] + [] == [count];
  }
}
