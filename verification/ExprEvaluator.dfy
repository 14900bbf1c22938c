/** The evaluator: functions for the levels that call each other while they move along the arguments. */
module ExprEvaluators {
  import opened Expressions
  import opened ExprParsing

  /** A value that is converted in place. */
  class Cell {
    var v: Value

    constructor (v: Value)
      ensures this.v == v
    {
      this.v := v;
    }

    method ToText()
      modifies this
      ensures v == Str(Text(old(v)))
    {
      if v.Int? {
        v := Str(Text(v));
      }
    }

    /** Becomes a number if it looks like one. */
    method ToArith() returns (ok: bool)
      modifies this
      ensures v == Numeric(old(v)) && ok == Arith(old(v)).Some?
      ensures ok ==> v == Int(Arith(old(v)).value)
    {
      if v.Str? {
        var n := Number(v.s);
        if n.None? {
          return false;
        }
        v := Int(n.value);
      }
      return true;
    }
  }

  /** The sum of the first two characters of a token, by which operators are told apart. */
  function Code(token: string): nat
  {
    (if |token| > 0 then token[0] as nat else 0) + (if |token| > 1 then token[1] as nat else 0)
  }

  /** What a comparison says about an order. */
  predicate Holds(op: Operator, order: int)
  {
    match op
    case Less => order < 0
    case LessEqual => order <= 0
    case NotEqual => order != 0
    case GreaterEqual => order >= 0
    case Greater => order > 0
    case _ => order == 0
  }

  /** Compares values that have been converted to numbers if possible. */
  method CmpCommon(l: Cell, r: Cell, code: nat, ghost op: Operator, ghost a: Value, ghost b: Value) returns (holds: bool)
    requires l != r && l.v == Numeric(a) && r.v == Numeric(b) && Level(op) == 2 && code == Code(Token(op))
    modifies l, r
    ensures holds == Holds(op, Order(a, b))
  {
    var ll, rr;
    if l.v.Str? || r.v.Str? {
      l.ToText();
      r.ToText();
      ll, rr := StrCmp(l.v.s, r.v.s), 0;
    } else {
      ll, rr := l.v.i, r.v.i;
    }
    if code == '<' as nat {
      return ll < rr;
    }
    if code == '<' as nat + '=' as nat {
      return ll <= rr;
    }
    if code == '=' as nat || code == '=' as nat + '=' as nat {
      return ll == rr;
    }
    if code == '!' as nat + '=' as nat {
      return ll != rr;
    }
    if code == '>' as nat {
      return ll > rr;
    }
    return ll >= rr;
  }

  method ArithmeticCommon(l: Cell, r: Cell, code: nat, ghost op: Operator, ghost pattern: Pattern) returns (n: Result<int>)
    requires l != r && 3 <= Level(op) <= 4 && code == Code(Token(op))
    modifies l, r
    ensures Apply(op, old(l.v), old(r.v), pattern) == if n.Ok? then Ok(Int(n.value)) else Err(n.error)
  {
    hide Numeric;
    var ok := l.ToArith();
    if !ok {
      return Err(NonNumeric);
    }
    ok := r.ToArith();
    if !ok {
      return Err(NonNumeric);
    }
    var li, ri := l.v.i, r.v.i;
    if code == '+' as nat {
      return Ok(Wrap(li + ri));
    }
    if code == '-' as nat {
      return Ok(Wrap(li - ri));
    }
    if code == '*' as nat {
      return Ok(Wrap(li * ri));
    }
    if ri == 0 {
      return Err(DivisionByZero);
    }
    if li == MIN && ri == -1 {
      return Err(Trapped);
    }
    if code == '/' as nat {
      return Ok(Quotient(li, ri));
    }
    return Ok(li - ri * Quotient(li, ri));
  }

  /** Finds a pattern at the beginning of a text. */
  method Docolon(l: Cell, r: Cell, pattern: Pattern) returns (v: Result<Cell>)
    requires l != r
    modifies l, r
    ensures match pattern(Text(old(l.v)), Text(old(r.v)))
            case Ok(x) => v.Ok? && v.value.v == x && fresh(v.value)
            case Err(e) => v == Err(e)
  {
    l.ToText();
    r.ToText();
    var found := pattern(l.v.s, r.v.s);
    if found.Err? {
      return Err(found.error);
    }
    var cell := new Cell(found.value);
    return Ok(cell);
  }

  method IndexOf(l: Cell, r: Cell) returns (v: Result<Cell>)
    requires l != r
    modifies l, r
    ensures v.Ok? && v.value.v == IndexIn(old(l.v), old(r.v)) && fresh(v.value)
  {
    l.ToText();
    r.ToText();
    var n := FirstOf(l.v.s, r.v.s);
    if n == |l.v.s| + 1 {
      n := 0;
    }
    var cell := new Cell(Int(n));
    return Ok(cell);
  }

  /** The first `n` characters, or all of them. */
  method Xstrndup(s: string, n: int) returns (t: string)
    ensures t == First(s, n)
  {
    var m, k := n, 0;
    while m != 0 && k < |s|
      invariant 0 <= k <= |s| && m == n - k && (n >= 0 ==> m >= 0)
      decreases |s| - k
    {
      m, k := m - 1, k + 1;
    }
    t := s[..n - m];
  }

  method Substring(l: Cell, from: Cell, count: Cell) returns (v: Result<Cell>)
    requires l != from && l != count && from != count
    modifies l, from, count
    ensures v.Ok? && v.value.v == SubString(old(l.v), old(from.v), old(count.v)) && fresh(v.value)
  {
    hide Numeric, Number;
    l.ToText();
    var ok := from.ToArith();
    if ok {
      ok := count.ToArith();
    }
    var part := "";
    if ok && from.v.i <= |l.v.s| && from.v.i > 0 && count.v.i > 0 {
      part := Xstrndup(l.v.s[from.v.i - 1..], Wrap32(count.v.i));
    }
    var cell := new Cell(Str(part));
    return Ok(cell);
  }

  /** Keywords by number, 0 for other tokens. */
  function KeyOf(token: string): nat
  {
    if token == "quote" then 1
    else if token == "length" then 2
    else if token == "match" then 3
    else if token == "index" then 4
    else if token == "substr" then 5
    else 0
  }

  /** What a level does with its left and right operands. */
  method Combine(k: nat, l: Cell, r: Cell, code: nat, pattern: Pattern, ghost op: Operator) returns (v: Result<Cell>)
    requires l != r && k == Level(op) && code == Code(Token(op))
    modifies l, r
    ensures match Apply(op, old(l.v), old(r.v), pattern)
            case Ok(x) => v.Ok? && v.value.v == x && (v.value in {l, r} || fresh(v.value))
            case Err(e) => v == Err(e)
  {
    hide Numeric, Order, Arithmetic, Arith;
    if k == 0 {
      return Ok(if Null(l.v) then r else l);
    } else if k == 1 {
      if Null(l.v) || Null(r.v) {
        var zero := new Cell(Int(0));
        return Ok(zero);
      }
      return Ok(l);
    } else if k == 2 {
      var _ := l.ToArith();
      var _ := r.ToArith();
      var holds := CmpCommon(l, r, code, op, old(l.v), old(r.v));
      var truth := new Cell(Int(if holds then 1 else 0));
      return Ok(truth);
    } else if k <= 4 {
      var n := ArithmeticCommon(l, r, code, op, pattern);
      if n.Err? {
        return Err(n.error);
      }
      var number := new Cell(Int(n.value));
      return Ok(number);
    } else {
      v := Docolon(l, r, pattern);
    }
  }

  class Evaluator {
    const all: Tokens
    const pattern: Pattern
    var at: nat

    constructor (all: Tokens, pattern: Pattern)
      ensures this.all == all && this.pattern == pattern && at == 0
    {
      this.all, this.pattern, at := all, pattern, 0;
    }

    ghost predicate Valid()
      reads this
    {
      at <= |all|
    }

    /** The arguments not yet read. */
    ghost function Rest(): Tokens
      requires Valid()
      reads this
    {
      all[at..]
    }

    /** A result is the one expected, and what should be left is left. */
    ghost predicate Done(r: Result<Cell>, expected: Read)
      requires Valid()
      reads this, if r.Ok? then {r.value} else {}
    {
      match expected
      case Ok(x) => r.Ok? && r.value.v == x.0 && Rest() == x.1
      case Err(e) => r.Err? && r.error == e
    }

    /** The code of the token if it comes next, otherwise 0. */
    method NextArg(token: string) returns (code: nat)
      requires Valid() && token != []
      ensures code == if at < |all| && all[at] == token then Code(token) else 0
    {
      if at == |all| || all[at] != token {
        return 0;
      }
      return Code(token);
    }

    /** The operator that comes next at a level. */
    method NextOperator(k: nat) returns (code: nat)
      requires Valid() && k <= 5
      ensures if at < |all| && OperatorAt(k, all[at]).Some?
              then code == Code(Token(OperatorAt(k, all[at]).value)) && code != 0 && Level(OperatorAt(k, all[at]).value) == k
              else code == 0
    {
      if k == 0 {
        code := NextArg("|");
      } else if k == 1 {
        code := NextArg("&");
      } else if k == 2 {
        code := NextComparison();
      } else if k == 3 {
        code := NextArg("+");
        if code == 0 {
          code := NextArg("-");
        }
      } else if k == 4 {
        code := NextArg("*");
        if code == 0 {
          code := NextArg("/");
          if code == 0 {
            code := NextArg("%");
          }
        }
      } else {
        code := NextArg(":");
      }
    }

    method NextComparison() returns (code: nat)
      requires Valid()
      ensures if at < |all| && Comparison(all[at]).Some?
              then code == Code(Token(Comparison(all[at]).value)) && code != 0 && Level(Comparison(all[at]).value) == 2
              else code == 0
    {
      code := NextArg("<");
      if code == 0 {
        code := NextArg("<=");
      }
      if code == 0 {
        code := NextArg("=");
      }
      if code == 0 {
        code := NextArg("==");
      }
      if code == 0 {
        code := NextArg("!=");
      }
      if code == 0 {
        code := NextArg(">=");
      }
      if code == 0 {
        code := NextArg(">");
      }
    }

    /** Moves to the next argument. */
    method Advance()
      requires Valid() && at < |all|
      modifies this
      ensures Valid() && Rest() == old(Rest())[1..] && at == old(at) + 1
    {
      at := at + 1;
    }

    /** The functions for the levels 0 to 5. */
    method EvalLevel(k: nat) returns (r: Result<Cell>)
      requires Valid() && k <= 5
      modifies this
      ensures Valid() && at >= old(at) && Done(r, Parse(k, old(Rest()), pattern)) && (r.Ok? ==> fresh(r.value) && at > old(at))
      decreases |all| - at, 8 - k, 0
    {
      hide Apply, OperatorAt, Keyword, Bare;
      ghost var start := Rest();
      r := Operand(k + 1);
      if r.Err? {
        return;
      }
      var l := r.value;
      while true
        invariant Valid() && at > old(at) && fresh(l) && Parse(k, start, pattern) == Join(k, l.v, Rest(), pattern)
        decreases |all| - at
      {
        var code := NextOperator(k);
        if code == 0 {
          return Ok(l);
        }
        ghost var op := OperatorAt(k, all[at]).value;
        assert Rest()[0] == all[at];
        Advance();
        r := Operand(k + 1);
        if r.Err? {
          return;
        }
        r := Combine(k, l, r.value, code, pattern, op);
        if r.Err? {
          return;
        }
        l := r.value;
      }
    }

    /** An operand of a level. */
    method Operand(k: nat) returns (r: Result<Cell>)
      requires Valid() && 1 <= k <= 6
      modifies this
      ensures Valid() && at >= old(at) && Done(r, Parse(k, old(Rest()), pattern)) && (r.Ok? ==> fresh(r.value) && at > old(at))
      decreases |all| - at, 8 - k, 1
    {
      if k <= 5 {
        r := EvalLevel(k);
      } else {
        r := Eval6();
      }
    }

    /** Keywords and their operands. */
    method Eval6() returns (r: Result<Cell>)
      requires Valid()
      modifies this
      ensures Valid() && at >= old(at) && Done(r, Parse(6, old(Rest()), pattern)) && (r.Ok? ==> fresh(r.value) && at > old(at))
      decreases |all| - at, 2, 0
    {
      hide Join, Bare, OperatorAt, SubString, IndexIn, Text;
      ghost var start := Rest();
      assert Parse(6, start, pattern) == Keyword(start, pattern);
      var key := if at < |all| then KeyOf(all[at]) else 0;
      assert start != [] ==> start[0] == all[at];
      if key == 0 {
        r := Eval7();
        return;
      }
      Advance();
      if key == 1 {
        if at == |all| {
          return Err(Syntax);
        }
        assert start[1] == all[at];
        var quoted := new Cell(Str(all[at]));
        Advance();
        return Ok(quoted);
      }
      r := Eval6();
      if r.Err? {
        return;
      }
      r := EvalFurther(key, r.value, start);
    }

    /** A keyword whose first operand has been read. */
    method EvalFurther(key: nat, l: Cell, ghost start: Tokens) returns (r: Result<Cell>)
      requires Valid() && start != [] && key == KeyOf(start[0]) && 2 <= key && |Rest()| < |start|
      requires Parse(6, start[1..], pattern) == Ok((l.v, Rest()))
      modifies this, l
      ensures Valid() && at >= old(at) && Done(r, Keyword(start, pattern)) && (r.Ok? ==> fresh(r.value))
      decreases |all| - at, 2, 1
    {
      hide Join, Bare, OperatorAt, SubString, IndexIn, Text, Parse;
      if key == 2 {
        l.ToText();
        var length := new Cell(Int(|l.v.s|));
        return Ok(length);
      }
      r := Eval6();
      if r.Err? {
        return;
      }
      var second := r.value;
      if key == 3 {
        r := Docolon(l, second, pattern);
      } else if key == 4 {
        r := IndexOf(l, second);
      } else {
        r := Eval6();
        if r.Err? {
          return;
        }
        r := Substring(l, second, r.value);
      }
    }

    /** Bare arguments and brackets. */
    method Eval7() returns (r: Result<Cell>)
      requires Valid()
      modifies this
      ensures Valid() && at >= old(at) && Done(r, Bare(old(Rest()), pattern)) && (r.Ok? ==> fresh(r.value) && at > old(at))
      decreases |all| - at, 1, 0
    {
      hide Join, Keyword;
      if at == |all| {
        return Err(Syntax);
      }
      assert Rest()[0] == all[at];
      var code := NextArg("(");
      if code != 0 {
        Advance();
        r := EvalLevel(0);
        if r.Err? {
          return;
        }
        code := NextArg(")");
        assert Rest() != [] ==> Rest()[0] == all[at];
        if code == 0 {
          return Err(Syntax);
        }
        Advance();
        return;
      }
      code := NextArg(")");
      if code != 0 {
        return Err(Syntax);
      }
      var bare := new Cell(Str(all[at]));
      Advance();
      return Ok(bare);
    }
  }

  // ---------- The program ----------

  /** The output and whether it counts as null. */
  datatype Output = Output(text: string, isNull: bool)

  /** What the program does with its arguments. */
  function Program(args: Tokens, pattern: Pattern): Result<Output>
  {
    if args == [] then Err(TooFew)
    else
      var v :- Parse(0, args, pattern);
      if v.1 != [] then Err(Syntax) else Ok(Output(Text(v.0), Null(v.0)))
  }

  /** Given the arguments of a printed expression, the program prints its value. */
  lemma ProgramPrints(e: Expr, pattern: Pattern)
    ensures Program(Print(e, 0), pattern)
         == match Meaning(e, pattern)
            case Ok(v) => Ok(Output(Text(v), Null(v)))
            case Err(error) => Err(error)
  {
    ReadsBack(e, 0, [], pattern);
    assert Print(e, 0) + [] == Print(e, 0);
    PrintsSomething(e, 0);
  }

  lemma PrintsSomething(e: Expr, k: nat)
    ensures Print(e, k) != []
  {
  }

  /** Evaluates the arguments, and fails if one is left. */
  method ExprMain(args: Tokens, pattern: Pattern) returns (r: Result<Output>)
    ensures r == Program(args, pattern)
  {
    hide Join, Keyword, Bare;
    if args == [] {
      return Err(TooFew);
    }
    var evaluator := new Evaluator(args, pattern);
    assert evaluator.Rest() == args;
    var v := evaluator.EvalLevel(0);
    if v.Err? {
      return Err(v.error);
    }
    if evaluator.at < |args| {
      return Err(Syntax);
    }
    var isNull := Null(v.value.v);
    v.value.ToText();
    return Ok(Output(v.value.v.s, isNull));
  }
}
