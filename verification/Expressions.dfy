/** Expressions of `expr`: their values, and how they are written as arguments. */
module Expressions {
  import opened Options

  datatype Value = Int(i: int) | Str(s: string)

  /** `Trapped` is the end of the program by a division whose result does not fit. */
  datatype Error = TooFew | Syntax | NonNumeric | DivisionByZero | Trapped | BadPattern

  datatype Result<+T> = Ok(value: T) | Err(error: Error) {
    predicate IsFailure() { Err? }
    function PropagateFailure<U>(): Result<U> requires Err? { Err(error) }
    function Extract(): T requires Ok? { value }
  }

  // ---------- Numbers ----------

  const MAX: int := 0x7fff_ffff_ffff_ffff
  const MIN: int := -0x8000_0000_0000_0000

  /** What 64 bits keep of a number. */
  function Wrap(i: int): int
  {
    var r := i % 0x1_0000_0000_0000_0000;
    if r > MAX then r - 0x1_0000_0000_0000_0000 else r
  }

  /** Division rounds toward zero. */
  function Quotient(a: int, b: int): int
    requires b != 0
  {
    if (a < 0) == (b < 0) then Abs(a) / Abs(b) else -(Abs(a) / Abs(b))
  }

  function Abs(a: int): nat { if a < 0 then -a else a }

  predicate IsDigit(c: char) { '0' <= c <= '9' }

  predicate IsSpace(c: char) { c == ' ' || '\t' <= c <= '\r' }

  function SkipSpace(s: string): string
  {
    if s != [] && IsSpace(s[0]) then SkipSpace(s[1..]) else s
  }

  /** A number of at least one digit and nothing else. */
  function Digits(s: string): Option<nat>
  {
    if s == [] || !IsDigit(s[|s| - 1]) then None
    else
      var d := s[|s| - 1] as nat - '0' as nat;
      if |s| == 1 then Some(d)
      else
        var n :- Digits(s[..|s| - 1]);
        Some(10 * n + d)
  }

  /** `strtoll` on all of a string: white space, a sign, digits; the largest numbers stand for all beyond. */
  function Number(s: string): Option<int>
  {
    var t := SkipSpace(s);
    if t != [] && t[0] == '-' then
      var m :- Digits(t[1..]);
      var n: int := m;
      Some(if -n < MIN then MIN else -n)
    else
      var m :- Digits(if t != [] && t[0] == '+' then t[1..] else t);
      var n: int := m;
      Some(if n > MAX then MAX else n)
  }

  function Decimal(n: nat): string
  {
    (if n < 10 then "" else Decimal(n / 10)) + [('0' as nat + n % 10) as char]
  }

  // ---------- Conversions ----------

  function Text(v: Value): string
  {
    match v
    case Str(s) => s
    case Int(i) => if i < 0 then "-" + Decimal(-i) else Decimal(i)
  }

  function Arith(v: Value): Option<int>
  {
    match v
    case Int(i) => Some(i)
    case Str(s) => Number(s)
  }

  /** A value converted to a number if it looks like one. */
  function Numeric(v: Value): Value
  {
    match Arith(v)
    case Some(i) => Int(i)
    case None => v
  }

  /** The empty string and zero. */
  predicate Null(v: Value)
  {
    match v
    case Int(i) => i == 0
    case Str(s) => s == "" || s == "0"
  }

  // ---------- Operators ----------

  datatype Operator = Or | And | Less | LessEqual | Equal | EqualEqual | NotEqual | GreaterEqual | Greater
                    | Add | Subtract | Multiply | Divide | Modulo | Colon

  function Level(op: Operator): (k: nat)
    ensures k <= 5
  {
    match op
    case Or => 0
    case And => 1
    case Add | Subtract => 3
    case Multiply | Divide | Modulo => 4
    case Colon => 5
    case _ => 2
  }

  function Token(op: Operator): string
  {
    match op
    case Or => "|"
    case And => "&"
    case Less => "<"
    case LessEqual => "<="
    case Equal => "="
    case EqualEqual => "=="
    case NotEqual => "!="
    case GreaterEqual => ">="
    case Greater => ">"
    case Add => "+"
    case Subtract => "-"
    case Multiply => "*"
    case Divide => "/"
    case Modulo => "%"
    case Colon => ":"
  }

  /** Negative, zero or positive as `s` comes before, is equal to, or comes after `t`. */
  function StrCmp(s: string, t: string): int
  {
    if s == [] then (if t == [] then 0 else -1)
    else if t == [] then 1
    else if s[0] != t[0] then s[0] as int - t[0] as int
    else StrCmp(s[1..], t[1..])
  }

  /** The order of numbers, or of texts if one value is no number. */
  function Order(l: Value, r: Value): int
  {
    match (Numeric(l), Numeric(r))
    case (Int(a), Int(b)) => if a < b then -1 else if a == b then 0 else 1
    case (a, b) => StrCmp(Text(a), Text(b))
  }

  function Truth(b: bool): Value { Int(if b then 1 else 0) }

  /** Finds a pattern at the beginning of a string: the first bracketed part or the length, or an error in the pattern. */
  type Pattern = (string, string) -> Result<Value>

  /** The value of an operator. */
  function Apply(op: Operator, l: Value, r: Value, pattern: Pattern): Result<Value>
  {
    match op
    case Or => Ok(if Null(l) then r else l)
    case And => Ok(if Null(l) || Null(r) then Int(0) else l)
    case Less => Ok(Truth(Order(l, r) < 0))
    case LessEqual => Ok(Truth(Order(l, r) <= 0))
    case Equal => Ok(Truth(Order(l, r) == 0))
    case EqualEqual => Ok(Truth(Order(l, r) == 0))
    case NotEqual => Ok(Truth(Order(l, r) != 0))
    case GreaterEqual => Ok(Truth(Order(l, r) >= 0))
    case Greater => Ok(Truth(Order(l, r) > 0))
    case Colon => pattern(Text(l), Text(r))
    case _ =>
      if Arith(l).None? || Arith(r).None? then Err(NonNumeric)
      else Arithmetic(op, Arith(l).value, Arith(r).value)
  }

  /** Sums and products keep 64 bits. */
  function Arithmetic(op: Operator, a: int, b: int): Result<Value>
  {
    if op == Add then Ok(Int(Wrap(a + b)))
    else if op == Subtract then Ok(Int(Wrap(a - b)))
    else if op == Multiply then Ok(Int(Wrap(a * b)))
    else if b == 0 then Err(DivisionByZero)
    else if a == MIN && b == -1 then Err(Trapped)
    else if op == Divide then Ok(Int(Quotient(a, b)))
    else Ok(Int(a - b * Quotient(a, b)))
  }

  /** The position of the first character of `s` that is in `set`, from 1, or one more than there are. */
  function FirstOf(s: string, chars: string): nat
  {
    if s == [] || s[0] in chars then 1 else 1 + FirstOf(s[1..], chars)
  }

  function IndexIn(l: Value, r: Value): Value
  {
    var n := FirstOf(Text(l), Text(r));
    Int(if n == |Text(l)| + 1 then 0 else n)
  }

  const INT_MAX: int := 0x7fff_ffff

  /** What an `int` keeps of a number. */
  function Wrap32(i: int): int
  {
    var r := i % 0x1_0000_0000;
    if r > INT_MAX then r - 0x1_0000_0000 else r
  }

  /** The first `n` characters, or all of them. */
  function First(s: string, n: int): string
  {
    if 0 <= n <= |s| then s[..n] else s
  }

  /** The first `count` characters from position `from` on; of the count, an `int` is kept. */
  function Part(s: string, from: int, count: int): string
    requires 1 <= from <= |s|
  {
    First(s[from - 1..], Wrap32(count))
  }

  /** The part has as many characters as asked for, or reaches to the end, unless the count is beyond an `int` and what
      is kept of it is less than what remains. */
  lemma PartIff(s: string, from: int, count: int)
    requires 1 <= from <= |s| <= INT_MAX && 1 <= count <= MAX
    ensures var rest := |s| - (from - 1);
            (|Part(s, from, count)| == if count <= rest then count else rest)
            <==> (count > INT_MAX ==> !(0 <= Wrap32(count) < rest))
  {
  }

  /** `expr substr abc 1 4294967296` is empty. */
  lemma HugeCountIsEmpty()
    ensures SubString(Str("abc"), Str("1"), Str("4294967296")) == Str("")
  {
    assert SkipSpace("1") == "1" && Digits("1") == Some(1);
    assert Number("1") == Some(1);
    FourGiga();
    hide Number;
    assert Part("abc", 1, 0x1_0000_0000) == "";
  }

  lemma FourGiga()
    ensures Number("4294967296") == Some(0x1_0000_0000)
  {
    var s := "4294967296";
    assert SkipSpace(s) == s;
    assert s[..9] == "429496729" && s[..8] == "42949672" && s[..7] == "4294967" && s[..6] == "429496" && s[..5] == "42949";
    assert s[..9][..8] == s[..8] && s[..8][..7] == s[..7] && s[..7][..6] == s[..6] && s[..6][..5] == s[..5];
    assert Digits("42949") == Some(42949) by {
      assert s[..5][..4] == "4294" && s[..5][..4][..3] == "429" && s[..5][..4][..3][..2] == "42" && "42"[..1] == "4";
      assert Digits("4") == Some(4);
      assert Digits("42") == Some(42);
      assert Digits("429") == Some(429);
      assert Digits("4294") == Some(4294);
    }
    assert Digits(s[..6]) == Some(429496);
    assert Digits(s[..7]) == Some(4294967);
    assert Digits(s[..8]) == Some(42949672);
    assert Digits(s[..9]) == Some(429496729);
  }

  function SubString(l: Value, from: Value, count: Value): Value
  {
    match (Arith(from), Arith(count))
    case (Some(i), Some(n)) => if 1 <= i <= |Text(l)| && n >= 1 then Str(Part(Text(l), i, n)) else Str("")
    case _ => Str("")
  }

  // ---------- Expressions ----------

  datatype Expr = Quote(s: string)
                | Binary(op: Operator, l: Expr, r: Expr)
                | Length(e: Expr)
                | Match(e: Expr, p: Expr)
                | Index(e: Expr, chars: Expr)
                | Substr(e: Expr, from: Expr, count: Expr)

  /** The value of an expression: operands from left to right, then the operator. */
  function Meaning(e: Expr, pattern: Pattern): Result<Value>
  {
    match e
    case Quote(s) => Ok(Str(s))
    case Binary(op, l, r) =>
      var a :- Meaning(l, pattern);
      var b :- Meaning(r, pattern);
      Apply(op, a, b, pattern)
    case Length(x) =>
      var a :- Meaning(x, pattern);
      Ok(Int(|Text(a)|))
    case Match(x, p) =>
      var a :- Meaning(x, pattern);
      var b :- Meaning(p, pattern);
      pattern(Text(a), Text(b))
    case Index(x, c) =>
      var a :- Meaning(x, pattern);
      var b :- Meaning(c, pattern);
      Ok(IndexIn(a, b))
    case Substr(x, i, n) =>
      var a :- Meaning(x, pattern);
      var b :- Meaning(i, pattern);
      var c :- Meaning(n, pattern);
      Ok(SubString(a, b, c))
  }

  predicate Bracketed(e: Expr, k: nat)
  {
    e.Binary? && Level(e.op) < k
  }

  /** The arguments for an operand at level `k`, with brackets only where the level asks for them. */
  function Print(e: Expr, k: nat): seq<string>
    decreases e, if Bracketed(e, k) then 1 else 0
  {
    match e
    case Quote(s) => ["quote", s]
    case Binary(op, l, r) =>
      if Level(op) < k then ["("] + Print(e, 0) + [")"]
      else Print(l, Level(op)) + [Token(op)] + Print(r, Level(op) + 1)
    case Length(x) => ["length"] + Print(x, 6)
    case Match(x, p) => ["match"] + Print(x, 6) + Print(p, 6)
    case Index(x, c) => ["index"] + Print(x, 6) + Print(c, 6)
    case Substr(x, i, n) => ["substr"] + Print(x, 6) + Print(i, 6) + Print(n, 6)
  }
}
