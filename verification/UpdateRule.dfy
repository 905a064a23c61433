/**
 The update-rule language: a tokenizer, a recursive-descent parser with a moving cursor, and an
 evaluator.

 Everything is generic in the number type `N`: an `Arith` bundles how a literal is read and what
 the operations compute, so the results hold for 64-bit floats as well as for any other numbers.
 Source text is a string of Unicode characters.
 */
module UpdateRule {
  import opened Wrappers

  datatype RuleError =
    | NotANumber(text: string)
    | NotAllowed(c: char)
    | Unexpected
    | EndsEarly
    | MissingParen
    | NotAQuantity(name: string)
    | NotAFunction(name: string)
    | NoValue(name: string)
    | CannotTake(function_: string, values: nat)
    | NotFinite

  datatype Arith<!N> = Arith(
    parse: string -> Option<N>,
    finite: N -> bool,
    neg: N -> N,
    add: (N, N) -> N,
    sub: (N, N) -> N,
    mul: (N, N) -> N,
    div: (N, N) -> N,
    max: (N, N) -> N,
    min: (N, N) -> N,
    abs: N -> N)

  datatype Token<N> = Number(value: N) | Name(name: string) | Symbol(c: char)

  datatype Expr<N> =
    | Literal(value: N)
    | Quantity(name: string)
    | Neg(inner: Expr<N>)
    | Binary(left: Expr<N>, op: char, right: Expr<N>)
    | Call(function_: string, args: seq<Expr<N>>)

  const FUNCTIONS: seq<string> := ["max", "min", "abs", "clamp"]

  // --- Tokenizer -----------------------------------------------------------------------------

  predicate IsWhite(c: char) {
    var u := c as int;
    || 0x09 <= u <= 0x0D || u in {0x20, 0x85, 0xA0, 0x1680, 0x2028, 0x2029, 0x202F, 0x205F, 0x3000}
    || 0x2000 <= u <= 0x200A
  }

  predicate IsDigit(c: char) {
    '0' <= c <= '9'
  }

  predicate IsNumberChar(c: char) {
    IsDigit(c) || c == '.'
  }

  predicate IsNameStart(c: char) {
    'a' <= c <= 'z' || 'A' <= c <= 'Z' || c == '_'
  }

  predicate IsNameChar(c: char) {
    IsNameStart(c) || IsDigit(c)
  }

  predicate IsSymbol(c: char) {
    c in "+-*/(),"
  }

  /** How many characters at the start of `s` satisfy `p`. */
  function Span(s: string, p: char -> bool): (n: nat)
    ensures n <= |s|
  {
    if s == "" || !p(s[0]) then 0 else 1 + Span(s[1..], p)
  }

  predicate IsExponentMark(c: char) {
    c == 'e' || c == 'E'
  }

  predicate IsSign(c: char) {
    c == '+' || c == '-'
  }

  /** How far a number reaches: digits and dots, then an exponent if one starts there. */
  function NumberLength(s: string): (n: nat)
    ensures n <= |s|
  {
    var a := Span(s, IsNumberChar);
    if a < |s| && IsExponentMark(s[a]) then
      var b := if a + 1 < |s| && IsSign(s[a + 1]) then a + 2 else a + 1;
      b + Span(s[b..], IsDigit)
    else a
  }

  /** What the text at the front of `rest` adds to the tokens, and how many characters it takes. */
  function Lexeme<N>(arith: Arith<N>, rest: string): (r: Result<(seq<Token<N>>, nat), RuleError>)
    requires rest != ""
    ensures r.Ok? ==> 0 < r.value.1 <= |rest|
  {
    var c := rest[0];
    if IsWhite(c) then Ok(([], 1))
    else if IsNumberChar(c) then
      var n := NumberLength(rest);
      var value := arith.parse(rest[..n]);
      if value.None? then Err(NotANumber(rest[..n])) else Ok(([Number(value.value)], n))
    else if IsNameStart(c) then
      var n := Span(rest, IsNameChar);
      Ok(([Name(rest[..n])], n))
    else if IsSymbol(c) then Ok(([Symbol(c)], 1))
    else Err(NotAllowed(c))
  }

  /** The tokens of `rest`, after the ones already read. */
  function Scan<N>(arith: Arith<N>, rest: string, read: seq<Token<N>>): Result<seq<Token<N>>, RuleError>
    decreases |rest|
  {
    if rest == "" then Ok(read) else
    var (tokens, n) :- Lexeme(arith, rest);
    Scan(arith, rest[n..], read + tokens)
  }

  function Tokens<N>(arith: Arith<N>, source: string): Result<seq<Token<N>>, RuleError> {
    Scan(arith, source, [])
  }

  method SkipSpan(chars: string, start: nat, p: char -> bool) returns (i: nat)
    requires start <= |chars|
    ensures i == start + Span(chars[start..], p) && i <= |chars|
  {
    i := start;
    while i < |chars| && p(chars[i])
      invariant start <= i <= |chars|
      invariant i + Span(chars[i..], p) == start + Span(chars[start..], p)
    {
      assert chars[i..][1..] == chars[i + 1..];
      i := i + 1;
    }
  }

  method SkipNumber(chars: string, start: nat) returns (i: nat)
    requires start <= |chars|
    ensures i == start + NumberLength(chars[start..]) && i <= |chars|
  {
    var s := chars[start..];
    i := SkipSpan(chars, start, IsNumberChar);
    ghost var a := i - start;
    if i < |chars| && IsExponentMark(chars[i]) {
      assert s[a] == chars[i];
      i := i + 1;
      if i < |chars| && IsSign(chars[i]) {
        assert s[a + 1] == chars[i];
        i := i + 1;
      }
      assert s[i - start..] == chars[i..];
      i := SkipSpan(chars, i, IsDigit);
    }
  }

  method NextLexeme<N>(arith: Arith<N>, source: string, start: nat)
    returns (tokens: seq<Token<N>>, i: nat, error: Option<RuleError>)
    requires start < |source|
    ensures match Lexeme(arith, source[start..])
            case Ok(read) => error == None && tokens == read.0 && i == start + read.1
            case Err(e) => error == Some(e)
  {
    var c := source[start];
    tokens, i, error := [], start + 1, None;
    ghost var rest := source[start..];
    if IsWhite(c) {
    } else if IsNumberChar(c) {
      i := SkipNumber(source, start);
      var text := source[start..i];
      assert text == rest[..i - start];
      var value := arith.parse(text);
      if value.None? {
        error := Some(NotANumber(text));
      } else {
        tokens := [Number(value.value)];
      }
    } else if IsNameStart(c) {
      i := SkipSpan(source, start, IsNameChar);
      assert source[start..i] == rest[..i - start];
      tokens := [Name(source[start..i])];
    } else if IsSymbol(c) {
      tokens := [Symbol(c)];
    } else {
      error := Some(NotAllowed(c));
    }
  }

  /** The index loop over the characters. */
  method Tokenize<N>(arith: Arith<N>, source: string) returns (r: Result<seq<Token<N>>, RuleError>)
    ensures r == Tokens(arith, source)
  {
    var tokens: seq<Token<N>> := [];
    var i := 0;
    assert source[0..] == source;
    while i < |source|
      invariant 0 <= i <= |source|
      invariant Scan(arith, source[i..], tokens) == Tokens(arith, source)
    {
      var more, next, error := NextLexeme(arith, source, i);
      if error.Some? {
        return Err(error.value);
      }
      assert source[i..][next - i..] == source[next..];
      tokens := tokens + more;
      i := next;
    }
    return Ok(tokens);
  }

  // --- Grammar -------------------------------------------------------------------------------

  /** The next token is the symbol `c`. */
  predicate At<N>(rest: seq<Token<N>>, c: char) {
    rest != [] && rest[0].Symbol? && rest[0].c == c
  }

  type Parsed<N> = Result<(Expr<N>, seq<Token<N>>), RuleError>

  function ParseExpr<N>(rest: seq<Token<N>>, names: seq<string>): (r: Parsed<N>)
    ensures r.Ok? ==> |r.value.1| < |rest|
    decreases |rest|, 3
  {
    var (left, rest1) :- ParseTerm(rest, names);
    ExprLoop(rest1, left, names)
  }

  function ExprLoop<N>(rest: seq<Token<N>>, left: Expr<N>, names: seq<string>): (r: Parsed<N>)
    ensures r.Ok? ==> |r.value.1| <= |rest|
    decreases |rest|, 3
  {
    if At(rest, '+') || At(rest, '-') then
      var (right, rest1) :- ParseTerm(rest[1..], names);
      ExprLoop(rest1, Binary(left, rest[0].c, right), names)
    else Ok((left, rest))
  }

  function ParseTerm<N>(rest: seq<Token<N>>, names: seq<string>): (r: Parsed<N>)
    ensures r.Ok? ==> |r.value.1| < |rest|
    decreases |rest|, 2
  {
    var (left, rest1) :- ParseFactor(rest, names);
    TermLoop(rest1, left, names)
  }

  function TermLoop<N>(rest: seq<Token<N>>, left: Expr<N>, names: seq<string>): (r: Parsed<N>)
    ensures r.Ok? ==> |r.value.1| <= |rest|
    decreases |rest|, 2
  {
    if At(rest, '*') || At(rest, '/') then
      var (right, rest1) :- ParseFactor(rest[1..], names);
      TermLoop(rest1, Binary(left, rest[0].c, right), names)
    else Ok((left, rest))
  }

  function ParseFactor<N>(rest: seq<Token<N>>, names: seq<string>): (r: Parsed<N>)
    ensures r.Ok? ==> |r.value.1| < |rest|
    decreases |rest|, 1
  {
    if At(rest, '-') then
      var (inner, rest1) :- ParseFactor(rest[1..], names);
      Ok((Neg(inner), rest1))
    else if At(rest, '+') then ParseFactor(rest[1..], names)
    else if At(rest, '(') then
      var (inner, rest1) :- ParseExpr(rest[1..], names);
      if At(rest1, ')') then Ok((inner, rest1[1..])) else Err(MissingParen)
    else if rest == [] then Err(EndsEarly)
    else
      match rest[0]
      case Number(value) => Ok((Literal(value), rest[1..]))
      case Name(name) =>
        if At(rest[1..], '(') then ParseCall(rest[2..], name, names)
        else if name in names then Ok((Quantity(name), rest[1..]))
        else Err(NotAQuantity(name))
      case Symbol(_) => Err(Unexpected)
  }

  function ParseCall<N>(rest: seq<Token<N>>, function_: string, names: seq<string>): (r: Parsed<N>)
    ensures r.Ok? ==> |r.value.1| < |rest|
    decreases |rest|, 4
  {
    if function_ !in FUNCTIONS then Err(NotAFunction(function_)) else
    var (first, rest1) :- ParseExpr(rest, names);
    var (args, rest2) :- ArgsLoop(rest1, [first], names);
    if At(rest2, ')') then Ok((Call(function_, args), rest2[1..])) else Err(MissingParen)
  }

  function ArgsLoop<N>(rest: seq<Token<N>>, args: seq<Expr<N>>, names: seq<string>)
    : (r: Result<(seq<Expr<N>>, seq<Token<N>>), RuleError>)
    ensures r.Ok? ==> |r.value.1| <= |rest| && |r.value.0| >= |args|
    decreases |rest|, 4
  {
    if At(rest, ',') then
      var (arg, rest1) :- ParseExpr(rest[1..], names);
      ArgsLoop(rest1, args + [arg], names)
    else Ok((args, rest))
  }

  /** `UpdateRule::parse`, on tokens: one expression and nothing after it. */
  function ParseTokens<N>(tokens: seq<Token<N>>, names: seq<string>): Result<Expr<N>, RuleError> {
    var (expr, rest) :- ParseExpr(tokens, names);
    if rest != [] then Err(Unexpected) else Ok(expr)
  }

  function ParseRule<N>(arith: Arith<N>, source: string, names: seq<string>): Result<Expr<N>, RuleError> {
    var tokens :- Tokens(arith, source);
    ParseTokens(tokens, names)
  }

  // --- The parser as it runs -----------------------------------------------------------------

  /** The result and the cursor agree with the grammar. */
  ghost predicate Agrees<N>(spec: Parsed<N>, r: Result<Expr<N>, RuleError>, left: seq<Token<N>>) {
    spec == if r.Ok? then Ok((r.value, left)) else Err(r.error)
  }

  class Parser<N> {
    const tokens: seq<Token<N>>
    const names: seq<string>
    var at: nat

    ghost predicate Valid()
      reads this
    {
      at <= |tokens|
    }

    constructor (tokens: seq<Token<N>>, names: seq<string>)
      ensures this.tokens == tokens && this.names == names && at == 0 && Valid()
    {
      this.tokens := tokens;
      this.names := names;
      at := 0;
    }

    method Eat(symbol: char) returns (ate: bool)
      requires Valid()
      modifies this
      ensures Valid() && ate == At(tokens[old(at)..], symbol)
      ensures at == if ate then old(at) + 1 else old(at)
    {
      if at < |tokens| && tokens[at].Symbol? && tokens[at].c == symbol {
        at := at + 1;
        return true;
      }
      return false;
    }

    method Expr() returns (r: Result<Expr<N>, RuleError>)
      requires Valid()
      modifies this
      ensures Valid() && Agrees(ParseExpr(tokens[old(at)..], names), r, tokens[at..])
      decreases |tokens| - at, 3
    {
      var left :- Term();
      while true
        invariant Valid() && old(at) < at
        invariant ExprLoop(tokens[at..], left, names) == ParseExpr(tokens[old(at)..], names)
        decreases |tokens| - at
      {
        ghost var rest := tokens[at..];
        var op := '+';
        var ate := Eat('+');
        if !ate {
          op := '-';
          ate := Eat('-');
          if !ate {
            return Ok(left);
          }
        }
        assert rest[1..] == tokens[at..];
        var right :- Term();
        left := Binary(left, op, right);
      }
    }

    method Term() returns (r: Result<Expr<N>, RuleError>)
      requires Valid()
      modifies this
      ensures Valid() && Agrees(ParseTerm(tokens[old(at)..], names), r, tokens[at..])
      decreases |tokens| - at, 2
    {
      var left :- Factor();
      while true
        invariant Valid() && old(at) < at
        invariant TermLoop(tokens[at..], left, names) == ParseTerm(tokens[old(at)..], names)
        decreases |tokens| - at
      {
        ghost var rest := tokens[at..];
        var op := '*';
        var ate := Eat('*');
        if !ate {
          op := '/';
          ate := Eat('/');
          if !ate {
            return Ok(left);
          }
        }
        assert rest[1..] == tokens[at..];
        var right :- Factor();
        left := Binary(left, op, right);
      }
    }

    method Factor() returns (r: Result<Expr<N>, RuleError>)
      requires Valid()
      modifies this
      ensures Valid() && Agrees(ParseFactor(tokens[old(at)..], names), r, tokens[at..])
      decreases |tokens| - at, 1
    {
      ghost var rest := tokens[at..];
      assert rest != [] ==> rest[1..] == tokens[at + 1..];
      var ate := Eat('-');
      if ate {
        var inner :- Factor();
        return Ok(Neg(inner));
      }
      ate := Eat('+');
      if ate {
        r := Factor();
        return;
      }
      ate := Eat('(');
      if ate {
        var inner :- Expr();
        ghost var after := tokens[at..];
        ate := Eat(')');
        if ate {
          assert after[1..] == tokens[at..];
          return Ok(inner);
        }
        return Err(MissingParen);
      }
      if at == |tokens| {
        return Err(EndsEarly);
      }
      match tokens[at] {
        case Number(value) =>
          at := at + 1;
          return Ok(Literal(value));
        case Name(name) =>
          at := at + 1;
          ate := Eat('(');
          if ate {
            assert rest[2..] == tokens[at..];
            r := CallOf(name);
            return;
          }
          if name in names {
            return Ok(Quantity(name));
          }
          return Err(NotAQuantity(name));
        case Symbol(_) =>
          return Err(Unexpected);
      }
    }

    method CallOf(function_: string) returns (r: Result<Expr<N>, RuleError>)
      requires Valid()
      modifies this
      ensures Valid() && Agrees(ParseCall(tokens[old(at)..], function_, names), r, tokens[at..])
      decreases |tokens| - at, 4
    {
      hide ParseExpr;
      if function_ !in FUNCTIONS {
        return Err(NotAFunction(function_));
      }
      var first :- Expr();
      var args := [first];
      ghost var start := tokens[at..];
      ghost var rest := tokens[at..];
      var more := Eat(',');
      while more
        invariant Valid() && old(at) < at
        invariant rest == if more then tokens[at - 1..] else tokens[at..]
        invariant more == At(rest, ',')
        invariant ArgsLoop(rest, args, names) == ArgsLoop(start, [first], names)
        decreases |tokens| - at, more
      {
        assert rest[1..] == tokens[at..];
        var arg :- Expr();
        args := args + [arg];
        rest := tokens[at..];
        more := Eat(',');
      }
      ghost var after := tokens[at..];
      var ate := Eat(')');
      if !ate {
        return Err(MissingParen);
      }
      assert after[1..] == tokens[at..];
      return Ok(Call(function_, args));
    }
  }
}
