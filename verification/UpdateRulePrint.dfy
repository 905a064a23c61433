/**
 A printer for rule trees, and why parsing undoes it: with parentheses only where precedence asks
 for them, every well-formed tree reads back as itself, through the tokens and through the text.
 */
module UpdateRulePrint {
  import opened Wrappers
  import opened UpdateRule

  /** Names in scope, operators of the grammar, calls to known functions with an argument. */
  predicate WellFormed<N>(e: Expr<N>, names: seq<string>) {
    match e
    case Literal(_) => true
    case Quantity(name) => name in names
    case Neg(inner) => WellFormed(inner, names)
    case Binary(left, op, right) => op in "+-*/" && WellFormed(left, names) && WellFormed(right, names)
    case Call(f, args) => f in FUNCTIONS && |args| >= 1 && forall k :: 0 <= k < |args| ==> WellFormed(args[k], names)
  }

  // --- Scope ---------------------------------------------------------------------------------

  ghost predicate ResultWellFormed<N>(r: Parsed<N>, names: seq<string>) {
    r.Ok? ==> WellFormed(r.value.0, names)
  }

  lemma {:induction false} ExprInScope<N>(rest: seq<Token<N>>, names: seq<string>)
    ensures ResultWellFormed(ParseExpr(rest, names), names)
    decreases |rest|, 3
  {
    TermInScope(rest, names);
    var left := ParseTerm(rest, names);
    if left.Ok? { ExprLoopInScope(left.value.1, left.value.0, names); }
  }

  lemma {:induction false} ExprLoopInScope<N>(rest: seq<Token<N>>, left: Expr<N>, names: seq<string>)
    requires WellFormed(left, names)
    ensures ResultWellFormed(ExprLoop(rest, left, names), names)
    decreases |rest|, 3
  {
    if At(rest, '+') || At(rest, '-') {
      TermInScope(rest[1..], names);
      var right := ParseTerm(rest[1..], names);
      if right.Ok? { ExprLoopInScope(right.value.1, Binary(left, rest[0].c, right.value.0), names); }
    }
  }

  lemma {:induction false} TermInScope<N>(rest: seq<Token<N>>, names: seq<string>)
    ensures ResultWellFormed(ParseTerm(rest, names), names)
    decreases |rest|, 2
  {
    FactorInScope(rest, names);
    var left := ParseFactor(rest, names);
    if left.Ok? { TermLoopInScope(left.value.1, left.value.0, names); }
  }

  lemma {:induction false} TermLoopInScope<N>(rest: seq<Token<N>>, left: Expr<N>, names: seq<string>)
    requires WellFormed(left, names)
    ensures ResultWellFormed(TermLoop(rest, left, names), names)
    decreases |rest|, 2
  {
    if At(rest, '*') || At(rest, '/') {
      FactorInScope(rest[1..], names);
      var right := ParseFactor(rest[1..], names);
      if right.Ok? { TermLoopInScope(right.value.1, Binary(left, rest[0].c, right.value.0), names); }
    }
  }

  lemma {:induction false} FactorInScope<N>(rest: seq<Token<N>>, names: seq<string>)
    ensures ResultWellFormed(ParseFactor(rest, names), names)
    decreases |rest|, 1
  {
    if At(rest, '-') || At(rest, '+') {
      FactorInScope(rest[1..], names);
    } else if At(rest, '(') {
      ExprInScope(rest[1..], names);
    } else if rest != [] && rest[0].Name? && At(rest[1..], '(') {
      CallInScope(rest[2..], rest[0].name, names);
    }
  }

  lemma {:induction false} CallInScope<N>(rest: seq<Token<N>>, f: string, names: seq<string>)
    ensures ResultWellFormed(ParseCall(rest, f, names), names)
    decreases |rest|, 4
  {
    hide ParseExpr, ArgsLoop;
    ExprInScope(rest, names);
    var first := ParseExpr(rest, names);
    if first.Ok? { ArgsInScope(first.value.1, [first.value.0], names); }
  }

  lemma {:induction false} ArgsInScope<N>(rest: seq<Token<N>>, args: seq<Expr<N>>, names: seq<string>)
    requires forall k :: 0 <= k < |args| ==> WellFormed(args[k], names)
    ensures var r := ArgsLoop(rest, args, names);
            r.Ok? ==> forall k :: 0 <= k < |r.value.0| ==> WellFormed(r.value.0[k], names)
    decreases |rest|, 4
  {
    if At(rest, ',') {
      ExprInScope(rest[1..], names);
      var arg := ParseExpr(rest[1..], names);
      if arg.Ok? { ArgsInScope(arg.value.1, args + [arg.value.0], names); }
    }
  }

  /** A rule that parses reads only names of its class and calls only known functions, each with an
      argument. */
  lemma {:induction false} ParsedIsInScope<N>(tokens: seq<Token<N>>, names: seq<string>)
    requires ParseTokens(tokens, names).Ok?
    ensures WellFormed(ParseTokens(tokens, names).value, names)
  {
    ExprInScope(tokens, names);
  }

  // --- Printer -------------------------------------------------------------------------------

  predicate Additive<N>(e: Expr<N>) {
    e.Binary? && (e.op == '+' || e.op == '-')
  }

  /** 0 for sums, 1 for products, 2 for what a factor can be without parentheses. */
  function Precedence<N>(e: Expr<N>): nat {
    if Additive(e) then 0 else if e.Binary? then 1 else 2
  }

  /** `e` where the grammar expects something of precedence `level` or tighter. */
  function Print<N>(e: Expr<N>, level: nat): seq<Token<N>>
    decreases e, 1
  {
    if Precedence(e) < level then [Symbol('(')] + Bare(e) + [Symbol(')')] else Bare(e)
  }

  function Bare<N>(e: Expr<N>): seq<Token<N>>
    decreases e, 0
  {
    match e
    case Literal(value) => [Number(value)]
    case Quantity(name) => [Name(name)]
    case Neg(inner) => [Symbol('-')] + Print(inner, 2)
    case Binary(left, op, right) => Print(left, Precedence(e)) + [Symbol(op)] + Print(right, Precedence(e) + 1)
    case Call(f, args) =>
      if args == [] then [Name(f), Symbol('('), Symbol(')')]
      else [Name(f), Symbol('(')] + Print(args[0], 0) + PrintMore(args[1..]) + [Symbol(')')]
  }

  function PrintMore<N>(args: seq<Expr<N>>): seq<Token<N>>
    decreases args, 0
  {
    if args == [] then [] else [Symbol(',')] + Print(args[0], 0) + PrintMore(args[1..])
  }

  // --- Round trip over tokens ----------------------------------------------------------------

  /** After an expression: no call, and nothing that would extend a term. */
  predicate EndsTerm<N>(rest: seq<Token<N>>) {
    !At(rest, '(') && !At(rest, '*') && !At(rest, '/')
  }

  predicate EndsExpr<N>(rest: seq<Token<N>>) {
    EndsTerm(rest) && !At(rest, '+') && !At(rest, '-')
  }

  /** The order in which the three levels lean on each other for a tree of each precedence. */
  function Rank(precedence: nat, level: nat): nat
    requires precedence <= 2 && level <= 2
  {
    (precedence + 3 - level) % 3
  }

  lemma {:induction false} ParenthesesParse<N>(e: Expr<N>, rest: seq<Token<N>>, names: seq<string>)
    requires ParseExpr(Bare(e) + ([Symbol(')')] + rest), names) == Ok((e, [Symbol(')')] + rest))
    ensures ParseFactor([Symbol('(')] + Bare(e) + [Symbol(')')] + rest, names) == Ok((e, rest))
  {
    var ts := [Symbol('(')] + Bare(e) + [Symbol(')')] + rest;
    assert ts[1..] == Bare(e) + ([Symbol(')')] + rest);
    assert ([Symbol(')')] + rest)[1..] == rest;
  }

  /** At the loosest level, a printed tree parses to itself and the sum goes on from there. */
  lemma {:induction false} PrintedExpr<N>(e: Expr<N>, rest: seq<Token<N>>, names: seq<string>)
    requires WellFormed(e, names) && EndsTerm(rest)
    ensures ParseExpr(Print(e, 0) + rest, names) == ExprLoop(rest, e, names)
    decreases e, Rank(Precedence(e), 0)
  {
    if Additive(e) {
      var tail := [Symbol(e.op)] + Print(e.right, 1) + rest;
      assert Print(e, 0) + rest == Print(e.left, 0) + tail;
      PrintedExpr(e.left, tail, names);
      assert tail[1..] == Print(e.right, 1) + rest;
      PrintedTerm(e.right, rest, names);
    } else {
      assert Print(e, 0) == Print(e, 1);
      PrintedTerm(e, rest, names);
    }
  }

  lemma {:induction false} PrintedTerm<N>(e: Expr<N>, rest: seq<Token<N>>, names: seq<string>)
    requires WellFormed(e, names) && !At(rest, '(')
    ensures ParseTerm(Print(e, 1) + rest, names) == TermLoop(rest, e, names)
    decreases e, Rank(Precedence(e), 1)
  {
    if Precedence(e) == 1 {
      var tail := [Symbol(e.op)] + Print(e.right, 2) + rest;
      assert Print(e, 1) + rest == Print(e.left, 1) + tail;
      PrintedTerm(e.left, tail, names);
      assert tail[1..] == Print(e.right, 2) + rest;
      PrintedFactor(e.right, rest, names);
    } else {
      assert Print(e, 1) == Print(e, 2);
      PrintedFactor(e, rest, names);
    }
  }

  lemma {:induction false} PrintedFactor<N>(e: Expr<N>, rest: seq<Token<N>>, names: seq<string>)
    requires WellFormed(e, names) && !At(rest, '(')
    ensures ParseFactor(Print(e, 2) + rest, names) == Ok((e, rest))
    decreases e, Rank(Precedence(e), 2)
  {
    if e.Binary? {
      var close := [Symbol(')')] + rest;
      assert Print(e, 0) == Bare(e);
      PrintedExpr(e, close, names);
      ParenthesesParse(e, rest, names);
    } else {
      var ts := Print(e, 2) + rest;
      assert Print(e, 2) == Bare(e);
      match e
      case Literal(value) =>
        assert Bare(e) == [Number(value)];
        assert ts[1..] == rest;
      case Quantity(name) =>
        assert Bare(e) == [Name(name)];
        assert ts[1..] == rest;
      case Neg(inner) =>
        assert ts[1..] == Print(inner, 2) + rest;
        PrintedFactor(inner, rest, names);
      case Call(f, args) =>
        PrintedCall(f, args, rest, names);
    }
  }

  lemma {:induction false} PrintedCall<N>(f: string, args: seq<Expr<N>>, rest: seq<Token<N>>, names: seq<string>)
    requires WellFormed(Call(f, args), names)
    ensures ParseFactor(Bare(Call(f, args)) + rest, names) == Ok((Call(f, args), rest))
    decreases Call(f, args), 0, 0
  {
    var close := [Symbol(')')] + rest;
    var more := PrintMore(args[1..]) + close;
    var ts := Bare(Call(f, args)) + rest;
    assert ts == [Name(f), Symbol('(')] + (Print(args[0], 0) + more);
    assert ts[2..] == Print(args[0], 0) + more && At(ts[1..], '(');
    assert args == [args[0]] + args[1..];
    PrintMoreEndsExpr(args[1..], close);
    PrintedExpr(args[0], more, names);
    PrintedArgs(args[1..], [args[0]], close, names);
    assert close[1..] == rest;
    hide Print, PrintMore, ParseExpr, EndsExpr;
  }

  lemma {:induction false} PrintMoreEndsExpr<N>(args: seq<Expr<N>>, close: seq<Token<N>>)
    requires At(close, ')')
    ensures EndsExpr(PrintMore(args) + close)
  {
    if args == [] {
      assert PrintMore(args) + close == close;
    }
  }

  lemma {:induction false} PrintedArgs<N>(args: seq<Expr<N>>, done: seq<Expr<N>>, close: seq<Token<N>>,
                                          names: seq<string>)
    requires At(close, ')') && forall k :: 0 <= k < |args| ==> WellFormed(args[k], names)
    ensures ArgsLoop(PrintMore(args) + close, done, names) == Ok((done + args, close))
    decreases args, 0
  {
    hide ParseExpr, Print, EndsExpr, WellFormed;
    if args == [] {
      assert PrintMore(args) + close == close && done + args == done;
    } else {
      var ts := PrintMore(args) + close;
      var more := PrintMore(args[1..]) + close;
      assert ts[1..] == Print(args[0], 0) + more;
      PrintMoreEndsExpr(args[1..], close);
      PrintedExpr(args[0], more, names);
      PrintedArgs(args[1..], done + [args[0]], close, names);
      assert done + [args[0]] + args[1..] == done + args;
    }
  }

  /** Printing and then parsing gives back the same tree, left association included. */
  lemma {:induction false} ParsePrinted<N>(e: Expr<N>, names: seq<string>)
    requires WellFormed(e, names)
    ensures ParseTokens(Print(e, 0), names) == Ok(e)
  {
    PrintedExpr(e, [], names);
    assert Print(e, 0) + [] == Print(e, 0);
  }

  /** Hence no two trees print alike, and printing whatever parsed changes nothing. */
  lemma {:induction false} ReprintIsStable<N>(tokens: seq<Token<N>>, names: seq<string>)
    requires ParseTokens(tokens, names).Ok?
    ensures ParseTokens(Print(ParseTokens(tokens, names).value, 0), names) == ParseTokens(tokens, names)
  {
    ParsedIsInScope(tokens, names);
    ParsePrinted(ParseTokens(tokens, names).value, names);
  }

  // --- Round trip over text ------------------------------------------------------------------

  predicate IsIdentifier(s: string) {
    s != "" && IsNameStart(s[0]) && forall k :: 0 <= k < |s| ==> IsNameChar(s[k])
  }

  /** A spelling the tokenizer takes as one number. */
  predicate IsNumeral(s: string) {
    s != "" && IsNumberChar(s[0]) && NumberLength(s) == |s|
  }

  /** What can be written down: known characters, identifiers, and numbers whose spelling reads
      back as the number. */
  predicate Writable<N(==)>(arith: Arith<N>, spell: N -> string, t: Token<N>) {
    match t
    case Number(value) => IsNumeral(spell(value)) && arith.parse(spell(value)) == Some(value)
    case Name(name) => IsIdentifier(name)
    case Symbol(c) => IsSymbol(c)
  }

  function TokenText<N>(spell: N -> string, t: Token<N>): string {
    match t
    case Number(value) => spell(value)
    case Name(name) => name
    case Symbol(c) => [c]
  }

  /** Each token and a blank. */
  function Text<N>(spell: N -> string, tokens: seq<Token<N>>): string {
    if tokens == [] then "" else TokenText(spell, tokens[0]) + " " + Text(spell, tokens[1..])
  }

  lemma {:induction false} SpanStops(s: string, more: string, p: char -> bool)
    requires !p(' ') && Span(s, p) == |s|
    ensures Span(s + " " + more, p) == |s|
  {
    var t := s + " " + more;
    if s == "" {
      assert t[0] == ' ';
    } else {
      assert t[1..] == s[1..] + " " + more;
      SpanStops(s[1..], more, p);
    }
  }

  lemma {:induction false} SpanInside(s: string, more: string, p: char -> bool)
    requires Span(s, p) < |s|
    ensures Span(s + more, p) == Span(s, p)
  {
    assert (s + more)[0] == s[0];
    if p(s[0]) {
      assert (s + more)[1..] == s[1..] + more;
      SpanInside(s[1..], more, p);
    }
  }

  lemma {:induction false} NameSpan(s: string)
    requires forall k :: 0 <= k < |s| ==> IsNameChar(s[k])
    ensures Span(s, IsNameChar) == |s|
  {
    if s != "" {
      assert IsNameChar(s[0]);
      NameSpan(s[1..]);
    }
  }

  lemma {:induction false} NumberStops(s: string, more: string)
    requires IsNumeral(s)
    ensures NumberLength(s + " " + more) == |s|
  {
    var t := s + " " + more;
    var a := Span(s, IsNumberChar);
    assert forall k :: 0 <= k < |s| ==> t[k] == s[k];
    if a == |s| {
      SpanStops(s, more, IsNumberChar);
      assert t[a] == ' ';
    } else {
      SpanInside(s, " " + more, IsNumberChar);
      assert s + (" " + more) == t;
      var b := if a + 1 < |s| && IsSign(s[a + 1]) then a + 2 else a + 1;
      assert t[|s|] == ' ';
      assert t[b..] == s[b..] + " " + more;
      SpanStops(s[b..], more, IsDigit);
    }
  }

  lemma {:induction false} LexemeOfToken<N>(arith: Arith<N>, spell: N -> string, t: Token<N>, more: string)
    requires Writable(arith, spell, t)
    ensures Lexeme(arith, TokenText(spell, t) + " " + more) == Ok(([t], |TokenText(spell, t)|))
  {
    var text := TokenText(spell, t);
    var s := text + " " + more;
    assert s[0] == text[0] && s[..|text|] == text;
    match t
    case Number(_) =>
      NumberStops(text, more);
    case Name(_) =>
      NameSpan(text);
      SpanStops(text, more, IsNameChar);
    case Symbol(_) =>
  }

  lemma {:induction false} ScanText<N>(arith: Arith<N>, spell: N -> string, tokens: seq<Token<N>>, read: seq<Token<N>>)
    requires forall k :: 0 <= k < |tokens| ==> Writable(arith, spell, tokens[k])
    ensures Scan(arith, Text(spell, tokens), read) == Ok(read + tokens)
    decreases |tokens|
  {
    if tokens == [] {
      assert read + tokens == read;
    } else {
      hide Scan, Writable, TokenText;
      assert forall k :: 0 <= k < |tokens[1..]| ==> tokens[1..][k] == tokens[k + 1];
      ScanToken(arith, spell, tokens[0], Text(spell, tokens[1..]), read);
      ScanText(arith, spell, tokens[1..], read + [tokens[0]]);
      assert read + [tokens[0]] + tokens[1..] == read + tokens;
    }
  }

  lemma {:induction false} ScanToken<N>(arith: Arith<N>, spell: N -> string, t: Token<N>, more: string,
                                        read: seq<Token<N>>)
    requires Writable(arith, spell, t)
    ensures Scan(arith, TokenText(spell, t) + " " + more, read) == Scan(arith, more, read + [t])
  {
    hide Lexeme, Writable;
    var text := TokenText(spell, t);
    LexemeOfToken(arith, spell, t, more);
    assert (text + " " + more)[|text|..] == " " + more;
    ScanBlank(arith, more, read + [t]);
  }

  lemma {:induction false} ScanBlank<N>(arith: Arith<N>, more: string, read: seq<Token<N>>)
    ensures Scan(arith, " " + more, read) == Scan(arith, more, read)
  {
    assert (" " + more)[1..] == more && read + [] == read;
    assert Lexeme(arith, " " + more) == Ok(([], 1));
  }

  /** Every literal of `e` has a spelling that reads back, and every name is an identifier. */
  predicate Spellable<N(==)>(arith: Arith<N>, spell: N -> string, e: Expr<N>) {
    match e
    case Literal(value) => Writable(arith, spell, Number(value))
    case Quantity(name) => IsIdentifier(name)
    case Neg(inner) => Spellable(arith, spell, inner)
    case Binary(left, op, right) => IsSymbol(op) && Spellable(arith, spell, left) && Spellable(arith, spell, right)
    case Call(f, args) => IsIdentifier(f) && forall k :: 0 <= k < |args| ==> Spellable(arith, spell, args[k])
  }

  ghost predicate AllWritable<N>(arith: Arith<N>, spell: N -> string, tokens: seq<Token<N>>) {
    forall k :: 0 <= k < |tokens| ==> Writable(arith, spell, tokens[k])
  }

  lemma {:induction false} PrintIsWritable<N>(arith: Arith<N>, spell: N -> string, e: Expr<N>, level: nat)
    requires Spellable(arith, spell, e)
    ensures AllWritable(arith, spell, Print(e, level))
    decreases e, 1
  {
    BareIsWritable(arith, spell, e);
  }

  lemma {:induction false} BareIsWritable<N>(arith: Arith<N>, spell: N -> string, e: Expr<N>)
    requires Spellable(arith, spell, e)
    ensures AllWritable(arith, spell, Bare(e))
    decreases e, 0
  {
    match e
    case Literal(_) =>
    case Quantity(_) =>
    case Neg(inner) => PrintIsWritable(arith, spell, inner, 2);
    case Binary(left, _, right) =>
      PrintIsWritable(arith, spell, left, Precedence(e));
      PrintIsWritable(arith, spell, right, Precedence(e) + 1);
    case Call(_, args) =>
      if args != [] {
        PrintIsWritable(arith, spell, args[0], 0);
        PrintMoreIsWritable(arith, spell, args[1..]);
      }
  }

  lemma {:induction false} PrintMoreIsWritable<N>(arith: Arith<N>, spell: N -> string, args: seq<Expr<N>>)
    requires forall k :: 0 <= k < |args| ==> Spellable(arith, spell, args[k])
    ensures AllWritable(arith, spell, PrintMore(args))
    decreases args, 0
  {
    if args != [] {
      PrintIsWritable(arith, spell, args[0], 0);
      PrintMoreIsWritable(arith, spell, args[1..]);
    }
  }

  /** From tree to source text and back: every well-formed tree that can be spelled parses to
      itself. */
  lemma {:induction false} ParseRulePrinted<N>(arith: Arith<N>, spell: N -> string, e: Expr<N>, names: seq<string>)
    requires WellFormed(e, names) && Spellable(arith, spell, e)
    ensures ParseRule(arith, Text(spell, Print(e, 0)), names) == Ok(e)
  {
    PrintIsWritable(arith, spell, e, 0);
    ScanText(arith, spell, Print(e, 0), []);
    assert [] + Print(e, 0) == Print(e, 0);
    ParsePrinted(e, names);
  }
}
