/** Evaluating a rule, and the only two ways a parsed rule can fail to give a value. */
module UpdateRuleEval {
  import opened Wrappers
  import opened UpdateRule
  import opened UpdateRulePrint

  function Fold<N>(f: (N, N) -> N, first: N, rest: seq<N>): N {
    if rest == [] then first else Fold(f, f(first, rest[0]), rest[1..])
  }

  function Apply<N>(arith: Arith<N>, f: string, values: seq<N>): Result<N, RuleError> {
    if f == "max" && |values| >= 1 then Ok(Fold(arith.max, values[0], values[1..]))
    else if f == "min" && |values| >= 1 then Ok(Fold(arith.min, values[0], values[1..]))
    else if f == "abs" && |values| == 1 then Ok(arith.abs(values[0]))
    else if f == "clamp" && |values| == 3 then Ok(arith.min(arith.max(values[0], values[1]), values[2]))
    else Err(CannotTake(f, |values|))
  }

  function Eval<N>(arith: Arith<N>, e: Expr<N>, quantities: map<string, N>): Result<N, RuleError>
    decreases e, 1
  {
    match e
    case Literal(value) => Ok(value)
    case Quantity(name) => if name in quantities then Ok(quantities[name]) else Err(NoValue(name))
    case Neg(inner) =>
      var v :- Eval(arith, inner, quantities);
      Ok(arith.neg(v))
    case Binary(left, op, right) =>
      var l :- Eval(arith, left, quantities);
      var r :- Eval(arith, right, quantities);
      Ok(if op == '+' then arith.add(l, r)
         else if op == '-' then arith.sub(l, r)
         else if op == '*' then arith.mul(l, r)
         else arith.div(l, r))
    case Call(f, args) =>
      var values :- EvalAll(arith, args, quantities);
      Apply(arith, f, values)
  }

  /** Left to right, stopping at the first argument that fails. */
  function EvalAll<N>(arith: Arith<N>, args: seq<Expr<N>>, quantities: map<string, N>): (r: Result<seq<N>, RuleError>)
    ensures r.Ok? ==> |r.value| == |args|
    decreases args, 0
  {
    if args == [] then Ok([]) else
    var v :- Eval(arith, args[0], quantities);
    var rest :- EvalAll(arith, args[1..], quantities);
    Ok([v] + rest)
  }

  /** `UpdateRule::eval`: a value that is not finite is an error. */
  function EvalRule<N>(arith: Arith<N>, e: Expr<N>, quantities: map<string, N>): Result<N, RuleError> {
    var v :- Eval(arith, e, quantities);
    if arith.finite(v) then Ok(v) else Err(NotFinite)
  }

  predicate Takes(f: string, count: nat) {
    (f == "abs" ==> count == 1) && (f == "clamp" ==> count == 3)
  }

  /** Every call of `abs` has one argument and every call of `clamp` three. */
  predicate CountsFit<N>(e: Expr<N>) {
    match e
    case Literal(_) => true
    case Quantity(_) => true
    case Neg(inner) => CountsFit(inner)
    case Binary(left, _, right) => CountsFit(left) && CountsFit(right)
    case Call(f, args) => Takes(f, |args|) && forall k :: 0 <= k < |args| ==> CountsFit(args[k])
  }

  /** The failure is a wrong number of arguments of `abs` or `clamp`. */
  predicate WrongCount(error: RuleError) {
    error.CannotTake? && (error.function_ == "abs" || error.function_ == "clamp")
        && !Takes(error.function_, error.values)
  }

  lemma {:induction false} ApplyExact<N>(arith: Arith<N>, f: string, values: seq<N>)
    requires f in FUNCTIONS && |values| >= 1
    ensures Apply(arith, f, values).Ok? <==> Takes(f, |values|)
    ensures Apply(arith, f, values).Err? ==> WrongCount(Apply(arith, f, values).error)
  {
    assert |"max"| == |"min"| == |"abs"| == 3 && |"clamp"| == 5;
    assert "max"[0] == 'm' && "max"[1] == 'a' && "min"[1] == 'i' && "abs"[0] == 'a';
    assert forall g :: g in FUNCTIONS ==> g == "max" || g == "min" || g == "abs" || g == "clamp";
  }

  lemma {:induction false} EvalExact<N>(arith: Arith<N>, e: Expr<N>, names: seq<string>, quantities: map<string, N>)
    requires WellFormed(e, names) && forall name :: name in names ==> name in quantities
    ensures Eval(arith, e, quantities).Ok? <==> CountsFit(e)
    ensures Eval(arith, e, quantities).Err? ==> WrongCount(Eval(arith, e, quantities).error)
    decreases e, 1
  {
    match e
    case Literal(_) =>
    case Quantity(_) =>
    case Neg(inner) =>
      EvalExact(arith, inner, names, quantities);
    case Binary(left, _, right) =>
      EvalExact(arith, left, names, quantities);
      EvalExact(arith, right, names, quantities);
    case Call(f, args) =>
      EvalAllExact(arith, args, names, quantities);
      var values := EvalAll(arith, args, quantities);
      if values.Ok? { ApplyExact(arith, f, values.value); }
  }

  lemma {:induction false} EvalAllExact<N>(arith: Arith<N>, args: seq<Expr<N>>, names: seq<string>,
                                           quantities: map<string, N>)
    requires forall k :: 0 <= k < |args| ==> WellFormed(args[k], names)
    requires forall name :: name in names ==> name in quantities
    ensures EvalAll(arith, args, quantities).Ok? <==> forall k :: 0 <= k < |args| ==> CountsFit(args[k])
    ensures EvalAll(arith, args, quantities).Err? ==> WrongCount(EvalAll(arith, args, quantities).error)
    decreases args, 0
  {
    if args != [] {
      EvalExact(arith, args[0], names, quantities);
      EvalAllExact(arith, args[1..], names, quantities);
      assert forall k :: 1 <= k < |args| ==> args[k] == args[1..][k - 1];
      if forall k :: 0 <= k < |args[1..]| ==> CountsFit(args[1..][k]) {
        assert forall k :: 1 <= k < |args| ==> CountsFit(args[k]);
      }
    }
  }

  /** A rule that parsed, on quantities covering its class: it evaluates exactly when its `abs` and
      `clamp` calls have the right number of arguments and the value is finite, and fails in no
      other way. */
  lemma {:induction false} ParsedRuleEvaluates<N>(arith: Arith<N>, source: string, names: seq<string>,
                                                  quantities: map<string, N>)
    requires ParseRule(arith, source, names).Ok?
    requires forall name :: name in names ==> name in quantities
    ensures var e := ParseRule(arith, source, names).value;
            var r := EvalRule(arith, e, quantities);
            && (Eval(arith, e, quantities).Ok? <==> CountsFit(e))
            && (CountsFit(e) ==>
                  r == if arith.finite(Eval(arith, e, quantities).value) then Eval(arith, e, quantities)
                       else Err(NotFinite))
            && (!CountsFit(e) ==> r.Err? && WrongCount(r.error))
  {
    var tokens := Tokens(arith, source).value;
    ParsedIsInScope(tokens, names);
    EvalExact(arith, ParseRule(arith, source, names).value, names, quantities);
  }
}
