/**
 Checking a rule by probing: a deterministic xorshift64* generator, and the comparison with the
 class's reference rule at the points it draws. Quantities are reals here: rounding is not modelled.
 */
module RuleProbe {
  import opened Wrappers

  const PROBES: nat := 64
  const SEED: bv64 := 0x5eed_5a0d_1a7e

  // --- The generator -------------------------------------------------------------------------

  function XorRight12(x: bv64): bv64 {
    x ^ (x >> 12)
  }

  function XorLeft25(x: bv64): bv64 {
    x ^ (x << 25)
  }

  function XorRight27(x: bv64): bv64 {
    x ^ (x >> 27)
  }

  /** One step of the state. */
  function Stepped(x: bv64): bv64 {
    XorRight27(XorLeft25(XorRight12(x)))
  }

  function Output(x: bv64): bv64 {
    x * 0x2545_f491_4f6c_dd1d
  }

  lemma Right12KeepsNonZero(x: bv64)
    requires x != 0
    ensures XorRight12(x) != 0
  {
  }

  lemma Left25KeepsNonZero(x: bv64)
    requires x != 0
    ensures XorLeft25(x) != 0
  {
  }

  lemma Right27KeepsNonZero(x: bv64)
    requires x != 0
    ensures XorRight27(x) != 0
  {
  }

  lemma StepKeepsNonZero(x: bv64)
    requires x != 0
    ensures Stepped(x) != 0
  {
    Right12KeepsNonZero(x);
    Left25KeepsNonZero(XorRight12(x));
    Right27KeepsNonZero(XorLeft25(XorRight12(x)));
  }

  function After(x: bv64, draws: nat): bv64 {
    if draws == 0 then x else Stepped(After(x, draws - 1))
  }

  /** From a non-zero state the state is never zero, however many draws are made. */
  lemma {:induction false} NeverZero(x: bv64, draws: nat)
    requires x != 0
    ensures After(x, draws) != 0
  {
    if draws > 0 {
      NeverZero(x, draws - 1);
      StepKeepsNonZero(After(x, draws - 1));
    }
  }

  /** A draw shifted right by 11 bits, as a number: its top 53 bits. */
  function Top(drawn: bv64): (top: int)
    ensures 0 <= top < 0x20_0000_0000_0000
  {
    drawn as int / 2048
  }

  class Probe {
    var word: bv64

    ghost predicate Valid()
      reads this
    {
      word != 0
    }

    constructor (seed: bv64)
      ensures Valid() && word == if seed == 0 then 1 else seed
    {
      word := if seed == 0 then 1 else seed;
    }

    method Step()
      requires Valid()
      modifies this
      ensures Valid() && word == Stepped(old(word))
    {
      StepKeepsNonZero(word);
      word := XorRight12(word);
      word := XorLeft25(word);
      word := XorRight27(word);
    }

    method Next() returns (drawn: bv64)
      requires Valid()
      modifies this
      ensures Valid() && word == Stepped(old(word)) && drawn == Output(word)
    {
      Step();
      drawn := Output(word);
    }

    /** Uniform in `[low, high)`, from the top 53 bits. */
    method Uniform(low: real, high: real) returns (x: real)
      requires Valid()
      modifies this
      ensures Valid() && word == Stepped(old(word))
      ensures low < high ==> low <= x < high
      ensures x == Scaled(Top(Output(word)), low, high)
    {
      var drawn := Next();
      x := Scaled(Top(drawn), low, high);
    }

    /** An integer from `low` to `high`, both included. */
    method Whole(low: nat, high: nat) returns (x: nat)
      requires Valid() && low <= high < 0x1_0000_0000
      modifies this
      ensures Valid() && word == Stepped(old(word))
      ensures low <= x <= high && x == low + Output(word) as int % (high - low + 1)
    {
      var drawn := Next();
      var span := high - low + 1;
      x := low + drawn as int % span;
    }
  }

  function Scaled(top: int, low: real, high: real): (x: real)
    requires 0 <= top < 0x20_0000_0000_0000
    ensures low < high ==> low <= x < high
  {
    low + Share(top, high - low)
  }

  /** The fraction `top / 2^53` of `width`. */
  function Share(top: int, width: real): (part: real)
    requires 0 <= top < 0x20_0000_0000_0000
    ensures width > 0.0 ==> 0.0 <= part < width
  {
    var unit := top as real / 9007199254740992.0;
    FractionIsSmaller(unit, width);
    unit * width
  }

  lemma FractionIsSmaller(unit: real, width: real)
    requires 0.0 <= unit < 1.0
    ensures width > 0.0 ==> 0.0 <= unit * width < width
  {
    if width > 0.0 {
      assert (1.0 - unit) * width > 0.0;
      assert (1.0 - unit) * width == width - unit * width;
    }
  }

  // --- The comparison ------------------------------------------------------------------------

  type Quantities = map<string, real>

  /** How points are drawn, and what the reference rule gives for one. */
  datatype UpdateClass = UpdateClass(probe: bv64 -> (Quantities, bv64), reference: Quantities -> real)

  datatype Gap = Finite(size: real) | Infinite

  datatype Derivation = Differs(worstGap: Gap) | Matches

  function Abs(x: real): real {
    if x < 0.0 then -x else x
  }

  function Tolerance(reference: real): real {
    0.000000001 * if Abs(reference) > 1.0 then Abs(reference) else 1.0
  }

  /** `rule` gives None where it cannot be evaluated. */
  function GapAt(cls: UpdateClass, rule: Quantities -> Option<real>, point: Quantities): Gap {
    var value := rule(point);
    if value.None? then Infinite else Finite(Abs(value.value - cls.reference(point)))
  }

  predicate Exceeds(gap: Gap, bound: real) {
    gap.Infinite? || gap.size > bound
  }

  predicate AtMost(a: Gap, b: Gap) {
    b.Infinite? || (a.Finite? && a.size <= b.size)
  }

  predicate Offends(cls: UpdateClass, rule: Quantities -> Option<real>, point: Quantities) {
    Exceeds(GapAt(cls, rule, point), Tolerance(cls.reference(point)))
  }

  /** The first `n` points drawn from `word`. */
  function Points(cls: UpdateClass, word: bv64, n: nat): (points: seq<Quantities>)
    ensures |points| == n
    decreases n
  {
    if n == 0 then [] else
    var (point, next) := cls.probe(word);
    [point] + Points(cls, next, n - 1)
  }

  /** `worst` is the largest offending gap of the first `n` points, which one of them attains, or zero
      when none offends. */
  ghost predicate IsWorst(cls: UpdateClass, rule: Quantities -> Option<real>, points: seq<Quantities>, n: nat,
                          worst: Gap)
    requires n <= |points|
  {
    && (worst == Finite(0.0) <==> forall k :: 0 <= k < n ==> !Offends(cls, rule, points[k]))
    && (worst != Finite(0.0) ==>
          exists k :: 0 <= k < n && Offends(cls, rule, points[k]) && GapAt(cls, rule, points[k]) == worst)
    && (forall k :: 0 <= k < n && Offends(cls, rule, points[k]) ==> AtMost(GapAt(cls, rule, points[k]), worst))
  }

  lemma OffendingGapIsPositive(cls: UpdateClass, rule: Quantities -> Option<real>, point: Quantities)
    requires Offends(cls, rule, point)
    ensures !AtMost(GapAt(cls, rule, point), Finite(0.0))
  {
    assert Tolerance(cls.reference(point)) > 0.0;
  }

  lemma WorstStep(cls: UpdateClass, rule: Quantities -> Option<real>, points: seq<Quantities>, n: nat, worst: Gap)
    requires n < |points| && IsWorst(cls, rule, points, n, worst)
    ensures var gap := GapAt(cls, rule, points[n]);
            IsWorst(cls, rule, points, n + 1,
                    if !Offends(cls, rule, points[n]) || AtMost(gap, worst) then worst else gap)
  {
    if Offends(cls, rule, points[n]) {
      OffendingGapIsPositive(cls, rule, points[n]);
    }
    hide Offends, GapAt;
  }

  /** The loop over the probes: it answers `Matches` exactly when no probe offends, and otherwise
      the largest offending gap, which some probe attains. */
  method Verify(cls: UpdateClass, rule: Quantities -> Option<real>) returns (d: Derivation)
    ensures var points := Points(cls, SEED, PROBES);
            && (d == Matches <==> forall k :: 0 <= k < PROBES ==> !Offends(cls, rule, points[k]))
            && (d.Differs? ==>
                  && (exists k :: 0 <= k < PROBES
                                  && Offends(cls, rule, points[k]) && GapAt(cls, rule, points[k]) == d.worstGap)
                  && (forall k :: 0 <= k < PROBES && Offends(cls, rule, points[k]) ==>
                        AtMost(GapAt(cls, rule, points[k]), d.worstGap)))
  {
    hide AtMost;
    var word := SEED;
    var worst := Finite(0.0);
    ghost var points := Points(cls, SEED, PROBES);
    for i := 0 to PROBES
      invariant 0 <= i <= PROBES
      invariant points[i..] == Points(cls, word, PROBES - i)
      invariant IsWorst(cls, rule, points, i, worst)
    {
      var (point, next) := cls.probe(word);
      assert points[i] == points[i..][0] == point;
      assert points[i + 1..] == points[i..][1..];
      WorstStep(cls, rule, points, i, worst);
      hide IsWorst;
      word := next;
      var reference := cls.reference(point);
      var gap := GapAt(cls, rule, point);
      if Exceeds(gap, Tolerance(reference)) {
        worst := if AtMost(gap, worst) then worst else gap;
      }
    }
    d := if worst == Finite(0.0) then Matches else Differs(worst);
  }
}
