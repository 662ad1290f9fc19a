/** The fee schedule: a fixed part, a part in basis points, a floor and a cap. */
module FeeSpec {
  import opened Word

  /** `riskBps` and the basis points are 32-bit values, the amounts 64-bit ones. */
  datatype Rule = Rule(basisPoints: nat, fixedFee: int64, minFee: int64, maxFee: int64, riskBps: int)

  /** The rule the engine loads for spending in one currency, and for refunds. */
  const FREE := Rule(0, 0, 0, 0, 0)

  /** The rules the engine starts with, by scenario. */
  const DEFAULTS: map<nat, Rule> := map[
    0 := FREE,
    1 := Rule(45, 20, 0, 5000, 0),
    2 := Rule(100, 150, 200, 500, 0),
    3 := FREE,
    4 := Rule(0, 1500, 0, 0, 0),
    5 := Rule(35, 50, 100, 10000, 0)]

  /** The rule for a scenario that has none: 1% and 1.00, capped at 100.00. */
  const CONSERVATIVE := Rule(100, 100, 0, 10000, 0)

  const RISK_MEDIUM_BPS := 10
  const RISK_HIGH_BPS := 50

  function TotalBps(r: Rule, riskScore: int): int {
    r.basisPoints + r.riskBps +
      (if riskScore >= 80 then RISK_HIGH_BPS else if riskScore >= 40 then RISK_MEDIUM_BPS else 0)
  }

  /** C++ division: towards zero. */
  function Quotient(n: int, d: int): int
    requires d > 0
  {
    if n >= 0 then n / d else -(-n / d)
  }

  /** The 128-bit product divided, then narrowed to 64 bits. */
  function VariablePart(amount: int64, bps: int): int64 {
    Wrap(Quotient(amount * bps, 10000))
  }

  function Clamp(r: Rule, x: int64): int64 {
    var y := if r.minFee > 0 && x < r.minFee then r.minFee else x;
    if r.maxFee > 0 && y > r.maxFee then r.maxFee else y
  }

  function Fee(r: Rule, amount: int64, riskScore: int): int64 {
    Clamp(r, Wrap(r.fixedFee + VariablePart(amount, TotalBps(r, riskScore))))
  }

  /** A rule as an operator would write it: nothing negative, and the floor not above the cap. */
  predicate Sensible(r: Rule) {
    r.fixedFee >= 0 && r.riskBps >= 0 && 0 <= r.minFee && (r.maxFee <= 0 || r.minFee <= r.maxFee)
  }

  /** The fee before clamping stays within 64 bits. */
  predicate Fits(r: Rule, amount: int64, riskScore: int) {
    amount >= 0 && r.fixedFee + amount * TotalBps(r, riskScore) / 10000 <= INT64_MAX
  }

  function Unclamped(r: Rule, amount: nat, bps: nat): int {
    r.fixedFee + amount * bps / 10000
  }

  lemma FeeIs(r: Rule, amount: int64, riskScore: int)
    requires Sensible(r) && Fits(r, amount, riskScore)
    ensures TotalBps(r, riskScore) >= 0 && FitsInt64(Unclamped(r, amount, TotalBps(r, riskScore)))
    ensures Fee(r, amount, riskScore) == Clamp(r, Unclamped(r, amount, TotalBps(r, riskScore)))
  {
    var bps := TotalBps(r, riskScore);
    assert amount * bps >= 0;
    hide TotalBps;
  }

  lemma QuotientSum(a: nat, b: nat, bps: nat)
    ensures (a + b) * bps / 10000 <= a * bps / 10000 + b * bps / 10000 + 1
  {
    assert (a + b) * bps == a * bps + b * bps;
  }

  lemma UnclampedSum(r: Rule, a: nat, b: nat, bps: nat)
    requires r.fixedFee >= 0
    ensures 0 <= Unclamped(r, a, bps) && 0 <= Unclamped(r, b, bps)
    ensures r.fixedFee >= 1 ==> Unclamped(r, a + b, bps) <= Unclamped(r, a, bps) + Unclamped(r, b, bps)
  {
    QuotientSum(a, b, bps);
    assert a * bps >= 0 && b * bps >= 0;
  }

  /** The fee lies between the floor and the cap, and is not negative. */
  lemma FeeWithinBounds(r: Rule, amount: int64, riskScore: int)
    requires Sensible(r) && Fits(r, amount, riskScore)
    ensures 0 <= r.minFee <= Fee(r, amount, riskScore)
    ensures r.maxFee > 0 ==> Fee(r, amount, riskScore) <= r.maxFee
  {
    hide Fee, TotalBps, Unclamped;
    assert amount >= 0;
    hide Fits;
    FeeIs(r, amount, riskScore);
    UnclampedSum(r, amount, 0, TotalBps(r, riskScore));
  }

  lemma ProductMonotone(a: nat, b: nat, x: nat, y: nat)
    requires a <= b && x <= y
    ensures a * x <= b * y && a * x / 10000 <= b * y / 10000
  {
    assert b * y - a * x == b * (y - x) + (b - a) * x;
  }

  /** A larger amount or a higher risk score never lowers the fee. */
  lemma FeeMonotone(r: Rule, a: int64, b: int64, s: int, t: int)
    requires Sensible(r) && a <= b && s <= t && Fits(r, a, s) && Fits(r, b, t)
    ensures Fee(r, a, s) <= Fee(r, b, t)
  {
    FeeIs(r, a, s);
    FeeIs(r, b, t);
    ProductMonotone(a, b, TotalBps(r, s), TotalBps(r, t));
    hide Fee, VariablePart, Wrap;
  }

  lemma ClampSum(r: Rule, x: int64, y: int64, z: int64)
    requires Sensible(r) && x >= 0 && y >= 0 && z <= x + y
    ensures Clamp(r, z) <= Clamp(r, x) + Clamp(r, y)
  {
  }

  /** With a fixed part of at least one unit, splitting an amount never lowers the total fee. */
  lemma SplittingNeverPays(r: Rule, a: int64, b: int64, riskScore: int)
    requires Sensible(r) && r.fixedFee >= 1 && FitsInt64(a + b)
    requires Fits(r, a, riskScore) && Fits(r, b, riskScore) && Fits(r, a + b, riskScore)
    ensures Fee(r, a + b, riskScore) <= Fee(r, a, riskScore) + Fee(r, b, riskScore)
  {
    hide Fee, TotalBps, Unclamped, Clamp;
    FeeIs(r, a, riskScore);
    FeeIs(r, b, riskScore);
    FeeIs(r, a + b, riskScore);
    var bps := TotalBps(r, riskScore);
    UnclampedSum(r, a, b, bps);
    hide Fits;
    ClampSum(r, Unclamped(r, a, bps), Unclamped(r, b, bps), Unclamped(r, a + b, bps));
  }

  /** The two halves and the whole, by their products before the division. */
  lemma ClampGains(r: Rule, p: nat, q: nat)
    requires Sensible(r) && FitsInt64(r.fixedFee + p / 10000) && FitsInt64(r.fixedFee + q / 10000)
    requires FitsInt64(r.fixedFee + (p + q) / 10000)
    ensures var x, y, z := r.fixedFee + p / 10000, r.fixedFee + q / 10000, r.fixedFee + (p + q) / 10000;
      Clamp(r, x) + Clamp(r, y) < Clamp(r, z) <==>
      && r.fixedFee == 0 && p % 10000 + q % 10000 >= 10000
      && r.minFee <= p / 10000 && r.minFee <= q / 10000
      && (r.maxFee <= 0 || p / 10000 + q / 10000 < r.maxFee)
  {
  }

  lemma UnclampedProduct(r: Rule, amount: nat, k: nat)
    ensures amount * k >= 0 && Unclamped(r, amount, k) == r.fixedFee + amount * k / 10000
  {
  }

  lemma Distributes(a: nat, b: nat, k: nat)
    ensures (a + b) * k == a * k + b * k
  {
  }

  /** When splitting an amount lowers the total fee: exactly if the rule has no fixed part, the split drops
      a unit by rounding, and neither the floor nor the cap hides it. */
  lemma SplittingPaysExactly(r: Rule, a: int64, b: int64, riskScore: int)
    requires Sensible(r) && FitsInt64(a + b)
    requires Fits(r, a, riskScore) && Fits(r, b, riskScore) && Fits(r, a + b, riskScore)
    ensures var k := TotalBps(r, riskScore);
      Fee(r, a, riskScore) + Fee(r, b, riskScore) < Fee(r, a + b, riskScore) <==>
        && r.fixedFee == 0 && a * k % 10000 + b * k % 10000 >= 10000
        && r.minFee <= a * k / 10000 && r.minFee <= b * k / 10000
        && (r.maxFee <= 0 || a * k / 10000 + b * k / 10000 < r.maxFee)
  {
    hide Fee, TotalBps, Clamp, VariablePart, Unclamped;
    var k := TotalBps(r, riskScore);
    FeeIs(r, a, riskScore);
    FeeIs(r, b, riskScore);
    FeeIs(r, a + b, riskScore);
    UnclampedProduct(r, a, k);
    UnclampedProduct(r, b, k);
    UnclampedProduct(r, a + b, k);
    Distributes(a, b, k);
    hide Fits, Sensible;
    ClampGains(r, a * k, b * k);
  }

  // ---- the default schedule ----

  /** What a risk score adds, in basis points: nothing below 40, 10 below 80, and 50 from there on. */
  lemma RiskMarkup(r: Rule, score: int)
    requires Sensible(r) && r.minFee == 0 && r.maxFee <= 0 && Fits(r, 10000, score)
    ensures Fee(r, 10000, score) ==
      r.fixedFee + r.basisPoints + r.riskBps + if score < 40 then 0 else if score < 80 then 10 else 50
  {
    FeeIs(r, 10000, score);
    hide VariablePart, Fee;
    assert 10000 * TotalBps(r, score) / 10000 == TotalBps(r, score);
  }

  function Least(x: int, y: int): int {
    if x < y then x else y
  }

  function Greatest(x: int, y: int): int {
    if x < y then y else x
  }

  /** A sensible rule's fee: the fixed part and the basis points, at least the floor, at most the cap. */
  lemma FeeFormula(r: Rule, amount: int64, score: int)
    requires Sensible(r) && Fits(r, amount, score)
    ensures var bps := r.basisPoints + r.riskBps + if score < 40 then 0 else if score < 80 then 10 else 50;
      var fee := Greatest(r.minFee, r.fixedFee + amount * bps / 10000);
      Fee(r, amount, score) == if r.maxFee > 0 then Least(fee, r.maxFee) else fee
  {
    FeeIs(r, amount, score);
    UnclampedSum(r, amount, 0, TotalBps(r, score));
    hide VariablePart, Fee;
  }

  /** The fees of the default schedule, for amounts below ten million million and a low risk score: what the
      published schedule says. */
  lemma DefaultFees(amount: int64, score: int)
    requires 0 <= amount <= 10_000_000_000_000 && score < 40
    ensures Fee(DEFAULTS[0], amount, score) == Fee(DEFAULTS[3], amount, score) == 0
    ensures Fee(DEFAULTS[1], amount, score) == Least(20 + amount * 45 / 10000, 5000)
    ensures Fee(DEFAULTS[4], amount, score) == 1500
    ensures Fee(DEFAULTS[5], amount, score) == Least(Greatest(100, 50 + amount * 35 / 10000), 10000)
    ensures Fee(CONSERVATIVE, amount, score) == Least(100 + amount / 100, 10000)
  {
    FeeFormula(DEFAULTS[0], amount, score);
    FeeFormula(DEFAULTS[1], amount, score);
    FeeFormula(DEFAULTS[4], amount, score);
    FeeFormula(DEFAULTS[5], amount, score);
    FeeFormula(CONSERVATIVE, amount, score);
    assert amount * 100 / 10000 == amount / 100;
    hide Fee;
  }

  /** Cash withdrawals: 1% and 1.50, which is 2.00 up to 50.99 and 5.00 from 350.00 on. */
  lemma CashFees(amount: int64, score: int)
    requires 0 <= amount <= 10_000_000_000_000 && score < 40
    ensures Fee(DEFAULTS[2], amount, score) == Least(Greatest(200, 150 + amount / 100), 500)
    ensures Fee(DEFAULTS[2], amount, score) == 200 <==> amount < 5100
    ensures Fee(DEFAULTS[2], amount, score) == 500 <==> amount >= 35000
  {
    FeeFormula(DEFAULTS[2], amount, score);
    assert amount * 100 / 10000 == amount / 100;
    hide Fee;
  }

  /** A negative amount's variable part is the positive one's, negated: division rounds towards zero. */
  lemma NegativeAmounts(amount: int64, bps: nat)
    requires 0 <= amount && amount * bps / 10000 <= INT64_MAX
    ensures VariablePart(-amount, bps) == -VariablePart(amount, bps)
    ensures VariablePart(amount, bps) == amount * bps / 10000
  {
    var n := amount * bps;
    assert (-amount) * bps == -n;
    assert n >= 0;
    NegatedQuotient(n);
  }

  lemma NegatedQuotient(n: int)
    requires n >= 0
    ensures Quotient(-n, 10000) == -Quotient(n, 10000)
  {
  }

  /** So it can pay under the default schedule: at a high risk score two payments of 100 are free, and one
      of 200 is not. */
  lemma SplittingCanPay()
    ensures Fee(FREE, 100, 80) + Fee(FREE, 100, 80) < Fee(FREE, 200, 80)
  {
    assert TotalBps(FREE, 80) == 50 && 100 * 50 / 10000 == 0 && 200 * 50 / 10000 == 1;
    SplittingPaysExactly(FREE, 100, 100, 80);
    hide Fee;
  }
}

/** The fee engine as an object: its rules by scenario. */
module FeeEngine {
  import opened Word
  import opened FeeSpec

  datatype FeeResult =
    FeeResult(totalFee: int64, fixedPart: int64, variablePart: int64, effectiveBps: int, capped: bool)

  class Engine {
    /** By scenario number. */
    var rules: map<nat, Rule>

    constructor ()
      ensures forall s | s in rules :: Sensible(rules[s])
      ensures rules == DEFAULTS && rules.Keys == {0, 1, 2, 3, 4, 5}
    {
      rules := DEFAULTS;
    }

    /** The fee of the scenario's rule; an unknown scenario gets the conservative rule from now on. */
    method Calculate(scenario: nat, amount: int64, riskScore: int) returns (result: FeeResult)
      modifies this
      ensures rules == if scenario in old(rules) then old(rules) else old(rules)[scenario := CONSERVATIVE]
      ensures result.totalFee == Fee(rules[scenario], amount, riskScore)
      ensures result.capped ==> result.totalFee == rules[scenario].maxFee
      ensures !result.capped && rules[scenario].maxFee > 0 ==> result.totalFee <= rules[scenario].maxFee
      ensures result.effectiveBps == TotalBps(rules[scenario], riskScore)
      ensures result.fixedPart == rules[scenario].fixedFee
      ensures result.variablePart == VariablePart(amount, result.effectiveBps)
      ensures var r, fee := rules[scenario], Wrap(result.fixedPart + result.variablePart);
        result.capped <==> r.maxFee > 0 && r.maxFee < Greatest(fee, if r.minFee > 0 then r.minFee else INT64_MIN)
    {
      if scenario !in rules {
        rules := rules[scenario := CONSERVATIVE];
      }
      var rule := rules[scenario];
      var riskBps := rule.riskBps;
      if riskScore >= 80 {
        riskBps := riskBps + RISK_HIGH_BPS;
      } else if riskScore >= 40 {
        riskBps := riskBps + RISK_MEDIUM_BPS;
      }
      var totalBps := rule.basisPoints + riskBps;
      var variable := VariablePart(amount, totalBps);
      var total := Wrap(rule.fixedFee + variable);
      var capped := false;
      if rule.minFee > 0 && total < rule.minFee {
        total := rule.minFee;
      }
      if rule.maxFee > 0 && total > rule.maxFee {
        total := rule.maxFee;
        capped := true;
      }
      return FeeResult(total, rule.fixedFee, variable, totalBps, capped);
    }

    method SetRule(scenario: nat, rule: Rule)
      modifies this
      ensures rules == old(rules)[scenario := rule]
    {
      rules := rules[scenario := rule];
    }
  }
}
