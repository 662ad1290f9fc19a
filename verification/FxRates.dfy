/** Exchange rates and conversions. A rate is how many units of a currency one US dollar buys; amounts
    are whole units, and every conversion rounds down. */
module FxRates {
  import opened Options

  /** Half a unit of the twelfth decimal. */
  const HALF_STEP: real := 0.0000000000005
  const SCALE: real := 1000000000000.0

  type Rates = map<string, real>

  ghost predicate Positive(rates: Rates) {
    forall c | c in rates :: rates[c] > 0.0
  }

  function UsdRate(rates: Rates, currency: string): Option<real> {
    if currency == "USD" then Some(1.0) else if currency in rates then Some(rates[currency]) else None
  }

  /** Rounded to twelve decimals, halves up. */
  function Round12(r: real): real {
    (r * SCALE + 0.5).Floor as real / SCALE
  }

  /** The cross rate through the dollar. */
  function PairRate(rates: Rates, source: string, target: string): Option<real>
    requires Positive(rates)
  {
    if source == target then Some(1.0)
    else
      match (UsdRate(rates, source), UsdRate(rates, target))
      case (Some(s), Some(t)) => Some(Round12(t / s))
      case _ => None
  }

  function TargetAmount(rate: real, amount: int): int {
    (amount as real * rate).Floor
  }

  /** An unknown currency converts to nothing. */
  function ToUsd(rates: Rates, currency: string, amount: int): int
    requires Positive(rates)
  {
    if currency == "USD" then amount
    else if currency in rates then (amount as real / rates[currency]).Floor
    else 0
  }

  function FromUsd(rates: Rates, currency: string, usd: int): int {
    if currency == "USD" then usd
    else if currency in rates then (usd as real * rates[currency]).Floor
    else 0
  }

  datatype Quote = Quote(rate: real, targetAmount: int, feeAmount: int)

  /** One percent of the dollar value; Go divides towards zero. */
  function UsdFee(usd: int): int {
    if usd >= 0 then usd * 100 / 10000 else -(-usd * 100 / 10000)
  }

  function GetQuote(rates: Rates, source: string, target: string, amount: int): Option<Quote>
    requires Positive(rates)
  {
    match PairRate(rates, source, target)
    case None => None
    case Some(rate) => Some(Quote(rate, TargetAmount(rate, amount), UsdFee(ToUsd(rates, source, amount))))
  }

  // ---- products, kept apart from the linear steps ----

  function Times(x: real, y: real): real {
    x * y
  }

  lemma TimesIs(x: real, y: real)
    ensures Times(x, y) == x * y == y * x && Times(x, y) == Times(y, x)
  {
  }

  lemma TimesGrows(k: real, x: real, y: real)
    ensures k > 0.0 && x < y ==> Times(x, k) < Times(y, k)
    ensures k >= 0.0 && x <= y ==> Times(x, k) <= Times(y, k)
  {
    assert y * k - x * k == (y - x) * k;
  }

  lemma TimesSpreads(x: real, y: real, k: real)
    ensures Times(x + y, k) == Times(x, k) + Times(y, k) && Times(x - y, k) == Times(x, k) - Times(y, k)
    ensures Times(-x, k) == -Times(x, k) && Times(1.0, k) == k && Times(0.0, k) == 0.0
  {
  }

  lemma TimesRegroups(x: real, y: real, z: real)
    ensures Times(Times(x, y), z) == Times(Times(y, z), x)
  {
  }

  lemma TimesInverse(x: real, r: real)
    requires r > 0.0
    ensures Times(x / r, r) == x
  {
  }

  // ---- bounds ----

  lemma RoundClose(r: real)
    ensures -HALF_STEP <= Round12(r) - r <= HALF_STEP
  {
    var y := r * SCALE;
    var n := (y + 0.5).Floor as real;
    assert y - 0.5 < n <= y + 0.5;
    assert n / SCALE - r == (n - y) / SCALE;
  }

  function Abs(x: real): real {
    if x < 0.0 then -x else x
  }

  /** A factor between two bounds moves a product by at most that times the other factor. */
  lemma TimesWithin(k: real, x: real, y: real, bound: real)
    requires -bound <= x - y <= bound
    ensures -Times(Abs(k), bound) <= Times(k, x) - Times(k, y) <= Times(Abs(k), bound)
  {
    hide Times;
    var a := Abs(k);
    TimesGrows(a, x - y, bound);
    TimesGrows(a, -bound, x - y);
    TimesSpreads(x, y, a);
    TimesSpreads(bound, 0.0, a);
    TimesSpreads(k, 0.0, x);
    TimesSpreads(k, 0.0, y);
    TimesIs(a, x);
    TimesIs(a, y);
    TimesIs(a, bound);
  }

  lemma FloorClose(rate: real, amount: int)
    ensures Times(amount as real, rate) - 1.0 < TargetAmount(rate, amount) as real <= Times(amount as real, rate)
  {
  }

  /** A quote is below the exact product by less than one unit plus the rounding of the rate, and above
      it by at most that rounding. */
  lemma QuoteClose(rates: Rates, source: string, target: string, amount: int)
    requires Positive(rates) && source != target
    requires UsdRate(rates, source).Some? && UsdRate(rates, target).Some?
    ensures var exact := amount as real * (UsdRate(rates, target).value / UsdRate(rates, source).value);
      var rounding := Abs(amount as real) * HALF_STEP;
      var quote := GetQuote(rates, source, target, amount);
      && quote.Some?
      && exact - 1.0 - rounding < quote.value.targetAmount as real
      && quote.value.targetAmount as real <= exact + rounding
  {
    hide Round12, Abs, ToUsd, UsdFee, Times, TargetAmount;
    var q, k := UsdRate(rates, target).value / UsdRate(rates, source).value, amount as real;
    RoundClose(q);
    TimesWithin(k, Round12(q), q, HALF_STEP);
    FloorClose(Round12(q), amount);
    TimesIs(k, q);
    TimesIs(Abs(k), HALF_STEP);
  }

  /** What rounding the rate `q` and its inverse can add to an amount, or take from it. */
  function Worth(amount: real, q: real): real
    requires q > 0.0
  {
    Times(Abs(amount), Slack(q))
  }

  function Slack(q: real): real
    requires q > 0.0
  {
    HALF_STEP * (q + 1.0 / q) + HALF_STEP * HALF_STEP
  }

  lemma SlackIs(q: real)
    requires q > 0.0
    ensures Slack(q) == Times(HALF_STEP, q) + Times(HALF_STEP, 1.0 / q) + Times(HALF_STEP, HALF_STEP)
    ensures Times(HALF_STEP, HALF_STEP) > 0.0
  {
  }

  /** Rounding both of two inverse rates keeps their product close to one. */
  lemma RoundedProduct(q: real, p: real, r1: real, r2: real)
    requires q > 0.0 && p == 1.0 / q && p > 0.0 && r1 >= 0.0 && r2 >= 0.0
    requires -HALF_STEP <= r1 - q <= HALF_STEP && -HALF_STEP <= r2 - p <= HALF_STEP
    ensures 1.0 - Slack(q) <= Times(r1, r2) <= 1.0 + Slack(q)
  {
    hide Times, Slack;
    SlackIs(q);
    TimesInverse(1.0, q);
    TimesIs(p, q);
    RoundedUp(q, p, r1, r2);
    RoundedDown(q, p, r1, r2);
  }

  lemma RoundedUp(q: real, p: real, r1: real, r2: real)
    requires q > 0.0 && p > 0.0 && 0.0 <= r1 <= q + HALF_STEP && 0.0 <= r2 <= p + HALF_STEP
    ensures Times(r1, r2) <= Times(q, p) + Times(HALF_STEP, q) + Times(HALF_STEP, p) + Times(HALF_STEP, HALF_STEP)
  {
    hide Times;
    var a, b := q + HALF_STEP, p + HALF_STEP;
    TimesGrows(r2, r1, a);
    TimesGrows(a, r2, b);
    TimesIs(r2, a);
    TimesSpreads(p, HALF_STEP, a);
    TimesSpreads(q, HALF_STEP, p);
    TimesSpreads(q, HALF_STEP, HALF_STEP);
    TimesIs(p, a);
    TimesIs(HALF_STEP, a);
    TimesIs(q, HALF_STEP);
  }

  lemma RoundedDown(q: real, p: real, r1: real, r2: real)
    requires q > 0.0 && p > 0.0 && r1 >= 0.0 && r2 >= 0.0 && Times(q, p) == 1.0
    requires q - HALF_STEP <= r1 && p - HALF_STEP <= r2
    ensures Times(r1, r2) >= 1.0 - Times(HALF_STEP, q) - Times(HALF_STEP, p)
  {
    hide Times;
    var a, b := q - HALF_STEP, p - HALF_STEP;
    if a >= 0.0 && b >= 0.0 {
      TimesGrows(r2, a, r1);
      TimesGrows(a, b, r2);
      TimesIs(r2, a);
      TimesSpreads(p, HALF_STEP, a);
      TimesSpreads(q, HALF_STEP, p);
      TimesSpreads(q, HALF_STEP, HALF_STEP);
      TimesIs(p, a);
      TimesIs(HALF_STEP, a);
      TimesIs(q, HALF_STEP);
      TimesGrows(HALF_STEP, 0.0, HALF_STEP);
      TimesSpreads(0.0, 0.0, HALF_STEP);
    } else {
      SmallRate(q, p);
      TimesGrows(r2, 0.0, r1);
      TimesSpreads(0.0, 0.0, r2);
    }
  }

  /** If one of two inverse rates is below the rounding, the rounding of the other exceeds one. */
  lemma SmallRate(q: real, p: real)
    requires q > 0.0 && p > 0.0 && Times(q, p) == 1.0 && (q < HALF_STEP || p < HALF_STEP)
    ensures Times(HALF_STEP, q) + Times(HALF_STEP, p) >= 1.0
  {
    hide Times;
    TimesGrows(q, 0.0, HALF_STEP);
    TimesGrows(p, 0.0, HALF_STEP);
    TimesSpreads(0.0, 0.0, q);
    TimesSpreads(0.0, 0.0, p);
    TimesIs(q, p);
    if q < HALF_STEP {
      TimesGrows(p, q, HALF_STEP);
    } else {
      TimesGrows(q, p, HALF_STEP);
    }
  }

  lemma RateNonNegative(r: real)
    requires r > 0.0
    ensures Round12(r) >= 0.0
  {
    assert r * SCALE + 0.5 > 0.0;
    assert (r * SCALE + 0.5).Floor >= 0;
  }

  lemma InverseQuotient(s: real, t: real)
    requires s > 0.0 && t > 0.0
    ensures t / s > 0.0 && s / t > 0.0 && s / t == 1.0 / (t / s)
  {
  }

  /** A round trip of any amount that loses something on the way out. */
  lemma RoundTripReal(amount: real, q: real, inverse: real, there: real)
    requires q > 0.0 && inverse == 1.0 / q && inverse > 0.0 && Worth(amount, q) < 1.0
    requires there <= Times(amount, Round12(q))
    ensures Times(there, Round12(inverse)) < amount + 1.0
  {
    hide Round12, Slack, Times;
    RoundClose(q);
    RoundClose(inverse);
    RateNonNegative(q);
    RateNonNegative(inverse);
    var r1, r2 := Round12(q), Round12(inverse);
    RoundedProduct(q, inverse, r1, r2);
    TimesGrows(r2, there, Times(amount, r1));
    TimesRegroups(amount, r1, r2);
    TimesIs(Times(r1, r2), amount);
    TimesWithin(amount, Times(r1, r2), 1.0, Slack(q));
    TimesSpreads(1.0, 0.0, amount);
    TimesIs(amount, 1.0);
  }

  /** Quoting there and back, for any amount: as long as the rounding of the two rates together is worth
      less than one unit of the amount, a round trip never returns more than it started with. */
  lemma RoundTripNeverGains(rates: Rates, a: string, b: string, x: int)
    requires Positive(rates) && a != b && UsdRate(rates, a).Some? && UsdRate(rates, b).Some?
    requires var q := UsdRate(rates, b).value / UsdRate(rates, a).value;
      q > 0.0 && Worth(x as real, q) < 1.0
    ensures var there := GetQuote(rates, a, b, x);
      there.Some? && var back := GetQuote(rates, b, a, there.value.targetAmount);
      back.Some? && back.value.targetAmount <= x
  {
    hide Round12, TargetAmount, ToUsd, UsdFee, Worth, Times;
    var ra, rb := UsdRate(rates, a).value, UsdRate(rates, b).value;
    InverseQuotient(ra, rb);
    var there := TargetAmount(Round12(rb / ra), x);
    FloorClose(Round12(rb / ra), x);
    FloorClose(Round12(ra / rb), there);
    RoundTripReal(x as real, rb / ra, ra / rb, there as real);
  }

  lemma NoGain(x: nat, r1: real, r2: real)
    requires r1 >= 0.0 && r2 >= 0.0 && Times(r1, r2) <= 1.0
    ensures TargetAmount(r2, TargetAmount(r1, x)) <= x
  {
    hide Times, TargetAmount;
    var y, amount := TargetAmount(r1, x), x as real;
    FloorClose(r1, x);
    FloorClose(r2, y);
    TimesGrows(r2, y as real, Times(amount, r1));
    TimesRegroups(amount, r1, r2);
    TimesGrows(amount, Times(r1, r2), 1.0);
    TimesSpreads(1.0, 0.0, amount);
  }

  /** Rates whose product exceeds one gain on every amount that is large enough. */
  lemma Gain(r1: real, r2: real) returns (x: nat)
    requires r1 >= 0.0 && r2 >= 0.0 && Times(r1, r2) > 1.0
    ensures TargetAmount(r2, TargetAmount(r1, x)) > x
  {
    hide Times, TargetAmount;
    var product := Times(r1, r2);
    var excess := product - 1.0;
    x := Enough(excess, 1.0 + r2);
    var y, amount := TargetAmount(r1, x), x as real;
    FloorClose(r1, x);
    FloorClose(r2, y);
    TimesGrows(r2, Times(amount, r1) - 1.0, y as real);
    TimesSpreads(Times(amount, r1), 1.0, r2);
    TimesSpreads(1.0, 0.0, r2);
    TimesRegroups(amount, r1, r2);
    TimesIs(product, amount);
    TimesSpreads(product, 1.0, amount);
    TimesIs(excess, amount);
    TimesSpreads(1.0, 0.0, amount);
  }

  lemma Enough(excess: real, amount: real) returns (x: nat)
    requires excess > 0.0 && amount >= 0.0
    ensures Times(x as real, excess) > amount
  {
    x := (amount / excess).Floor + 1;
    TimesInverse(amount, excess);
    TimesGrows(excess, amount / excess, x as real);
  }

  lemma NoGainExactly(there: real, back: real)
    requires there >= 0.0 && back >= 0.0
    ensures (forall x: nat :: TargetAmount(back, TargetAmount(there, x)) <= x) <==> Times(there, back) <= 1.0
  {
    hide TargetAmount, Times;
    if Times(there, back) <= 1.0 {
      forall x: nat
        ensures TargetAmount(back, TargetAmount(there, x)) <= x
      {
        NoGain(x, there, back);
      }
    } else {
      var x := Gain(there, back);
    }
  }

  /** A round trip never gains, on any amount from zero up, exactly if the two rounded rates multiply to at
      most one. */
  lemma RoundTripExactly(rates: Rates, a: string, b: string)
    requires Positive(rates) && a != b && UsdRate(rates, a).Some? && UsdRate(rates, b).Some?
    ensures var there, back := PairRate(rates, a, b).value, PairRate(rates, b, a).value;
      (forall x: nat :: TargetAmount(back, TargetAmount(there, x)) <= x) <==> there * back <= 1.0
  {
    hide Round12, TargetAmount, Times;
    var ra, rb := UsdRate(rates, a).value, UsdRate(rates, b).value;
    InverseQuotient(ra, rb);
    RateNonNegative(rb / ra);
    RateNonNegative(ra / rb);
    hide UsdRate;
    NoGainExactly(Round12(rb / ra), Round12(ra / rb));
    TimesIs(Round12(rb / ra), Round12(ra / rb));
  }

  /** The source does not check that: with rates 3 and 2, three million million units come back as one more. */
  lemma RoundTripCanGain()
    ensures var rates: Rates := map["EUR" := 3.0, "GBP" := 2.0];
      && PairRate(rates, "EUR", "GBP") == Some(0.666666666667) && PairRate(rates, "GBP", "EUR") == Some(1.5)
      && TargetAmount(1.5, TargetAmount(0.666666666667, 3000000000000)) == 3000000000001
  {
    assert "EUR"[0] != "GBP"[0];
  }

  lemma UsdClose(rates: Rates, currency: string, amount: int)
    requires Positive(rates) && UsdRate(rates, currency).Some?
    ensures var exact := amount as real / UsdRate(rates, currency).value;
      exact - 1.0 < ToUsd(rates, currency, amount) as real <= exact
  {
  }

  lemma FeeOfUsd(usd: int)
    ensures usd >= 0 ==> 0 <= UsdFee(usd) && usd - 99 <= 100 * UsdFee(usd) <= usd
    ensures usd < 0 ==> UsdFee(usd) <= 0 && usd <= 100 * UsdFee(usd) <= usd + 99
  {
  }

  /** A quote's fee is within one unit of one percent of the amount's dollar value, and never above it. */
  lemma QuotedFee(rates: Rates, source: string, target: string, amount: int)
    requires Positive(rates) && UsdRate(rates, source).Some? && UsdRate(rates, target).Some?
    ensures var exact := amount as real / UsdRate(rates, source).value;
      var quote := GetQuote(rates, source, target, amount);
      && quote.Some?
      && exact - 100.0 < 100.0 * quote.value.feeAmount as real < exact + 100.0
      && (amount >= 0 ==> 0 <= quote.value.feeAmount && 100.0 * quote.value.feeAmount as real <= exact)
  {
    UsdClose(rates, source, amount);
    FeeOfUsd(ToUsd(rates, source, amount));
    if amount >= 0 {
      UsdSign(rates, source, amount);
    }
    hide ToUsd, UsdFee, Round12, TargetAmount;
  }

  lemma UsdSign(rates: Rates, currency: string, amount: int)
    requires Positive(rates) && amount >= 0
    ensures ToUsd(rates, currency, amount) >= 0
  {
    if currency != "USD" && currency in rates {
      assert amount as real / rates[currency] >= 0.0;
    }
  }

  /** Which quotes there are: one currency on both sides at rate 1, whether it is known or not, and otherwise
      those of two known currencies; an unknown one converts to nothing and costs nothing. */
  lemma QuotesGiven(rates: Rates, source: string, target: string, amount: int)
    requires Positive(rates)
    ensures var quote := GetQuote(rates, source, target, amount);
      && (quote.Some? <==> source == target || (UsdRate(rates, source).Some? && UsdRate(rates, target).Some?))
      && (source == target ==> quote.value.rate == 1.0 && quote.value.targetAmount == amount)
      && (source == target && UsdRate(rates, source).None? ==> quote.value.feeAmount == 0)
    ensures UsdRate(rates, source).None? ==> ToUsd(rates, source, amount) == 0 && FromUsd(rates, source, amount) == 0
    ensures ToUsd(rates, "USD", amount) == amount == FromUsd(rates, "USD", amount)
  {
    assert TargetAmount(1.0, amount) == amount;
    hide Round12;
  }

  /** Exactly the amounts worth less than 100 dollar units are quoted without a fee. */
  lemma FreeExactly(usd: int)
    ensures UsdFee(usd) == 0 <==> -100 < usd < 100
  {
  }

  /** An amount divided by a rate, rounded down, and multiplied again. */
  lemma ThereAndBack(x: real, r: real, usd: real)
    requires r > 0.0 && x / r - 1.0 < usd <= x / r
    ensures x - r < Times(usd, r) <= x
  {
    hide Times;
    var e := x / r;
    TimesInverse(x, r);
    TimesGrows(r, e - 1.0, usd);
    TimesGrows(r, usd, e);
    TimesSpreads(e, 1.0, r);
    TimesSpreads(1.0, 0.0, r);
  }

  /** Converting to dollars and back loses less than one dollar's worth and one unit, and never gains. */
  lemma UsdRoundTrip(rates: Rates, currency: string, x: int)
    requires Positive(rates) && UsdRate(rates, currency).Some?
    ensures var r := UsdRate(rates, currency).value;
      var back := FromUsd(rates, currency, ToUsd(rates, currency, x));
      x as real - r - 1.0 < back as real && back <= x
  {
    if currency != "USD" {
      var r, usd := rates[currency], ToUsd(rates, currency, x);
      ThereAndBack(x as real, r, usd as real);
      TimesIs(usd as real, r);
      hide Times;
    }
  }
}
