/**
 * The price arithmetic of the Chainlink helper: a euro price in cents is
 * turned into an amount of the chain's native token (MATIC on Polygon) in its
 * smallest unit, which the code calls wei, using two aggregator readings:
 * MATIC/USD (the base feed) and EUR/USD (the quote feed).
 *
 * The aggregator calls (`latestRoundData`, `decimals`) are not modelled; their
 * results arrive as a `Reading`. All numbers are exact reals.
 *
 * Each function body is a single expression following the source; the proof
 * of its contract sits in a lemma it calls first. Lemmas that need only the
 * contracts of the functions they mention hide the bodies (`hide *`), which
 * keeps the solver away from the nonlinear unfoldings of `10 ** n`.
 */
module Chainlink {
  import opened JsMath

  /** `getPrice` works at this many decimals (`decs`). */
  const Decs: nat := 8
  /** The input of `getPrice` is in cents: two decimals of a euro. */
  const CentsDecimals: nat := 2
  /** One whole token is `10 ** 18` wei. */
  const WeiExponent: nat := 18

  /** What a feed reports: an integer answer scaled by `10 ** decimals`. */
  datatype Reading = Reading(answer: int, decimals: nat)

  /** `10 ** n` as a real. */
  function Scale(n: nat): (r: real)
    ensures r >= 1.0
  {
    Pow10(n) as real
  }

  lemma ScaleZero()
    ensures Scale(0) == 1.0
  {
  }

  lemma ScaleAdd(a: nat, b: nat)
    ensures Scale(a + b) == Scale(a) * Scale(b)
  {
    hide Pow10;
    Pow10Add(a, b);
    CastMul(Pow10(a), Pow10(b));
  }

  lemma ScaleCast(a: int, k: nat)
    ensures (a * Pow10(k)) as real == a as real * Scale(k)
  {
    hide Pow10;
    CastMul(a, Pow10(k));
  }

  /**
   * The quantity a reading stands for, e.g. 1.08 for the answer 108000000 at
   * 8 decimals. It has the sign of the answer.
   */
  function Value(rd: Reading): (v: real)
    ensures v * Scale(rd.decimals) == rd.answer as real
    ensures v > 0.0 <==> rd.answer > 0
    ensures v < 0.0 <==> rd.answer < 0
    ensures v == 0.0 <==> rd.answer == 0
  {
    DivMulCancel(rd.answer as real, Scale(rd.decimals));
    DivSign(rd.answer as real, Scale(rd.decimals));
    rd.answer as real / Scale(rd.decimals)
  }

  /** Same strict sign. */
  predicate SameSign(a: int, b: int)
  {
    (a > 0 && b > 0) || (a < 0 && b < 0)
  }

  // ---------------------------------------------------------------- scalePrice

  /** The two rescaling branches keep `price / 10^priceDecimals` unchanged. */
  lemma ScaleBranchesPreserve(price: real, priceDecimals: nat, decimals: nat)
    ensures priceDecimals < decimals ==>
      price * Scale(decimals - priceDecimals) * Scale(priceDecimals) == price * Scale(decimals)
    ensures priceDecimals > decimals ==>
      price / Scale(priceDecimals - decimals) * Scale(priceDecimals) == price * Scale(decimals)
  {
    hide *;
    if priceDecimals < decimals {
      var k := decimals - priceDecimals;
      ScaleAdd(priceDecimals, k);
      MulThenMul(price, Scale(priceDecimals), Scale(k), Scale(decimals));
    } else if priceDecimals > decimals {
      var k := priceDecimals - decimals;
      ScaleAdd(decimals, k);
      DivThenMul(price, Scale(priceDecimals), Scale(k), Scale(decimals));
    }
  }

  /**
   * `scalePrice`: re-express a price given at `priceDecimals` decimals at
   * `decimals` decimals. The quantity it stands for does not change:
   * `r / 10^decimals == price / 10^priceDecimals`.
   */
  function ScalePrice(price: real, priceDecimals: nat, decimals: nat): (r: real)
    ensures r * Scale(priceDecimals) == price * Scale(decimals)
  {
    hide *;
    ScaleBranchesPreserve(price, priceDecimals, decimals);
    if priceDecimals < decimals then
      price * Scale(decimals - priceDecimals)
    else if priceDecimals > decimals then
      price / Scale(priceDecimals - decimals)
    else
      price
  }

  /** Both branches of `scalePrice` in one closed form: `price * 10^decimals / 10^priceDecimals`. */
  lemma ScalePriceClosedForm(price: real, priceDecimals: nat, decimals: nat)
    ensures ScalePrice(price, priceDecimals, decimals) == price * Scale(decimals) / Scale(priceDecimals)
  {
    hide *;
    SolveFactor(ScalePrice(price, priceDecimals, decimals), price * Scale(decimals), Scale(priceDecimals));
  }

  /** Scaling up multiplies by the gap's power of ten, scaling down divides by it. */
  lemma ScalePriceByGap(price: real, priceDecimals: nat, decimals: nat)
    ensures priceDecimals <= decimals ==>
      ScalePrice(price, priceDecimals, decimals) == price * Scale(decimals - priceDecimals)
    ensures priceDecimals >= decimals ==>
      ScalePrice(price, priceDecimals, decimals) == price / Scale(priceDecimals - decimals)
  {
    hide Scale;
    ScaleZero();
  }

  /** Equal precisions leave the price unchanged. */
  lemma ScalePriceSame(price: real, d: nat)
    ensures ScalePrice(price, d, d) == price
  {
    hide Scale;
  }

  /** Rescaling from `d1` to `d2` and then to `d3` is rescaling from `d1` to `d3`. */
  lemma ScalePriceCompose(price: real, d1: nat, d2: nat, d3: nat)
    ensures ScalePrice(ScalePrice(price, d1, d2), d2, d3) == ScalePrice(price, d1, d3)
  {
    hide *;
    var s := ScalePrice(price, d1, d2);
    ChainOfWeights(price, s, ScalePrice(s, d2, d3), ScalePrice(price, d1, d3), Scale(d1), Scale(d2), Scale(d3));
  }

  /** With exact arithmetic, scaling there and back returns the original price. */
  lemma {:induction false} ScalePriceRoundTrip(price: real, d1: nat, d2: nat)
    ensures ScalePrice(ScalePrice(price, d1, d2), d2, d1) == price
  {
    hide *;
    ScalePriceCompose(price, d1, d2, d1);
    ScalePriceSame(price, d1);
  }

  /** Rescaling keeps the sign of the price. */
  lemma ScalePriceSign(price: real, priceDecimals: nat, decimals: nat)
    ensures ScalePrice(price, priceDecimals, decimals) > 0.0 <==> price > 0.0
    ensures ScalePrice(price, priceDecimals, decimals) < 0.0 <==> price < 0.0
  {
    hide *;
    var r := ScalePrice(price, priceDecimals, decimals);
    MulPositiveSign(r, Scale(priceDecimals));
    MulPositiveSign(price, Scale(decimals));
  }

  // -------------------------------------------------------- getAggregatorPrice

  /** A reading rescaled from its own feed decimals to `decimals` is its value at that precision. */
  lemma ScaledReading(rd: Reading, decimals: nat)
    ensures ScalePrice(rd.answer as real, rd.decimals, decimals) == Value(rd) * Scale(decimals)
  {
    hide *;
    Reweigh(ScalePrice(rd.answer as real, rd.decimals, decimals), Value(rd),
            rd.answer as real, Scale(rd.decimals), Scale(decimals));
  }

  /**
   * `getAggregatorPrice` once the feed has answered: the answer rescaled from
   * the feed's own decimals to `decimals`, i.e. the reading's value counted in
   * units of `10^-decimals`.
   */
  function AggregatorPrice(rd: Reading, decimals: nat): (r: real)
    ensures r == Value(rd) * Scale(decimals)
  {
    hide *;
    ScaledReading(rd, decimals);
    ScalePrice(rd.answer as real, rd.decimals, decimals)
  }

  // ----------------------------------------------------------- getDerivedPrice

  /** `(base * 10^decimals) / quote` on the two rescaled readings is the ratio of their values at `decimals`. */
  lemma RescaledQuotient(base: Reading, quote: Reading, decimals: nat)
    requires quote.answer != 0
    ensures AggregatorPrice(quote, decimals) != 0.0
    ensures AggregatorPrice(base, decimals) * Scale(decimals) / AggregatorPrice(quote, decimals)
         == Value(base) / Value(quote) * Scale(decimals)
  {
    hide *;
    var u := Scale(decimals);
    var bp, qp := AggregatorPrice(base, decimals), AggregatorPrice(quote, decimals);
    var b, q := Value(base), Value(quote);
    MulNonzero(q, u);
    DivCancel(b * u, q, u);
    DivMulCancel(b, q);
    assert (b * u) / q * q == b / q * u * q;
    MulInjective((b * u) / q, b / q * u, q);
  }

  /**
   * `getDerivedPrice`: the price of one unit of the base asset in units of the
   * quote asset, at `decimals` decimals: `Value(base) / Value(quote) * 10^decimals`.
   * Each reading is rescaled with its own feed decimals. The source divides by
   * the rescaled quote price without a guard, so a zero quote answer is excluded.
   */
  function DerivedPrice(base: Reading, quote: Reading, decimals: nat): (r: real)
    requires quote.answer != 0
    ensures r == Value(base) / Value(quote) * Scale(decimals)
  {
    hide *;
    RescaledQuotient(base, quote, decimals);
    AggregatorPrice(base, decimals) * Scale(decimals) / AggregatorPrice(quote, decimals)
  }

  /** The derived price is `scale(base) * 10^decimals / scale(quote)`, each reading scaled with its own feed decimals. */
  lemma DerivedPriceFromScaled(base: Reading, quote: Reading, decimals: nat)
    requires quote.answer != 0
    ensures ScalePrice(quote.answer as real, quote.decimals, decimals) != 0.0
    ensures DerivedPrice(base, quote, decimals) ==
      ScalePrice(base.answer as real, base.decimals, decimals) * Scale(decimals)
        / ScalePrice(quote.answer as real, quote.decimals, decimals)
  {
    hide Scale, ScalePrice, Value;
    RescaledQuotient(base, quote, decimals);
  }

  /** The derived price is positive exactly when both answers have the same sign, and zero exactly when the base answer is. */
  lemma DerivedPriceSign(base: Reading, quote: Reading, decimals: nat)
    requires quote.answer != 0
    ensures DerivedPrice(base, quote, decimals) > 0.0 <==> SameSign(base.answer, quote.answer)
    ensures DerivedPrice(base, quote, decimals) == 0.0 <==> base.answer == 0
  {
    hide Scale, Value, AggregatorPrice, DerivedPrice;
    QuotientSign(Value(base), Value(quote));
    MulPositiveSign(Value(base) / Value(quote), Scale(decimals));
  }

  /** Positive answers from both feeds give a positive derived price. */
  lemma DerivedPricePositive(base: Reading, quote: Reading, decimals: nat)
    requires base.answer > 0 && quote.answer > 0
    ensures DerivedPrice(base, quote, decimals) > 0.0
  {
    hide *;
    DerivedPriceSign(base, quote, decimals);
  }

  /** A reading with `k` more feed decimals and an answer `10^k` times larger stands for the same value. */
  lemma ValueRefined(rd: Reading, fine: Reading, k: nat)
    requires fine.answer == rd.answer * Pow10(k) && fine.decimals == rd.decimals + k
    ensures Value(fine) == Value(rd)
  {
    hide *;
    ScaleCast(rd.answer, k);
    ScaleAdd(rd.decimals, k);
    CancelCommon(Value(fine), Value(rd), rd.answer as real, fine.answer as real,
                 Scale(rd.decimals), Scale(k), Scale(fine.decimals));
  }

  /**
   * Feeds of different native precision give the same derived price as long as
   * they report the same values: each reading is rescaled by its own decimals.
   */
  lemma DerivedPriceFeedPrecision(base: Reading, quote: Reading, kb: nat, kq: nat, decimals: nat)
    requires quote.answer != 0
    ensures quote.answer * Pow10(kq) != 0
    ensures DerivedPrice(Reading(base.answer * Pow10(kb), base.decimals + kb),
                         Reading(quote.answer * Pow10(kq), quote.decimals + kq), decimals)
         == DerivedPrice(base, quote, decimals)
  {
    hide *;
    ValueRefined(base, Reading(base.answer * Pow10(kb), base.decimals + kb), kb);
    ValueRefined(quote, Reading(quote.answer * Pow10(kq), quote.decimals + kq), kq);
  }

  // ------------------------------------------------------ fromEthers / fromWei

  /** `fromEthers`: an amount in whole tokens expressed in wei. */
  function FromEthers(value: real): (r: real)
    ensures r / Scale(WeiExponent) == value
  {
    hide *;
    MulDivCancel(value, Scale(WeiExponent));
    value * Scale(WeiExponent)
  }

  /** `fromWei`: an amount in wei expressed in whole tokens. */
  function FromWei(value: real): (r: real)
    ensures r * Scale(WeiExponent) == value
  {
    hide *;
    DivMulCancel(value, Scale(WeiExponent));
    value / Scale(WeiExponent)
  }

  /** Token to wei is rescaling from 0 to 18 decimals, and wei to token the reverse. */
  lemma EtherWeiAreRescales(value: real)
    ensures FromEthers(value) == ScalePrice(value, 0, WeiExponent)
    ensures FromWei(value) == ScalePrice(value, WeiExponent, 0)
  {
    hide Scale, ScalePrice;
    ScalePriceByGap(value, 0, WeiExponent);
    ScalePriceByGap(value, WeiExponent, 0);
  }

  lemma EthersThenWei(value: real)
    ensures FromWei(FromEthers(value)) == value
  {
    hide *;
    var w := FromEthers(value);
    SolveFactor(FromWei(w), w, Scale(WeiExponent));
  }

  lemma WeiThenEthers(value: real)
    ensures FromEthers(FromWei(value)) == value
  {
    hide *;
    var t := FromWei(value);
    DivMulCancel(FromEthers(t), Scale(WeiExponent));
  }

  /** One token is `10^18` wei, and `10^18` wei is one token. */
  lemma OneEther()
    ensures FromEthers(1.0) == 1000000000000000000.0
    ensures FromWei(1000000000000000000.0) == 1.0
  {
    Pow10Values();
  }

  // ------------------------------------------------------------------ getPrice

  /** The unrounded quotient of `getPrice` is the euro amount divided by the token price, in wei. */
  lemma PriceFromRateExact(value: real, rate: real)
    requires rate != 0.0
    ensures rate / Scale(Decs) != 0.0
    ensures FromEthers(value * Scale(Decs - CentsDecimals)) / rate
         == FromEthers(value / Scale(CentsDecimals) / (rate / Scale(Decs)))
  {
    hide Scale;
    var c, p, d := Scale(CentsDecimals), Scale(Decs - CentsDecimals), Scale(Decs);
    ScaleAdd(Decs - CentsDecimals, CentsDecimals);
    DivByQuotient(value / c, rate, d);
    DivThenMul(value, d, c, p);
    MulDivSwap(value * p, Scale(WeiExponent), rate);
  }

  /**
   * The arithmetic of `getPrice` once the derived price `rate` (the price of
   * one token in euros at `Decs` decimals) is known: `value` cents brought to
   * `Decs` decimals, converted to wei, divided by the rate and rounded. The
   * result is the wei amount, rounded as `Math.round` does, that `value / 100`
   * euros buy at `rate / 10^Decs` euros per token.
   */
  function PriceFromRate(value: real, rate: real): (wei: int)
    requires rate != 0.0
    ensures rate / Scale(Decs) != 0.0
    ensures wei == Round(FromEthers(value / Scale(CentsDecimals) / (rate / Scale(Decs))))
  {
    hide *;
    PriceFromRateExact(value, rate);
    Round(FromEthers(value * Scale(Decs - CentsDecimals)) / rate)
  }

  /** Zero cents cost zero wei. */
  lemma PriceFromRateZero(rate: real)
    requires rate != 0.0
    ensures PriceFromRate(0.0, rate) == 0
  {
    hide Scale, PriceFromRate, Round;
    RoundOfInteger(0);
  }

  /** For a positive rate, a larger price in cents never costs fewer wei. */
  lemma PriceFromRateMonotone(v1: real, v2: real, rate: real)
    requires rate > 0.0 && v1 <= v2
    ensures PriceFromRate(v1, rate) <= PriceFromRate(v2, rate)
  {
    hide Scale, PriceFromRate, Round;
    var c, q := Scale(CentsDecimals), rate / Scale(Decs);
    DivSign(rate, Scale(Decs));
    DivLeft(v1, v2, c);
    DivLeft(v1 / c, v2 / c, q);
    MulLeft(v1 / c / q, v2 / c / q, Scale(WeiExponent));
    RoundMonotone(FromEthers(v1 / c / q), FromEthers(v2 / c / q));
  }

  /**
   * The exact number of wei that `cents` euro cents buy when one token costs
   * `Value(base)` dollars and one euro costs `Value(quote)` dollars.
   */
  function ExactWei(cents: real, base: Reading, quote: Reading): real
    requires base.answer != 0
  {
    FromEthers(cents / Scale(CentsDecimals) * Value(quote) / Value(base))
  }

  /** Dividing by the derived price converts euros into tokens. */
  lemma GetPriceExact(value: real, base: Reading, quote: Reading)
    requires base.answer != 0 && quote.answer != 0
    ensures DerivedPrice(base, quote, Decs) != 0.0
    ensures FromEthers(value / Scale(CentsDecimals) / (DerivedPrice(base, quote, Decs) / Scale(Decs)))
         == ExactWei(value, base, quote)
  {
    hide Scale, Value, DerivedPrice, FromEthers;
    DerivedPriceSign(base, quote, Decs);
    Unscale(DerivedPrice(base, quote, Decs), Value(base) / Value(quote), Scale(Decs));
    DivByQuotient(value / Scale(CentsDecimals), Value(base), Value(quote));
  }

  /**
   * `getPrice`: the wei amount that `value` euro cents buy, rounded as
   * `Math.round` does, at the token and euro prices the two feeds report.
   * The source divides by the quote answer and then by the derived price
   * without a guard, so both answers must be nonzero.
   */
  function GetPrice(value: real, base: Reading, quote: Reading): (wei: int)
    requires base.answer != 0 && quote.answer != 0
    ensures wei == Round(ExactWei(value, base, quote))
  {
    hide *;
    GetPriceExact(value, base, quote);
    PriceFromRate(value, DerivedPrice(base, quote, Decs))
  }

  /** `getPrice(0)` is 0 whatever the feeds say. */
  lemma GetPriceZero(base: Reading, quote: Reading)
    requires base.answer != 0 && quote.answer != 0
    ensures GetPrice(0.0, base, quote) == 0
  {
    hide Scale, DerivedPrice, PriceFromRate;
    GetPriceExact(0.0, base, quote);
    PriceFromRateZero(DerivedPrice(base, quote, Decs));
  }

  /** With a positive exchange rate, `getPrice` is non-decreasing in the cents amount. */
  lemma GetPriceMonotone(v1: real, v2: real, base: Reading, quote: Reading)
    requires SameSign(base.answer, quote.answer) && v1 <= v2
    ensures base.answer != 0 && quote.answer != 0
    ensures GetPrice(v1, base, quote) <= GetPrice(v2, base, quote)
  {
    hide Scale, DerivedPrice, PriceFromRate;
    DerivedPriceSign(base, quote, Decs);
    PriceFromRateMonotone(v1, v2, DerivedPrice(base, quote, Decs));
  }

  /**
   * MATIC at 1.00 USD and the euro at 1.08 USD: the derived price is
   * 10^16 / 108000000 (about 0.92592592 euro at 8 decimals), and 800 cents
   * buy exactly 8.64 MATIC.
   */
  lemma GetPriceExample()
    ensures DerivedPrice(Reading(100000000, 8), Reading(108000000, 8), 8)
         == 10000000000000000.0 / 108000000.0
    ensures GetPrice(800.0, Reading(100000000, 8), Reading(108000000, 8))
         == 8640000000000000000
  {
    Pow10Values();
    var base, quote := Reading(100000000, 8), Reading(108000000, 8);
    hide *;
    assert Value(base) == 1.0;
    assert Value(quote) == 1.08;
    assert ExactWei(800.0, base, quote) == 8640000000000000000.0;
    RoundOfInteger(8640000000000000000);
  }

  /** A quote feed at 18 decimals reporting the same 1.08 gives the same derived price. */
  lemma DerivedPriceMixedFeedsExample()
    ensures DerivedPrice(Reading(100000000, 8), Reading(1080000000000000000, 18), 8)
         == DerivedPrice(Reading(100000000, 8), Reading(108000000, 8), 8)
  {
    Pow10Values();
    DerivedPriceFeedPrecision(Reading(100000000, 8), Reading(108000000, 8), 0, 10, 8);
  }
}
