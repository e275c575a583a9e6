# Chainlink price arithmetic

A Dafny model of the price helper of the booking front end
(`src/libs/ethereum/chainlink.ts`). The helper turns a price in euro cents
into an amount of the chain's native token (MATIC on Polygon) in its smallest
unit, which the code calls wei. It reads two Chainlink aggregators: MATIC/USD
(the base feed) and EUR/USD (the quote feed). Each aggregator reports an
integer `answer` together with its own number of `decimals`.

The model has two modules:

- `JsMath` (`js_math.dfy`) holds the two pieces of JavaScript number
  arithmetic the helper uses. `Pow10` is `10 ** n` for a natural exponent.
  `Round` is `Math.round`, which takes the nearest integer and breaks ties
  toward +infinity. The module also holds small facts about real
  multiplication and division that the proofs use.
- `Chainlink` (`chainlink.dfy`) holds the helper itself:
  - `ScalePrice` is `scalePrice`.
  - `AggregatorPrice` is `getAggregatorPrice`.
  - `DerivedPrice` is `getDerivedPrice`.
  - `FromEthers` and `FromWei` are `fromEthers` and `fromWei`.
  - `GetPrice` is `getPrice`.
  - `PriceFromRate` is the arithmetic of `getPrice` once the derived rate is known.

  A feed's answer reaches the model as a `Reading(answer, decimals)`. The
  quantity a reading stands for is `Value(rd) = answer / 10^decimals`.

All numbers are exact reals. With exact reals, the helper's contracts can say
what each step means. `ScalePrice` keeps the quantity `price / 10^decimals`.
`DerivedPrice` is `Value(base) / Value(quote)` at `decimals` decimals.
`GetPrice` is the rounded number of wei that the euro amount buys at the two
reported prices.

The derived rate is a real number in the code. `getDerivedPrice` divides with
`/` and nothing truncates the quotient. The model keeps that real rate and
does not round it to an integer.

## Model

| member | source | states |
|---|---|---|
| JsMath.Pow10 | src/libs/ethereum/chainlink.ts:65 | `10 ** n` is at least 1, and at least 10 for a positive exponent |
| JsMath.Pow10Add | src/libs/ethereum/chainlink.ts:64-69 | powers of ten multiply by adding exponents, which makes rescaling in steps agree with rescaling at once |
| JsMath.Round | src/libs/ethereum/chainlink.ts:27 | `Math.round(x)` lies in the window `x - 0.5 < r <= x + 0.5`, so it is the nearest integer and a tie goes up |
| JsMath.RoundUnique | src/libs/ethereum/chainlink.ts:27 | an integer in that window is `Math.round(x)` |
| JsMath.RoundOfInteger | src/libs/ethereum/chainlink.ts:27 | rounding an integer returns it |
| JsMath.RoundMonotone | src/libs/ethereum/chainlink.ts:27 | rounding preserves order |
| Chainlink.Value | src/libs/ethereum/chainlink.ts:57-59 | the quantity a feed answer stands for: value times `10^decimals` is the answer, and it has the answer's sign |
| Chainlink.ScalePrice | src/libs/ethereum/chainlink.ts:63-73 | the rescaled price stands for the same quantity: `r * 10^priceDecimals == price * 10^decimals` |
| Chainlink.ScalePriceClosedForm | src/libs/ethereum/chainlink.ts:63-73 | all three branches equal `price * 10^decimals / 10^priceDecimals` |
| Chainlink.ScalePriceByGap | src/libs/ethereum/chainlink.ts:64-69 | scaling up multiplies by `10^(decimals - priceDecimals)`; scaling down divides by `10^(priceDecimals - decimals)` |
| Chainlink.ScalePriceSame | src/libs/ethereum/chainlink.ts:70-71 | equal precisions give back the price |
| Chainlink.ScalePriceCompose | src/libs/ethereum/chainlink.ts:63-73 | rescaling `d1 -> d2 -> d3` equals rescaling `d1 -> d3` |
| Chainlink.ScalePriceRoundTrip | src/libs/ethereum/chainlink.ts:63-73 | rescaling there and back returns the original price |
| Chainlink.ScalePriceSign | src/libs/ethereum/chainlink.ts:63-73 | rescaling keeps the sign of the price, both directions |
| Chainlink.AggregatorPrice | src/libs/ethereum/chainlink.ts:53-61 | the feed answer rescaled from the feed's own decimals is the reading's value times `10^decimals` |
| Chainlink.DerivedPrice | src/libs/ethereum/chainlink.ts:42-51 | the derived price is `Value(base) / Value(quote) * 10^decimals` |
| Chainlink.DerivedPriceFromScaled | src/libs/ethereum/chainlink.ts:47-50 | the derived price is `scale(base) * 10^decimals / scale(quote)`, each answer rescaled with its own feed decimals; the rescaled quote is nonzero |
| Chainlink.DerivedPriceSign | src/libs/ethereum/chainlink.ts:50 | the derived price is positive iff both answers have the same strict sign, and zero iff the base answer is zero |
| Chainlink.DerivedPricePositive | src/libs/ethereum/chainlink.ts:50 | two positive answers give a positive derived price |
| Chainlink.ValueRefined | src/libs/ethereum/chainlink.ts:58-60 | a reading with `k` more decimals and an answer `10^k` times larger stands for the same value |
| Chainlink.DerivedPriceFeedPrecision | src/libs/ethereum/chainlink.ts:47-60 | feeds of different native precision that report the same values give the same derived price |
| Chainlink.FromEthers | src/libs/ethereum/chainlink.ts:31-34 | a token amount in wei, divided by `10^18`, gives back the token amount |
| Chainlink.FromWei | src/libs/ethereum/chainlink.ts:37-40 | a wei amount in tokens, multiplied by `10^18`, gives back the wei amount |
| Chainlink.EtherWeiAreRescales | src/libs/ethereum/chainlink.ts:31-40 | `fromEthers` is `scalePrice` from 0 to 18 decimals, and `fromWei` the reverse |
| Chainlink.EthersThenWei | src/libs/ethereum/chainlink.ts:31-40 | `fromWei(fromEthers(v)) == v` |
| Chainlink.WeiThenEthers | src/libs/ethereum/chainlink.ts:31-40 | `fromEthers(fromWei(v)) == v` |
| Chainlink.OneEther | src/libs/ethereum/chainlink.ts:31-40 | one token is `10^18` wei and `10^18` wei is one token |
| Chainlink.PriceFromRateExact | src/libs/ethereum/chainlink.ts:25-27 | the unrounded quotient is the euro amount `value / 100` divided by the token price `rate / 10^8`, in wei |
| Chainlink.PriceFromRate | src/libs/ethereum/chainlink.ts:25-27 | the result is `Math.round` of the wei that `value / 100` euros buy at `rate / 10^8` euros per token |
| Chainlink.PriceFromRateZero | src/libs/ethereum/chainlink.ts:25-27 | zero cents give zero wei |
| Chainlink.PriceFromRateMonotone | src/libs/ethereum/chainlink.ts:25-27 | for a positive rate, more cents never give fewer wei |
| Chainlink.GetPriceExact | src/libs/ethereum/chainlink.ts:22-27 | dividing by the derived price converts euros into tokens: the result is `cents / 100 * Value(EUR/USD) / Value(MATIC/USD)` tokens in wei |
| Chainlink.GetPrice | src/libs/ethereum/chainlink.ts:22-28 | `getPrice(v)` is `Math.round` of the exact wei amount `v / 100 * Value(EUR/USD) / Value(MATIC/USD) * 10^18` |
| Chainlink.GetPriceZero | src/libs/ethereum/chainlink.ts:22-28 | `getPrice(0) == 0` whatever the feeds report |
| Chainlink.GetPriceMonotone | src/libs/ethereum/chainlink.ts:22-28 | when the two answers have the same sign, `getPrice` is non-decreasing in the cents amount |
| Chainlink.GetPriceExample | src/libs/ethereum/chainlink.ts:22-28 | MATIC at 1.00 USD and the euro at 1.08 USD: 800 cents buy 8.64 tokens, `8640000000000000000` wei |
| Chainlink.DerivedPriceMixedFeedsExample | src/libs/ethereum/chainlink.ts:42-61 | a quote feed at 18 decimals reporting 1.08 gives the same derived price as one at 8 decimals |

## Left out

- The feed reads (`latestRoundData`, `decimals`, lines 57-59) and the `await` sequencing around them are left out. Their results are the parameters of type `Reading`.
- `BigNumber.toNumber` throws for answers of `2^53` or more (line 58). That error path is not modelled; answers are unbounded integers.
- A feed's `decimals` is a natural number, because the contract returns a `uint8`. Negative or fractional exponents are not modelled.
- The environment and provider selection (lines 5-19) is left out: the choice of staging or production feed addresses and of the Kovan or Polygon provider.
- The model uses exact reals instead of IEEE-754 doubles. Rounding errors in `price * 10^18` and in the divisions are not modelled, and neither is loss of precision above `2^53`.
- DerivedPrice: requires a nonzero quote answer. In the source, a zero quote answer divides by zero at line 50 and yields `Infinity` or `NaN`; those values are not modelled.
- PriceFromRate: requires a nonzero rate. In the source, a zero rate divides by zero at line 27, and `Math.round` of `Infinity` or `NaN` is not modelled.
- GetPrice: requires nonzero answers from both feeds. A zero MATIC/USD answer gives a zero rate and a division by zero at line 27; a zero EUR/USD answer divides by zero at line 50. Signed zeros are not modelled either.
- The callers in `src/libs/ethereum.ts` and `src/libs/booking.ts`, the Hardhat configuration and the contract tests are not part of this model.
