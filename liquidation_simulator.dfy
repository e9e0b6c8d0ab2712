/**
 * The liquidation simulator: from one Bitcoin price it derives the price at which a
 * margin call is issued and the price at which collateral is liquidated, for a loan
 * taken at 50% loan-to-value and liquidated at 83.33%.
 */
module LiquidationSimulator {

  /** Loan-to-value at origination, in percent. */
  const Ltv: real := 50.0
  /** Loan-to-value at which collateral is liquidated. */
  const LiquidationThreshold: real := 0.8333
  /** The margin call is issued after this share of the drop to the liquidation price. */
  const MarginCallShare: real := 0.8
  /** The lowest price the slider offers, in rupees. */
  const MinSliderPrice: real := 1000000.0
  /** The highest price the slider offers, in rupees. */
  const MaxSliderPrice: real := 10000000.0

  /** `dropPercentage`: the fractional price fall that takes a 50% loan to the liquidation threshold. */
  function DropPercentage(): (d: real)
    ensures d == 3333.0 / 8333.0
    ensures 0.0 < d < 1.0
  {
    1.0 - (Ltv / 100.0) / LiquidationThreshold
  }

  /** `liquidationPrice`: the price after the full drop, 5000/8333 of today's price. */
  function LiquidationPrice(btcPrice: real): (q: real)
    ensures btcPrice - q == btcPrice * DropPercentage()
    ensures q == btcPrice * 5000.0 / 8333.0
  {
    btcPrice * (1.0 - DropPercentage())
  }

  /** `marginCallPrice`: the price once 80% of the way from today's price down to the liquidation price. */
  function MarginCallPrice(btcPrice: real): (m: real)
    ensures btcPrice - m == (btcPrice - LiquidationPrice(btcPrice)) * MarginCallShare
  {
    btcPrice * (1.0 - DropPercentage() * MarginCallShare)
  }

  /** The safety buffer shown under the thresholds, in percent: always a proper percentage. */
  function SafetyBuffer(btcPrice: real): (b: real)
    requires btcPrice != 0.0
    ensures 0.0 < b < 100.0
  {
    var fall := btcPrice - LiquidationPrice(btcPrice);
    assert fall / btcPrice == DropPercentage();
    fall / btcPrice * 100.0
  }

  /** A price the slider can produce. */
  predicate SliderPrice(btcPrice: real) {
    MinSliderPrice <= btcPrice <= MaxSliderPrice
  }

  /**
   * The liquidation price is the price at which a loan of half the collateral's
   * current value reaches the 83.33% threshold.
   */
  lemma LiquidationPriceMeetsThreshold(btcPrice: real)
    requires btcPrice > 0.0
    ensures LiquidationPrice(btcPrice) == btcPrice * 0.5 / LiquidationThreshold
    ensures (Ltv / 100.0 * btcPrice) / LiquidationPrice(btcPrice) == LiquidationThreshold
  {
    assert 1.0 - DropPercentage() == 5000.0 / 8333.0;
  }

  /** For a positive price the liquidation price is below the margin-call price, which is below the price itself. */
  lemma ThresholdsBelowPrice(btcPrice: real)
    requires btcPrice > 0.0
    ensures 0.0 < LiquidationPrice(btcPrice) < MarginCallPrice(btcPrice) < btcPrice
  {
    var d := DropPercentage();
    assert 1.0 - d < 1.0 - d * MarginCallShare < 1.0;
  }

  /** Both thresholds scale with the price: multiplying the price by k multiplies each by k. */
  lemma ThresholdsScale(btcPrice: real, k: real)
    ensures LiquidationPrice(k * btcPrice) == k * LiquidationPrice(btcPrice)
    ensures MarginCallPrice(k * btcPrice) == k * MarginCallPrice(btcPrice)
  {
  }

  /** The safety buffer is the same for every price: the constant drop, as a percentage. */
  lemma SafetyBufferIsDrop(btcPrice: real)
    requires btcPrice != 0.0
    ensures SafetyBuffer(btcPrice) == DropPercentage() * 100.0
  {
    assert btcPrice - LiquidationPrice(btcPrice) == btcPrice * DropPercentage();
  }

  /** Every slider price is positive, so the safety buffer is always defined on the slider. */
  lemma SliderPriceIsPositive(btcPrice: real)
    requires SliderPrice(btcPrice)
    ensures btcPrice > 0.0
    ensures SafetyBuffer(btcPrice) == DropPercentage() * 100.0
  {
    SafetyBufferIsDrop(btcPrice);
  }
}
