/**
 * The Bitcoin statistics cards: the abbreviation of large rupee amounts into
 * thousands, millions, billions and trillions, the sign and colour of the 24-hour
 * change, and the defaults for fields the price feed leaves out.
 */
module BitcoinStats {
  import opened JsValues

  /** A large amount as displayed: the currency sign, the scaled number and its suffix. */
  datatype LargeNumber = LargeNumber(currency: string, scaled: real, suffix: string)

  /** The tier thresholds, largest first. */
  const Trillion: real := 1000000000000.0
  const Billion: real := 1000000000.0
  const Million: real := 1000000.0
  const Thousand: real := 1000.0

  /** `formatLargeNumber`: the first tier, from the largest down, whose threshold the number reaches. */
  function FormatLargeNumber(num: real): (r: LargeNumber)
    ensures r.currency == "₹"
  {
    if num >= Trillion then LargeNumber("₹", num / Trillion, " T")
    else if num >= Billion then LargeNumber("₹", num / Billion, " B")
    else if num >= Million then LargeNumber("₹", num / Million, " M")
    else if num >= Thousand then LargeNumber("₹", num / Thousand, " K")
    else LargeNumber("₹", num, " ")
  }

  /** The divisor a suffix stands for. */
  function SuffixDivisor(suffix: string): real {
    if suffix == " T" then Trillion
    else if suffix == " B" then Billion
    else if suffix == " M" then Million
    else if suffix == " K" then Thousand
    else 1.0
  }

  /** Scaling back by the suffix's divisor recovers the number, whatever tier it fell in. */
  lemma ScaledTimesDivisor(num: real)
    ensures FormatLargeNumber(num).scaled * SuffixDivisor(FormatLargeNumber(num).suffix) == num
  {
  }

  /** Each tier is selected exactly on its own band of numbers. */
  lemma TierBands(num: real)
    ensures FormatLargeNumber(num).suffix == " T" <==> num >= Trillion
    ensures FormatLargeNumber(num).suffix == " B" <==> Billion <= num < Trillion
    ensures FormatLargeNumber(num).suffix == " M" <==> Million <= num < Billion
    ensures FormatLargeNumber(num).suffix == " K" <==> Thousand <= num < Million
    ensures FormatLargeNumber(num).suffix == " " <==> num < Thousand
  {
  }

  /**
   * Below a trillion the scaled figure lies in [1, 1000): each number is shown in the
   * largest unit it reaches. Numbers below a thousand, negatives included, are not scaled.
   */
  lemma ScaledInUnitRange(num: real)
    ensures Thousand <= num < Trillion ==> 1.0 <= FormatLargeNumber(num).scaled < 1000.0
    ensures num >= Trillion ==> FormatLargeNumber(num).scaled >= 1.0
    ensures num < Thousand ==> FormatLargeNumber(num).scaled == num
  {
  }

  /** The colour of the 24-hour change card. */
  datatype Colour = Green | Red

  /** The sign prefix of the change label: "+" for a change of zero or more. */
  function ChangePrefix(changePercentage: real): (p: string)
    ensures p == "+" <==> changePercentage >= 0.0
    ensures p == "" <==> changePercentage < 0.0
  {
    if changePercentage >= 0.0 then "+" else ""
  }

  /** The card colour: green for a change of zero or more, red for a fall. */
  function ChangeColour(changePercentage: real): (c: Colour)
    ensures c == Green <==> changePercentage >= 0.0
    ensures c == Red <==> changePercentage < 0.0
  {
    if changePercentage >= 0.0 then Green else Red
  }

  /** The label is prefixed with "+" exactly when it is green, and exactly when the change is not negative. */
  lemma PrefixMatchesColour(changePercentage: real)
    ensures ChangePrefix(changePercentage) == "+" <==> ChangeColour(changePercentage) == Green
    ensures ChangeColour(changePercentage) == Green <==> changePercentage >= 0.0
    ensures ChangePrefix(0.0) == "+"
  {
  }

  /** A number field of the feed as it arrives: missing, NaN, or a number. */
  type FeedField = Option<JsNumber>

  /** `field || 0`: missing, NaN and zero all read as zero. */
  function OrZero(f: FeedField): (v: real)
    ensures f.Some? && f.value.Num? ==> v == f.value.value
    ensures !(f.Some? && f.value.Num?) ==> v == 0.0
  {
    match f
    case Some(Num(x)) => x
    case _ => 0.0
  }

  /** The statistics the cards show. */
  datatype Stats = Stats(price: real, change24h: real, changePercentage: real, marketCap: real, volume24h: real)

  /** The feed's Bitcoin record, each field possibly missing. */
  datatype FeedRecord = FeedRecord(inr: FeedField, change24h: FeedField, marketCap: FeedField, volume24h: FeedField)

  /** The statistics built from a feed record; the percentage change is read from `change24h`. */
  function StatsFromFeed(btc: FeedRecord): (s: Stats)
    ensures s.changePercentage == s.change24h
  {
    Stats(OrZero(btc.inr), OrZero(btc.change24h), OrZero(btc.change24h), OrZero(btc.marketCap), OrZero(btc.volume24h))
  }

  /** A field the feed omits reads as zero, and a present number is taken as it is. */
  lemma MissingFieldsReadZero(btc: FeedRecord)
    ensures btc.inr == None ==> StatsFromFeed(btc).price == 0.0
    ensures btc.marketCap == None ==> StatsFromFeed(btc).marketCap == 0.0
    ensures btc.volume24h == None ==> StatsFromFeed(btc).volume24h == 0.0
    ensures btc.change24h == None ==> StatsFromFeed(btc).changePercentage == 0.0
    ensures btc.inr == Some(NaN) ==> StatsFromFeed(btc).price == 0.0
    ensures forall x :: btc.inr == Some(Num(x)) ==> StatsFromFeed(btc).price == x
  {
  }

  /** `stats?.field || 0` on the change, before the first statistics arrive and after. */
  function ShownChange(stats: Option<Stats>): (c: real)
    ensures stats.None? ==> c == 0.0
    ensures stats.Some? ==> c == stats.value.changePercentage
  {
    match stats
    case Some(s) => s.changePercentage
    case None => 0.0
  }

  /** The market-cap card: `formatLargeNumber(stats?.marketCap || 0)`. */
  function MarketCapCard(stats: Option<Stats>): (card: LargeNumber)
    ensures card.currency == "₹"
    ensures stats.Some? ==> card.scaled * SuffixDivisor(card.suffix) == stats.value.marketCap
    ensures stats.None? ==> card.scaled == 0.0
  {
    FormatLargeNumber(match stats case Some(s) => s.marketCap case None => 0.0)
  }

  /** Without statistics the change reads "+", green, and the market cap is an unscaled zero. */
  lemma NoStatsDefaults()
    ensures ChangePrefix(ShownChange(None)) == "+" && ChangeColour(ShownChange(None)) == Green
    ensures MarketCapCard(None) == LargeNumber("₹", 0.0, " ")
  {
  }
}
