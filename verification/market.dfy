/**
 The market description the bot fetches once per run, the side of the order, and the
 decision whether the user's amount is denominated in the quote or the base currency.
 */
module Market {
  import opened Decimals
  import opened Wrappers

  datatype Side = Buy | Sell

  /** The side as the client sends it (the command line's BUY/SELL, lower-cased): one of
      the two words the exchange accepts, a different word for each side. */
  function SideName(side: Side): (r: string)
    ensures r == "buy" || r == "sell"
    ensures r == "buy" <==> side == Buy
  {
    match side
    case Buy => "buy"
    case Sell => "sell"
  }

  /** Symbol details: the currencies of the pair, the minimum order size, and the base
      (`tick_size`) and quote (`quote_increment`) increments, each a power of ten given
      by its exponent. */
  datatype MarketSpec = MarketSpec(
    baseCurrency: string,
    quoteCurrency: string,
    minOrderSize: Decimal,
    baseExponent: int,
    quoteExponent: int)

  datatype Denomination = QuoteDenominated | BaseDenominated

  /** The exception raised when the amount's currency belongs to neither side of the pair. */
  datatype CurrencyError = AmountCurrencyNotInMarket(currency: string, market: string)

  /** The quote currency is tested first, then the base currency; anything else fails. */
  function ClassifyAmountCurrency(spec: MarketSpec, market: string, currency: string)
    : (r: Result<Denomination, CurrencyError>)
    ensures r == Success(QuoteDenominated) <==> currency == spec.quoteCurrency
    ensures r == Success(BaseDenominated) <==> currency != spec.quoteCurrency && currency == spec.baseCurrency
    ensures r.Failure? <==> currency != spec.quoteCurrency && currency != spec.baseCurrency
    ensures r.Failure? ==> r.error == AmountCurrencyNotInMarket(currency, market)
  {
    if currency == spec.quoteCurrency then Success(QuoteDenominated)
    else if currency == spec.baseCurrency then Success(BaseDenominated)
    else Failure(AmountCurrencyNotInMarket(currency, market))
  }

  /** The currency a denomination refers to in this market. */
  function CurrencyOf(spec: MarketSpec, d: Denomination): string {
    match d
    case QuoteDenominated => spec.quoteCurrency
    case BaseDenominated => spec.baseCurrency
  }

  /** For a pair of two distinct currencies, classification inverts CurrencyOf: both
      currencies are accepted and each is recognised as itself. */
  lemma ClassifyInvertsCurrencyOf(spec: MarketSpec, market: string, d: Denomination)
    requires spec.baseCurrency != spec.quoteCurrency
    ensures ClassifyAmountCurrency(spec, market, CurrencyOf(spec, d)) == Success(d)
  {
  }

  /** Classification never looks at the minimum order size or the increments. */
  lemma ClassifyOnlyReadsCurrencies(spec: MarketSpec, market: string, currency: string, other: MarketSpec)
    requires other.baseCurrency == spec.baseCurrency && other.quoteCurrency == spec.quoteCurrency
    ensures ClassifyAmountCurrency(other, market, currency) == ClassifyAmountCurrency(spec, market, currency)
  {
  }
}
