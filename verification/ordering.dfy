/**
 The amount logic of `place_order`: the base amount is amount/price for a
 quote-denominated request and the amount itself otherwise, quantized to the base
 increment with the context rounding (half-even), then sent as a new order at the
 target price. The minimum order size plays no part.
 */
module Ordering {
  import opened Decimals
  import opened Wrappers
  import opened Market
  import opened GeminiApi

  /** The division amount/price is only performed for a quote-denominated amount. */
  predicate CanPrice(denom: Denomination, price: Decimal) {
    denom == QuoteDenominated ==> !price.IsZero()
  }

  function BaseAmount(denom: Denomination, amount: Decimal, price: Decimal, baseExponent: int): (r: Decimal)
    requires CanPrice(denom, price)
    ensures r.exponent == baseExponent
    ensures denom == BaseDenominated ==>
      IsRounding(HalfEven, r.coefficient, InUnits(amount.coefficient, 1, amount.exponent, baseExponent))
    ensures denom == QuoteDenominated && price.coefficient > 0 ==>
      IsRounding(HalfEven, r.coefficient,
        InUnits(amount.coefficient, price.coefficient, amount.exponent - price.exponent, baseExponent))
    ensures denom == QuoteDenominated && price.coefficient < 0 ==>
      IsRounding(HalfEven, r.coefficient,
        InUnits(-amount.coefficient, -price.coefficient, amount.exponent - price.exponent, baseExponent))
  {
    match denom
    case QuoteDenominated => QuantizeQuotient(amount, price, baseExponent, HalfEven)
    case BaseDenominated => Quantize(amount, baseExponent, HalfEven)
  }

  /** A base-denominated amount already on the base grid is sent unchanged. */
  lemma BaseAmountKeepsGridAmount(k: int, price: Decimal, baseExponent: int)
    ensures BaseAmount(BaseDenominated, Decimal(k, baseExponent), price, baseExponent) == Decimal(k, baseExponent)
  {
    QuantizeExact(k, baseExponent, HalfEven);
  }

  /** A quantized base amount is a fixed point of the same quantization. */
  lemma BaseAmountIdempotent(denom: Denomination, amount: Decimal, price: Decimal, baseExponent: int)
    requires CanPrice(denom, price)
    ensures Quantize(BaseAmount(denom, amount, price, baseExponent), baseExponent, HalfEven)
         == BaseAmount(denom, amount, price, baseExponent)
  {
    QuantizeExact(BaseAmount(denom, amount, price, baseExponent).coefficient, baseExponent, HalfEven);
  }

  /** A quote-denominated amount is within half a unit of the base increment of the
      exact quotient amount/price: |r - amount/price| <= 10^e / 2, over a common
      denominator. */
  lemma BaseAmountWithinHalfUnit(amount: Decimal, price: Decimal, baseExponent: int)
    requires price.coefficient > 0
    ensures var r := BaseAmount(QuoteDenominated, amount, price, baseExponent);
            var x := amount.exponent - price.exponent;
      && (x >= baseExponent ==>
            2 * Abs(r.coefficient * price.coefficient - amount.coefficient * Pow10(x - baseExponent))
              <= price.coefficient)
      && (x < baseExponent ==>
            2 * Abs(r.coefficient * price.coefficient * Pow10(baseExponent - x) - amount.coefficient)
              <= price.coefficient * Pow10(baseExponent - x))
  {
    var r := BaseAmount(QuoteDenominated, amount, price, baseExponent);
    HalfEvenWithinHalfUnit(amount.coefficient, price.coefficient, amount.exponent - price.exponent,
                           baseExponent, r.coefficient);
  }

  /** 14 USD at a price of 20000 with base increment 0.00001 buys 0.00070 of the base. */
  lemma QuoteAmountExample()
    ensures BaseAmount(QuoteDenominated, Decimal(14, 0), Decimal(20000, 0), -5) == Decimal(70, -5)
  {
    var f := InUnits(14, 20000, 0, -5);
    assert f == Fraction(1400000, 20000);
    assert IsRounding(HalfEven, 70, f);
    RoundingUnique(HalfEven, 70, f);
  }

  /** `place_order`: a new-order request for the base amount at the target price. */
  function PlaceOrder(sandbox: bool, market: string, side: Side, denom: Denomination,
                      amount: Decimal, price: Decimal, spec: MarketSpec): (r: ApiRequest)
    requires CanPrice(denom, price)
    ensures r.AuthenticatedPost? && r.endpoint == NewOrderEndpoint
    ensures r.url == Url(sandbox, NewOrderEndpoint)
    ensures IsMakerOrCancelLimit(r.payload)
    ensures DecodeOrderFields(r.payload)
         == Some(OrderFields(market, SideName(side), BaseAmount(denom, amount, price, spec.baseExponent), price))
  {
    NewOrder(sandbox, market, SideName(side), BaseAmount(denom, amount, price, spec.baseExponent), price).value
  }

  /** The order does not depend on the minimum order size: a too-small amount is sent as is. */
  lemma MinOrderSizeNotConsulted(sandbox: bool, market: string, side: Side, denom: Denomination,
                                 amount: Decimal, price: Decimal, spec: MarketSpec, minSize: Decimal)
    requires CanPrice(denom, price)
    ensures PlaceOrder(sandbox, market, side, denom, amount, price, spec.(minOrderSize := minSize))
         == PlaceOrder(sandbox, market, side, denom, amount, price, spec)
  {
  }
}
