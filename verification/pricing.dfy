/**
 The limit price. The best bid and ask are always taken from the book and quantized to
 the quote increment, whether or not a price was given. An explicit non-zero price is
 then used as given; otherwise the midpoint is floored onto the quote-increment grid.
 The side-dependent ROUND_DOWN / ROUND_UP applied afterwards acts on a value already on
 the grid, so it never moves it. `IntendedTargetPrice` is the corrected definition in
 which a sell rounds the midpoint up.
 */
module Pricing {
  import opened Decimals
  import opened Wrappers
  import opened Market

  /** Price levels of the order book, best first. */
  datatype OrderBook = OrderBook(bids: seq<Decimal>, asks: seq<Decimal>)

  predicate HasTopOfBook(book: OrderBook) {
    |book.bids| > 0 && |book.asks| > 0
  }

  /** The best bid and ask, quantized to the quote increment (context rounding, half-even). */
  function QuantizedBid(book: OrderBook, quoteExponent: int): (r: Decimal)
    requires HasTopOfBook(book)
    ensures r.exponent == quoteExponent
    ensures IsRounding(HalfEven, r.coefficient,
              InUnits(book.bids[0].coefficient, 1, book.bids[0].exponent, quoteExponent))
  {
    Quantize(book.bids[0], quoteExponent, HalfEven)
  }

  function QuantizedAsk(book: OrderBook, quoteExponent: int): (r: Decimal)
    requires HasTopOfBook(book)
    ensures r.exponent == quoteExponent
    ensures IsRounding(HalfEven, r.coefficient,
              InUnits(book.asks[0].coefficient, 1, book.asks[0].exponent, quoteExponent))
  {
    Quantize(book.asks[0], quoteExponent, HalfEven)
  }

  /** r is the midpoint of bid and ask floored onto the grid of 10^e:
      r is a multiple of 10^e and mid - 10^e < r <= mid. With bid = b*10^e and
      ask = a*10^e this reads 2r <= a+b < 2r+2 in units of 10^e. */
  predicate IsFlooredMidpoint(r: Decimal, bid: Decimal, ask: Decimal, e: int)
    requires bid.exponent == e && ask.exponent == e
  {
    && r.exponent == e
    && 2 * r.coefficient <= ask.coefficient + bid.coefficient
    && ask.coefficient + bid.coefficient < 2 * r.coefficient + 2
  }

  /** The explicit price counts only when present and non-zero (Python truthiness). */
  predicate UsesExplicitPrice(explicit: Option<Decimal>) {
    explicit.Some? && !explicit.value.IsZero()
  }

  /** `calculate_target_price`. */
  function TargetPrice(side: Side, explicit: Option<Decimal>, book: OrderBook, quoteExponent: int): (r: Decimal)
    requires HasTopOfBook(book)
    ensures UsesExplicitPrice(explicit) ==> r == explicit.value
    ensures !UsesExplicitPrice(explicit) ==>
      IsFlooredMidpoint(r, QuantizedBid(book, quoteExponent), QuantizedAsk(book, quoteExponent), quoteExponent)
  {
    var bid := QuantizedBid(book, quoteExponent);
    var ask := QuantizedAsk(book, quoteExponent);
    if UsesExplicitPrice(explicit) then explicit.value
    else
      // (ask + bid) / 2 / quote_increment, floored, times quote_increment
      var floored := Decimal((ask.coefficient + bid.coefficient) / 2, quoteExponent);
      var mode := if side == Buy then Down else Up;
      QuantizeExact(floored.coefficient, quoteExponent, mode);
      Quantize(floored, quoteExponent, mode)
  }

  /** Without an explicit price the result is on the quote grid, and the side's final
      ROUND_DOWN / ROUND_UP quantize is the identity on it. */
  lemma ComputedPriceOnGrid(side: Side, explicit: Option<Decimal>, book: OrderBook, quoteExponent: int)
    requires HasTopOfBook(book) && !UsesExplicitPrice(explicit)
    ensures TargetPrice(side, explicit, book, quoteExponent).exponent == quoteExponent
    ensures Quantize(TargetPrice(side, explicit, book, quoteExponent), quoteExponent, Down)
         == TargetPrice(side, explicit, book, quoteExponent)
    ensures Quantize(TargetPrice(side, explicit, book, quoteExponent), quoteExponent, Up)
         == TargetPrice(side, explicit, book, quoteExponent)
  {
    var r := TargetPrice(side, explicit, book, quoteExponent);
    QuantizeExact(r.coefficient, quoteExponent, Down);
    QuantizeExact(r.coefficient, quoteExponent, Up);
  }

  /** The floored midpoint is unique, so buy and sell get the same computed price. */
  lemma {:induction false} BuyAndSellPriceAlike(explicit: Option<Decimal>, book: OrderBook, quoteExponent: int)
    requires HasTopOfBook(book) && !UsesExplicitPrice(explicit)
    ensures TargetPrice(Buy, explicit, book, quoteExponent) == TargetPrice(Sell, explicit, book, quoteExponent)
  {
    var bid, ask := QuantizedBid(book, quoteExponent), QuantizedAsk(book, quoteExponent);
    var b, s := TargetPrice(Buy, explicit, book, quoteExponent), TargetPrice(Sell, explicit, book, quoteExponent);
    assert IsFlooredMidpoint(b, bid, ask, quoteExponent);
    assert IsFlooredMidpoint(s, bid, ask, quoteExponent);
  }

  /** The computed price never exceeds the midpoint, on either side. In particular, when
      the spread is a single increment the sell price equals the best bid, so a sell
      order is placed at the bid rather than rounded up towards the ask. */
  lemma SellAtOneTickSpreadIsBid(k: int, quoteExponent: int, explicit: Option<Decimal>)
    requires !UsesExplicitPrice(explicit)
    ensures TargetPrice(Sell, explicit,
              OrderBook([Decimal(k, quoteExponent)], [Decimal(k + 1, quoteExponent)]), quoteExponent)
         == Decimal(k, quoteExponent)
  {
    var book := OrderBook([Decimal(k, quoteExponent)], [Decimal(k + 1, quoteExponent)]);
    QuantizeExact(k, quoteExponent, HalfEven);
    QuantizeExact(k + 1, quoteExponent, HalfEven);
    assert QuantizedBid(book, quoteExponent) == Decimal(k, quoteExponent);
    assert QuantizedAsk(book, quoteExponent) == Decimal(k + 1, quoteExponent);
  }

  /** r is the midpoint of bid and ask rounded up onto the grid of 10^e:
      mid <= r < mid + 10^e, that is a+b <= 2r < a+b+2 in units of 10^e. */
  predicate IsCeiledMidpoint(r: Decimal, bid: Decimal, ask: Decimal, e: int)
    requires bid.exponent == e && ask.exponent == e
  {
    && r.exponent == e
    && ask.coefficient + bid.coefficient <= 2 * r.coefficient
    && 2 * r.coefficient < ask.coefficient + bid.coefficient + 2
  }

  /** The target price the side-dependent rounding is evidently meant to give: a buy
      rounds the midpoint down onto the quote grid and a sell rounds it up, so that a
      sell is never priced below the midpoint. */
  function IntendedTargetPrice(side: Side, explicit: Option<Decimal>, book: OrderBook, quoteExponent: int): (r: Decimal)
    requires HasTopOfBook(book)
    ensures UsesExplicitPrice(explicit) ==> r == explicit.value
    ensures !UsesExplicitPrice(explicit) && side == Buy ==>
      IsFlooredMidpoint(r, QuantizedBid(book, quoteExponent), QuantizedAsk(book, quoteExponent), quoteExponent)
    ensures !UsesExplicitPrice(explicit) && side == Sell ==>
      IsCeiledMidpoint(r, QuantizedBid(book, quoteExponent), QuantizedAsk(book, quoteExponent), quoteExponent)
  {
    var sum := QuantizedAsk(book, quoteExponent).coefficient + QuantizedBid(book, quoteExponent).coefficient;
    if UsesExplicitPrice(explicit) then explicit.value
    else if side == Buy then Decimal(sum / 2, quoteExponent)
    else Decimal(-((-sum) / 2), quoteExponent)
  }

  /** The buy side already behaves as intended: for every book and explicit price the
      source's buy price is the intended one. */
  lemma BuyPriceAsIntended(explicit: Option<Decimal>, book: OrderBook, quoteExponent: int)
    requires HasTopOfBook(book)
    ensures TargetPrice(Buy, explicit, book, quoteExponent) == IntendedTargetPrice(Buy, explicit, book, quoteExponent)
  {
    if !UsesExplicitPrice(explicit) {
      var bid, ask := QuantizedBid(book, quoteExponent), QuantizedAsk(book, quoteExponent);
      assert IsFlooredMidpoint(TargetPrice(Buy, explicit, book, quoteExponent), bid, ask, quoteExponent);
      assert IsFlooredMidpoint(IntendedTargetPrice(Buy, explicit, book, quoteExponent), bid, ask, quoteExponent);
    }
  }

  /** The source's sell price agrees with the intended one exactly when the explicit price
      is used or the midpoint already lies on the grid (bid + ask an even number of
      increments); otherwise it is one increment lower. */
  lemma SellPriceDiscrepancy(explicit: Option<Decimal>, book: OrderBook, quoteExponent: int)
    requires HasTopOfBook(book)
    ensures var sum := QuantizedAsk(book, quoteExponent).coefficient + QuantizedBid(book, quoteExponent).coefficient;
      && (TargetPrice(Sell, explicit, book, quoteExponent) == IntendedTargetPrice(Sell, explicit, book, quoteExponent)
          <==> UsesExplicitPrice(explicit) || sum % 2 == 0)
      && (!UsesExplicitPrice(explicit) && sum % 2 != 0 ==>
          TargetPrice(Sell, explicit, book, quoteExponent).coefficient + 1
          == IntendedTargetPrice(Sell, explicit, book, quoteExponent).coefficient)
  {
    if !UsesExplicitPrice(explicit) {
      var bid, ask := QuantizedBid(book, quoteExponent), QuantizedAsk(book, quoteExponent);
      var s, i := TargetPrice(Sell, explicit, book, quoteExponent), IntendedTargetPrice(Sell, explicit, book, quoteExponent);
      assert IsFlooredMidpoint(s, bid, ask, quoteExponent);
      assert IsCeiledMidpoint(i, bid, ask, quoteExponent);
    }
  }

  /** With a one-increment spread the intended prices sit on the two sides of the book:
      a buy at the best bid and a sell at the best ask, so neither crosses the spread. */
  lemma IntendedPricesAtOneTickSpread(k: int, quoteExponent: int, explicit: Option<Decimal>)
    requires !UsesExplicitPrice(explicit)
    ensures var book := OrderBook([Decimal(k, quoteExponent)], [Decimal(k + 1, quoteExponent)]);
      && IntendedTargetPrice(Buy, explicit, book, quoteExponent) == Decimal(k, quoteExponent)
      && IntendedTargetPrice(Sell, explicit, book, quoteExponent) == Decimal(k + 1, quoteExponent)
      && TargetPrice(Buy, explicit, book, quoteExponent) == Decimal(k, quoteExponent)
  {
    var book := OrderBook([Decimal(k, quoteExponent)], [Decimal(k + 1, quoteExponent)]);
    QuantizeExact(k, quoteExponent, HalfEven);
    QuantizeExact(k + 1, quoteExponent, HalfEven);
    assert QuantizedBid(book, quoteExponent) == Decimal(k, quoteExponent);
    assert QuantizedAsk(book, quoteExponent) == Decimal(k + 1, quoteExponent);
  }

  /** bid 100.00, ask 100.02, increment 0.01, buy: the target is 100.01. */
  lemma BuyMidpointExample()
    ensures TargetPrice(Buy, None, OrderBook([Decimal(10000, -2)], [Decimal(10002, -2)]), -2)
         == Decimal(10001, -2)
  {
    QuantizeExact(10000, -2, HalfEven);
    QuantizeExact(10002, -2, HalfEven);
  }
}
