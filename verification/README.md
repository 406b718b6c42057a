# Gemini DCA bot: order resolution and monitoring, in Dafny

This project models the core of a command-line dollar-cost-averaging bot for the Gemini
exchange. The bot turns a request such as "buy 14 USD of BTC" into a quantized
maker-or-cancel limit order, submits it, and watches the order until it fills, is
cancelled, or stays open past a warning threshold.

What is modelled:

- **Decimals** (`decimals.dfy`). Python `Decimal` values are written as coefficient × 10^exponent.
  `quantize` is modelled under ROUND_HALF_EVEN (the context default), ROUND_DOWN (toward
  zero) and ROUND_UP (away from zero). Each mode has a reference definition (`IsRounding`)
  and a proof that exactly one integer meets it.
- **Market** (`market.dfy`). The symbol details and the test that decides whether the
  amount is in the quote currency, the base currency, or neither (an error).
- **Pricing** (`pricing.dfy`). `calculate_target_price`. The order book is always
  fetched and its best bid and ask quantized to the quote increment, even when a price
  is given (so an empty book fails the run either way). A non-zero explicit price is
  then used unchanged; otherwise the midpoint of the quantized bid and ask is floored
  onto the quote-increment grid.
- **Ordering** (`ordering.dfy`). The amount logic of `place_order`. The base amount is
  amount/price (quote-denominated) or the amount itself (base-denominated), quantized
  half-even to the base increment.
- **GeminiApi** (`gemini_api.dfy`). Request shaping in the client: URLs for production and
  sandbox, the `new_order` side check and payload, the `order_status` payload, the
  `request`/`nonce` fields of a signed payload, and status 200 versus
  `GeminiRequestException`.
- **Monitoring** (`monitoring.dfy`). The polling loop, as a recursive fold over the
  observed order states and as the source's `while` loop, proved equal. A run returns
  its outcome, its number of sleeps, the last order seen, and a trace of requests, sleeps
  and notifications.
- **Bot** (`bot.dfy`). One whole run. The exchange's answers are inputs, and the run
  returns a trace of what the bot does.

Increments are powers of ten, given by their exponent (`tick_size` 0.00000001 is
exponent -8). Clocks, the network and the notification service become inputs or events
in a trace.

The code has separate ROUND_DOWN (buy) and ROUND_UP (sell) branches, as if a sell order
should round the midpoint **up**. It does not. It first floors the midpoint onto the grid
(gemini_bot.py:160,162), and only then applies ROUND_DOWN or ROUND_UP, which can no longer change the value. So both sides
get the floored midpoint. The model follows the code: `Pricing.BuyAndSellPriceAlike`
proves that buy and sell get the same price. `Pricing.SellAtOneTickSpreadIsBid` shows
that with a one-increment spread, a sell is priced at the best bid. The evidently
intended sell price, the midpoint rounded up, is `Pricing.IntendedTargetPrice`; see
"Findings". The whole-run model `Bot.Run` keeps the price as written, so that its trace is
the one the program produces.

## Model

| member | source | states |
|---|---|---|
| `Decimals.RoundFraction` | gemini_bot.py:160-162 | the result meets the reference definition of its rounding mode: nearest with ties to even, toward zero, or away from zero |
| `Decimals.RoundingUnique` | gemini_bot.py:153-154 | exactly one integer meets each mode's definition, so the rounding is fully determined by it |
| `Decimals.Quantize` | gemini_bot.py:153-154 | `quantize(10**e, mode)`: the result has exponent e, and its coefficient is the mode's rounding of the input measured in units of 10^e |
| `Decimals.QuantizeQuotient` | gemini_bot.py:178 | `(a/b).quantize(10**e)` with an exact quotient: exponent e, and the coefficient rounds a/b in units of 10^e; the sign of b is moved into the numerator |
| `Decimals.QuantizeExact` | gemini_bot.py:160-162 | under every mode, quantizing a value that is already a multiple of 10^e returns it unchanged |
| `Decimals.QuantizeIdempotent` | gemini_bot.py:185 | quantizing an already quantized value, under any mode, returns it unchanged |
| `Decimals.HalfEvenWithinHalfUnit` | gemini_bot.py:178 | a half-even result is within half a unit (10^e / 2) of the exact value |
| `Market.SideName` | gemini_bot.py:44-90 | the side is sent as "buy" or "sell", a different word for each side, so the client's side check always passes |
| `Market.ClassifyAmountCurrency` | gemini_bot.py:131-136 | the quote currency is tested first and gives a quote-denominated amount; otherwise the base currency gives a base-denominated one; any other currency is an error naming the currency and market |
| `Market.ClassifyInvertsCurrencyOf` | gemini_bot.py:131-134 | if base and quote differ, both currencies of the pair are accepted and each is classified as itself |
| `Market.ClassifyOnlyReadsCurrencies` | gemini_bot.py:131-136 | classification depends only on the pair's two currencies |
| `Pricing.TargetPrice` | gemini_bot.py:150-169 | a non-zero explicit price is returned unchanged. Otherwise the result is a multiple of the quote increment with mid - increment < price <= mid, where mid is the midpoint of the half-even-quantized bid and ask |
| `Pricing.ComputedPriceOnGrid` | gemini_bot.py:160-162 | the ROUND_DOWN and ROUND_UP quantizes leave the computed price unchanged |
| `Pricing.BuyAndSellPriceAlike` | gemini_bot.py:159-162 | for the same book, buy and sell get the same computed price |
| `Pricing.SellAtOneTickSpreadIsBid` | gemini_bot.py:161-162 | when the ask is one increment above the bid, the sell price equals the bid |
| `Pricing.QuantizedBid` | gemini_bot.py:153 | the best bid is re-expressed at the quote increment's exponent, rounded half-even |
| `Pricing.QuantizedAsk` | gemini_bot.py:154 | the best ask is re-expressed at the quote increment's exponent, rounded half-even |
| `Pricing.IntendedTargetPrice` | gemini_bot.py:156-164 | the corrected price: a non-zero explicit price unchanged; otherwise a buy gets the midpoint rounded down onto the grid (mid - increment < price <= mid) and a sell the midpoint rounded up (mid <= price < mid + increment) |
| `Pricing.BuyPriceAsIntended` | gemini_bot.py:159-160 | for every book and explicit price, the source's buy price equals the intended one |
| `Pricing.SellPriceDiscrepancy` | gemini_bot.py:161-162 | the source's sell price equals the intended one exactly when the explicit price is used or bid + ask is an even number of increments; otherwise it is one increment lower |
| `Pricing.IntendedPricesAtOneTickSpread` | gemini_bot.py:159-162 | with a one-increment spread, a buy is priced at the best bid (as written and as intended) and the intended sell at the best ask |
| `Pricing.BuyMidpointExample` | gemini_bot.py:153-160 | bid 100.00, ask 100.02, increment 0.01, buy: the price is 100.01 |
| `Ordering.BaseAmount` | gemini_bot.py:174-187 | the result has the base increment's exponent. It is the half-even rounding of amount/price (quote-denominated, any sign of price) or of amount (base-denominated) |
| `Ordering.BaseAmountWithinHalfUnit` | gemini_bot.py:178 | a quote-denominated base amount is within half a base increment of the exact amount/price |
| `Ordering.BaseAmountIdempotent` | gemini_bot.py:178-185 | quantizing the base amount again does not change it |
| `Ordering.BaseAmountKeepsGridAmount` | gemini_bot.py:185 | a base-denominated amount that is already on the base grid is sent unchanged |
| `Ordering.QuoteAmountExample` | gemini_bot.py:178 | 14 USD at 20000 with base increment 0.00001 gives 0.00070 |
| `Ordering.PlaceOrder` | gemini_bot.py:172-187 | the submission is an authenticated POST to /order/new, a maker-or-cancel exchange limit order, carrying the market, the side's name, the base amount and the target price |
| `Ordering.MinOrderSizeNotConsulted` | gemini_bot.py:172-187 | the submitted order is the same whatever the minimum order size |
| `GeminiApi.NewOrder` | gemini_api.py:115-127 | fails with the side exactly when the side is not "buy" or "sell". Otherwise: a POST to /order/new whose payload has exactly symbol, amount, price, side, type and options; the order fields read back as given; the type is "exchange limit" and the options are ["maker-or-cancel"] |
| `GeminiApi.OrderStatus` | gemini_api.py:130-135 | a POST to /order/status whose payload is exactly the order id and include_trades = false |
| `GeminiApi.BaseUrl` | gemini_api.py:29-31 | the base is the sandbox root exactly when sandbox is set and the production root otherwise; both are https URLs ending in /v1 |
| `GeminiApi.Url` | gemini_api.py:29-32 | the URL is the base followed by the endpoint, and it starts with the production base exactly when sandbox is not set |
| `GeminiApi.SymbolDetails` | gemini_api.py:86 | a public GET whose URL splits back into the chosen environment and /symbols/details/ followed by the market |
| `GeminiApi.CurrentOrderBook` | gemini_api.py:110 | a public GET whose URL splits back into the chosen environment and /book/ followed by the market |
| `GeminiApi.SplitUrl` | gemini_api.py:43-46 | whatever it recovers from a URL rebuilds that URL |
| `GeminiApi.UrlRoundTrip` | gemini_api.py:29-32 | every URL is the production base plus the endpoint, or the sandbox base when sandbox is set; the environment and the endpoint can be recovered from it |
| `GeminiApi.SignedPayload` | gemini_api.py:48-50 | the signed payload adds `nonce` and `request` = "/v1" + endpoint, and keeps every other field of the caller's payload |
| `GeminiApi.HandleResponse` | gemini_api.py:67-70 | success exactly when the status is 200, and then the parsed body; any other status raises an exception carrying that status and body |
| `Monitoring.Monitor` | gemini_bot.py:207-242 | the run sleeps at most once per supplied observation; running out of observations means every one was used; the trace is one sleep-then-query round per sleep, then exactly the verdict's notification |
| `Monitoring.MonitorDecision` | gemini_bot.py:210-231 | the run stops at the observation after its last sleep. A fill beats timeout, which beats cancellation. Every earlier observation was unfilled, not cancelled and within the threshold, with 60 s added per sleep |
| `Monitoring.MonitorLoop` | gemini_bot.py:207-242 | the source's `while` loop (fill guard, timeout, cancellation, sleep, overwrite) computes exactly the fold `Monitor` |
| `Monitoring.PollRoundShape` | gemini_bot.py:228-231 | one loop round sleeps the 60 s interval, then sends one status query for the order, and publishes nothing |
| `Monitoring.RoundsOnlyQueryAndSleep` | gemini_bot.py:228-231 | the loop rounds publish nothing, query only the order's status, and sleep 60 s at the start of each round |
| `Monitoring.ExactlyOneNotice` | gemini_bot.py:211-242 | a run that reaches a verdict publishes exactly one notification, the verdict's, as its last event; one that runs out of observations publishes none; the only requests are status queries for the order |
| `Monitoring.SleepsBounded` | gemini_bot.py:210-230 | from a start at 0 s with warn_after >= 0, there are at most warn_after/60 + 1 sleeps |
| `Monitoring.EnoughObservationsReachEnd` | gemini_bot.py:210-217 | once the observations cover more than the threshold, the run always reaches a verdict |
| `Monitoring.UnfilledOrderTimesOut` | gemini_bot.py:210-217 | an order that never fills and is never cancelled ends OPEN/UNFILLED after exactly warn_after/60 + 1 sleeps |
| `Monitoring.ThreeSleepsExample` | gemini_bot.py:210-242 | remaining 1.0, 0.5, 0.5, 0 with warn_after >= 120: complete after exactly three sleeps, with the completion notice as the seventh event |
| `Bot.Run` | gemini_bot.py:124-242 | every run starts with the symbol-details request. It ends with the currency error exactly when classification fails. An empty book is reached only without a top of book, and always so once the currency is accepted. The zero-price stop happens exactly for a quote-denominated amount with a zero price. A run that stops at the empty book or the zero price has sent the symbol-details and order-book requests and nothing else. The order is submitted exactly when the currency is accepted, the book has a top and the price can divide; it is then the third event, the `place_order` request for the classified denomination at the run's price. The submission is rejected exactly when the status is not 200, with that status and body, and then the error notice follows. Otherwise the outcome and the rest of the trace are those of the monitor started on the acknowledged order |
| `Bot.CurrencyCheckedFirst` | gemini_bot.py:124-136 | an amount currency outside the pair ends the run with that error right after the symbol details: no book fetch, no order, no notification |
| `Bot.OrderPlacedThird` | gemini_bot.py:171-187 | a run that submits sends, as its third event, a maker-or-cancel limit POST to /order/new for the market and side, for the base amount of the classified denomination, at the run's target price |
| `Bot.OneOrderThenOnlyQueries` | gemini_bot.py:151-231 | a run that submits: the book fetch comes second and the order third; everything sent afterwards is a status query for the order |
| `Bot.NotificationCount` | gemini_bot.py:188-242 | a run that stops before submitting publishes nothing; a rejected submission publishes one notification; a monitored run that reaches a verdict publishes exactly one |
| `Bot.MinOrderSizeIgnored` | gemini_bot.py:128-200 | changing the minimum order size changes nothing in a run |
| `Bot.SubmittedRunReachesVerdict` | gemini_bot.py:207-242 | a submitted run ends complete, open/unfilled or cancelled, given warn_after/60 + 1 status answers |

## Findings

| source | as written | input that shows it | evidently intended | confidence | as-written member | corrected member |
|---|---|---|---|---|---|---|
| gemini_bot.py:162 | a sell floors the midpoint onto the quote grid and only then quantizes with ROUND_UP, which cannot move a value already on the grid | bid 100.00, ask 100.01, increment 0.01, no explicit price: the sell is priced at 100.00, the best bid, so a maker-or-cancel sell would cross the book and be cancelled | a sell rounds the midpoint up onto the grid: 100.01, the best ask | medium; not executed | `Pricing.SellAtOneTickSpreadIsBid` | `Pricing.IntendedTargetPrice` |

`Pricing.SellPriceDiscrepancy` states where the two definitions differ: exactly when
no explicit price is used and bid + ask is an odd number of increments, and then by one
increment. `Pricing.BuyPriceAsIntended` shows the buy side needs no correction.

## Left out

- Command line, configuration file and confirmation prompt (gemini_bot.py:28-119). These are input plumbing. Market, side, amount, amount currency, explicit price, warn_after and the sandbox flag are plain inputs.
- The missing `sandbox` argument where the client is built (gemini_bot.py:121). The sandbox flag is an explicit input instead.
- Notification delivery (SNS), `print`, `json.dumps` and the message texts. A notification is modelled as an event with a kind.
- HTTP transport, HMAC-SHA384 signing, Base64 encoding and the headers (gemini_api.py:52-65). These are foreign calls. The clock-based nonce is a parameter of `GeminiApi.SignedPayload`.
- `time.sleep` and timestamps. A sleep is an event, and elapsed time is 60 s per sleep.
- Reading JSON responses into order fields. The exchange's answers arrive already read: symbol details, book levels, and order status records.
- Failed symbol-details, order-book and order-status requests. They raise an uncaught exception in the source; the model assumes these answers arrive.
- Ordering.BaseAmount: the quotient amount/price is exact, while Python computes it to 28 significant digits before quantizing. Python's `InvalidOperation` when a quantized coefficient exceeds 28 digits is not modelled either.
- Ordering.PlaceOrder: the amount is sent as the decimal value. The source converts it to a float and then to text (gemini_bot.py:178,185), which is not modelled.
- GeminiApi.NewOrder: the amount and price fields hold decimal values, not their `str()` text.
- The float-to-text-to-Decimal reading of `tick_size`, `quote_increment` and `min_order_size` (gemini_bot.py:128-130). Increments are given as exponents of ten.
- Monitoring.Monitor: the exchange's answers are a finite sequence. A run that would need more answers than were supplied ends with OutOfObservations, and the source has no such outcome. `Monitoring.EnoughObservationsReachEnd` shows this cannot happen once warn_after/60 + 1 answers are given.
- Order status fields other than `remaining_amount`, `is_cancelled` and `order_id`.
