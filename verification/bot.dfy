/**
 One run of the bot: fetch the symbol details, classify the amount's currency, fetch
 the order book and compute the target price, submit the order, and monitor it. The
 exchange's answers are inputs; what the bot does is the returned trace of events.
 */
module Bot {
  import opened Decimals
  import opened Wrappers
  import opened Market
  import opened Pricing
  import opened GeminiApi
  import opened Ordering
  import opened Monitoring

  /** The user's order as the command line gives it. */
  datatype OrderRequest = OrderRequest(
    market: string,
    side: Side,
    amount: Decimal,
    amountCurrency: string,
    explicitPrice: Option<Decimal>,
    warnAfter: int,
    sandbox: bool)

  /** The exchange's answers, in the order the bot asks: symbol details, the order book,
      the reply to the submission (status, body, and the order fields the body carries
      when accepted), then the answers to the status queries. */
  datatype Exchange = Exchange(
    details: MarketSpec,
    book: OrderBook,
    submitStatus: int,
    submitBody: Json,
    ack: OrderView,
    polls: seq<OrderView>)

  /** How a run ends. EmptyOrderBook and ZeroPrice stand for the exceptions the source
      does not catch (indexing an empty book, dividing by a zero price). */
  datatype RunOutcome =
    | CurrencyRejected(error: CurrencyError)
    | EmptyOrderBook
    | ZeroPrice
    | OrderRejected(exception: RequestException<Json>)
    | Monitored(outcome: Outcome)

  datatype RunResult = RunResult(outcome: RunOutcome, trace: seq<Event>)

  /** The price the run orders at, once the book has a top. */
  function RunPrice(req: OrderRequest, ex: Exchange): Decimal
    requires HasTopOfBook(ex.book)
  {
    TargetPrice(req.side, req.explicitPrice, ex.book, ex.details.quoteExponent)
  }

  function Run(req: OrderRequest, ex: Exchange): (r: RunResult)
    ensures |r.trace| >= 1 && r.trace[0] == Send(SymbolDetails(req.sandbox, req.market))
    ensures r.outcome.CurrencyRejected? <==>
      ClassifyAmountCurrency(ex.details, req.market, req.amountCurrency).Failure?
    ensures r.outcome.EmptyOrderBook? ==> !HasTopOfBook(ex.book)
    ensures !r.outcome.CurrencyRejected? && !HasTopOfBook(ex.book) ==> r.outcome.EmptyOrderBook?
    ensures r.outcome.OrderRejected? ==>
      ex.submitStatus != 200 && r.outcome.exception == RequestException(ex.submitStatus, ex.submitBody)
    ensures r.outcome.Monitored? ==> ex.submitStatus == 200
    ensures r.outcome.EmptyOrderBook? || r.outcome.ZeroPrice? ==>
      r.trace == [Send(SymbolDetails(req.sandbox, req.market)), Send(CurrentOrderBook(req.sandbox, req.market))]
    ensures r.outcome.ZeroPrice? <==>
      && ClassifyAmountCurrency(ex.details, req.market, req.amountCurrency) == Success(QuoteDenominated)
      && HasTopOfBook(ex.book) && RunPrice(req, ex).IsZero()
    ensures r.outcome.OrderRejected? || r.outcome.Monitored? <==>
      && ClassifyAmountCurrency(ex.details, req.market, req.amountCurrency).Success?
      && HasTopOfBook(ex.book)
      && CanPrice(ClassifyAmountCurrency(ex.details, req.market, req.amountCurrency).value, RunPrice(req, ex))
    ensures r.outcome.OrderRejected? || r.outcome.Monitored? ==>
      && |r.trace| >= 3
      && r.trace[1] == Send(CurrentOrderBook(req.sandbox, req.market))
      && r.trace[2] == Send(PlaceOrder(req.sandbox, req.market, req.side,
           ClassifyAmountCurrency(ex.details, req.market, req.amountCurrency).value,
           req.amount, RunPrice(req, ex), ex.details))
      && (r.outcome.OrderRejected? <==> ex.submitStatus != 200)
    ensures r.outcome.OrderRejected? ==> r.trace[3..] == [Publish(OrderErrorNotice)]
    ensures r.outcome.Monitored? ==>
      var m := Monitor(req.sandbox, ex.ack.orderId, ex.ack, ex.polls, 0, req.warnAfter);
      r.outcome.outcome == m.outcome && r.trace[3..] == m.trace
  {
    var fetchDetails := [Send(SymbolDetails(req.sandbox, req.market))];
    match ClassifyAmountCurrency(ex.details, req.market, req.amountCurrency)
    case Failure(e) => RunResult(CurrencyRejected(e), fetchDetails)
    case Success(denom) =>
      var fetched := fetchDetails + [Send(CurrentOrderBook(req.sandbox, req.market))];
      if !HasTopOfBook(ex.book) then RunResult(EmptyOrderBook, fetched)
      else
        var price := RunPrice(req, ex);
        if !CanPrice(denom, price) then RunResult(ZeroPrice, fetched)
        else
          var submitted := fetched + [Send(PlaceOrder(req.sandbox, req.market, req.side, denom, req.amount, price, ex.details))];
          match HandleResponse(ex.submitStatus, ex.submitBody)
          case Failure(e) => RunResult(OrderRejected(e), submitted + [Publish(OrderErrorNotice)])
          case Success(_) =>
            var m := Monitor(req.sandbox, ex.ack.orderId, ex.ack, ex.polls, 0, req.warnAfter);
            assert (submitted + m.trace)[3..] == m.trace;
            RunResult(Monitored(m.outcome), submitted + m.trace)
  }

  /** An amount currency outside the pair stops the run right after the symbol details:
      no order book fetch, no order, no notification. */
  lemma CurrencyCheckedFirst(req: OrderRequest, ex: Exchange)
    requires req.amountCurrency != ex.details.quoteCurrency && req.amountCurrency != ex.details.baseCurrency
    ensures Run(req, ex).outcome == CurrencyRejected(AmountCurrencyNotInMarket(req.amountCurrency, req.market))
    ensures Run(req, ex).trace == [Send(SymbolDetails(req.sandbox, req.market))]
  {
  }

  /** Once the order is submitted, it is the third request: a maker-or-cancel limit order
      for the market and side, for the base amount the denomination gives, at the run's
      price. */
  lemma OrderPlacedThird(req: OrderRequest, ex: Exchange)
    requires Run(req, ex).outcome.OrderRejected? || Run(req, ex).outcome.Monitored?
    ensures HasTopOfBook(ex.book)
    ensures ClassifyAmountCurrency(ex.details, req.market, req.amountCurrency).Success?
    ensures var r := Run(req, ex);
      var denom := ClassifyAmountCurrency(ex.details, req.market, req.amountCurrency).value;
      && |r.trace| >= 3
      && r.trace[2].Send? && r.trace[2].request.AuthenticatedPost?
      && r.trace[2].request.url == Url(req.sandbox, NewOrderEndpoint)
      && r.trace[2].request.endpoint == NewOrderEndpoint
      && IsMakerOrCancelLimit(r.trace[2].request.payload)
      && DecodeOrderFields(r.trace[2].request.payload)
         == Some(OrderFields(req.market, SideName(req.side),
              BaseAmount(denom, req.amount, RunPrice(req, ex), ex.details.baseExponent),
              RunPrice(req, ex)))
  {
  }

  /** A run that submits: the book fetch comes second and the order third, and everything
      the bot sends after the order is a status query for it. */
  lemma OneOrderThenOnlyQueries(req: OrderRequest, ex: Exchange)
    requires Run(req, ex).outcome.OrderRejected? || Run(req, ex).outcome.Monitored?
    ensures var r := Run(req, ex);
      && |r.trace| >= 3
      && r.trace[1] == Send(CurrentOrderBook(req.sandbox, req.market))
      && r.trace[2].Send? && r.trace[2].request.endpoint == NewOrderEndpoint
      && OnlyStatusQueries(r.trace[3..], req.sandbox, ex.ack.orderId)
  {
    var r := Run(req, ex);
    if r.outcome.Monitored? {
      ExactlyOneNotice(req.sandbox, ex.ack.orderId, ex.ack, ex.polls, 0, req.warnAfter);
    }
  }

  /** A run that gets past submission publishes exactly one notification (the
      rejection, or the monitor's verdict); a run that stops before it publishes none. */
  lemma NotificationCount(req: OrderRequest, ex: Exchange)
    ensures var r := Run(req, ex);
      && (r.outcome.CurrencyRejected? || r.outcome.EmptyOrderBook? || r.outcome.ZeroPrice? ==> PublishCount(r.trace) == 0)
      && (r.outcome.OrderRejected? ==> PublishCount(r.trace) == 1)
      && (r.outcome.Monitored? && r.outcome.outcome != OutOfObservations ==> PublishCount(r.trace) == 1)
  {
    var r := Run(req, ex);
    var t0 := [Send(SymbolDetails(req.sandbox, req.market))];
    var t1 := t0 + [Send(CurrentOrderBook(req.sandbox, req.market))];
    assert PublishCount(t0) == 0 by { assert t0[1..] == []; }
    PublishCountAppend(t0, [Send(CurrentOrderBook(req.sandbox, req.market))]);
    assert PublishCount([Send(CurrentOrderBook(req.sandbox, req.market))]) == 0 by {
      assert [Send(CurrentOrderBook(req.sandbox, req.market))][1..] == [];
    }
    if r.outcome.OrderRejected? || r.outcome.Monitored? {
      var order := r.trace[2];
      var t2 := t1 + [order];
      PublishCountAppend(t1, [order]);
      assert PublishCount([order]) == 0 by { assert [order][1..] == []; }
      assert r.trace == t2 + r.trace[3..];
      PublishCountAppend(t2, r.trace[3..]);
      if r.outcome.Monitored? {
        ExactlyOneNotice(req.sandbox, ex.ack.orderId, ex.ack, ex.polls, 0, req.warnAfter);
      } else {
        assert r.trace[3..] == [Publish(OrderErrorNotice)];
        assert [Publish(OrderErrorNotice)][1..] == [];
      }
    }
  }

  /** The minimum order size plays no part in a run. */
  lemma MinOrderSizeIgnored(req: OrderRequest, ex: Exchange, minSize: Decimal)
    ensures Run(req, ex.(details := ex.details.(minOrderSize := minSize))) == Run(req, ex)
  {
    var ex' := ex.(details := ex.details.(minOrderSize := minSize));
    if HasTopOfBook(ex.book) {
      assert RunPrice(req, ex') == RunPrice(req, ex);
    }
  }

  /** Enough status answers to outlast the warning threshold: a run that submits its
      order always ends complete, open/unfilled or cancelled. */
  lemma SubmittedRunReachesVerdict(req: OrderRequest, ex: Exchange)
    requires req.warnAfter >= 0 && |ex.polls| >= req.warnAfter / PollInterval + 1
    requires Run(req, ex).outcome.Monitored?
    ensures Run(req, ex).outcome.outcome != OutOfObservations
  {
    EnoughObservationsReachEnd(req.sandbox, ex.ack.orderId, ex.ack, ex.polls, 0, req.warnAfter);
  }
}
