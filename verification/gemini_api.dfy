/**
 The request-shaping half of the exchange client: which URL a call goes to, what
 payload an authenticated call carries, and how a status code becomes a result or a
 request exception. Sending, signing and the clock-based nonce are not modelled; the
 nonce is a parameter.
 */
module GeminiApi {
  import opened Decimals
  import opened Wrappers

  /** The JSON values the bot puts into payloads. A decimal field stands for the
      string the client writes for that number. */
  datatype Json = JString(s: string) | JBool(b: bool) | JDecimal(d: Decimal) | JArray(items: seq<Json>)

  type Payload = map<string, Json>

  /** GeminiRequestException: the status code and the parsed body of a failed call. */
  datatype RequestException<+B> = RequestException(statusCode: int, responseBody: B)

  /** The plain exception `new_order` raises for a side other than "buy" or "sell". */
  datatype ClientError = InvalidSide(side: string)

  const ProductionBase: string := "https://api.gemini.com/v1"
  const SandboxBase: string := "https://api.sandbox.gemini.com/v1"
  const NewOrderEndpoint: string := "/order/new"
  const OrderStatusEndpoint: string := "/order/status"
  const OrderType: string := "exchange limit"
  const MakerOrCancel: string := "maker-or-cancel"

  /** A request as handed to the transport: a public GET, or an authenticated POST with
      the endpoint it is for and the caller's payload (before nonce and signature). */
  datatype ApiRequest =
    | PublicGet(url: string)
    | AuthenticatedPost(url: string, endpoint: string, payload: Payload)

  /** The versioned API root: the sandbox host exactly when `sandbox` is set. */
  function BaseUrl(sandbox: bool): (r: string)
    ensures (r == SandboxBase) == sandbox
    ensures (r == ProductionBase) == !sandbox
    ensures |r| >= 11 && r[..8] == "https://" && r[|r| - 3..] == "/v1"
  {
    if sandbox then SandboxBase else ProductionBase
  }

  /** The URL of an endpoint: the base followed by the endpoint, and it starts with the
      production base exactly when `sandbox` is not set. */
  function Url(sandbox: bool, endpoint: string): (r: string)
    ensures |r| == |BaseUrl(sandbox)| + |endpoint|
    ensures r[..|BaseUrl(sandbox)|] == BaseUrl(sandbox) && r[|BaseUrl(sandbox)|..] == endpoint
    ensures ProductionBase <= r <==> !sandbox
  {
    var url := BaseUrl(sandbox) + endpoint;
    assert url[..|BaseUrl(sandbox)|] == BaseUrl(sandbox);
    assert sandbox ==> url[12] == 's' && ProductionBase[12] == 'g';
    url
  }

  /** Recovers the environment and the endpoint from a URL built by Url. */
  function SplitUrl(url: string): (r: Option<(bool, string)>)
    ensures r.Some? ==> Url(r.value.0, r.value.1) == url
  {
    if ProductionBase <= url then Some((false, url[|ProductionBase|..]))
    else if SandboxBase <= url then Some((true, url[|SandboxBase|..]))
    else None
  }

  /** Every URL is the production base plus the endpoint unless `sandbox` is set, and
      then the sandbox base: the two environments never share a URL. */
  lemma UrlRoundTrip(sandbox: bool, endpoint: string)
    ensures SplitUrl(Url(sandbox, endpoint)) == Some((sandbox, endpoint))
  {
    var url := Url(sandbox, endpoint);
    if sandbox {
      assert url[12] == 's' && ProductionBase[12] == 'g';
      assert !(ProductionBase <= url);
      assert url[|SandboxBase|..] == endpoint;
    } else {
      assert url[|ProductionBase|..] == endpoint;
    }
  }

  function PublicRequest(sandbox: bool, endpoint: string): ApiRequest {
    PublicGet(Url(sandbox, endpoint))
  }

  function AuthenticatedRequest(sandbox: bool, endpoint: string, payload: Payload): ApiRequest {
    AuthenticatedPost(Url(sandbox, endpoint), endpoint, payload)
  }

  /** The payload that is signed and sent: the caller's fields plus the nonce and the
      `request` field naming the versioned endpoint. */
  function SignedPayload(endpoint: string, payload: Payload, nonce: string): (p: Payload)
    ensures p.Keys == payload.Keys + {"nonce", "request"}
    ensures p["request"] == JString("/v1" + endpoint)
    ensures p["nonce"] == JString(nonce)
    ensures forall k :: k in payload && k != "nonce" && k != "request" ==> p[k] == payload[k]
  {
    payload["nonce" := JString(nonce)]["request" := JString("/v1" + endpoint)]
  }

  /** `symbol_details`: a public GET of /symbols/details/<market> in the chosen environment. */
  function SymbolDetails(sandbox: bool, market: string): (r: ApiRequest)
    ensures r.PublicGet? && SplitUrl(r.url) == Some((sandbox, "/symbols/details/" + market))
  {
    UrlRoundTrip(sandbox, "/symbols/details/" + market);
    PublicRequest(sandbox, "/symbols/details/" + market)
  }

  /** `current_order_book`: a public GET of /book/<market> in the chosen environment. */
  function CurrentOrderBook(sandbox: bool, market: string): (r: ApiRequest)
    ensures r.PublicGet? && SplitUrl(r.url) == Some((sandbox, "/book/" + market))
  {
    UrlRoundTrip(sandbox, "/book/" + market);
    PublicRequest(sandbox, "/book/" + market)
  }

  /** The order fields a new-order payload carries. */
  datatype OrderFields = OrderFields(symbol: string, side: string, amount: Decimal, price: Decimal)

  /** Reads the order fields back out of a payload; None when one is missing or ill-typed. */
  function DecodeOrderFields(p: Payload): Option<OrderFields> {
    if && "symbol" in p && p["symbol"].JString?
       && "side" in p && p["side"].JString?
       && "amount" in p && p["amount"].JDecimal?
       && "price" in p && p["price"].JDecimal?
    then Some(OrderFields(p["symbol"].s, p["side"].s, p["amount"].d, p["price"].d))
    else None
  }

  /** Every new order is a maker-or-cancel exchange limit order. */
  predicate IsMakerOrCancelLimit(p: Payload) {
    && "type" in p && p["type"] == JString(OrderType)
    && "options" in p && p["options"] == JArray([JString(MakerOrCancel)])
  }

  predicate IsValidSide(side: string) {
    side == "buy" || side == "sell"
  }

  /** `new_order`: rejects a side other than "buy"/"sell" before building anything,
      otherwise an authenticated POST to /order/new. */
  function NewOrder(sandbox: bool, market: string, side: string, amount: Decimal, price: Decimal)
    : (r: Result<ApiRequest, ClientError>)
    ensures r.Failure? <==> !IsValidSide(side)
    ensures r.Failure? ==> r.error == InvalidSide(side)
    ensures r.Success? ==>
      && r.value.AuthenticatedPost?
      && r.value.url == Url(sandbox, NewOrderEndpoint)
      && r.value.endpoint == NewOrderEndpoint
      && r.value.payload.Keys == {"symbol", "amount", "price", "side", "type", "options"}
      && DecodeOrderFields(r.value.payload) == Some(OrderFields(market, side, amount, price))
      && IsMakerOrCancelLimit(r.value.payload)
  {
    if !IsValidSide(side) then Failure(InvalidSide(side))
    else
      var payload := map[
        "symbol" := JString(market),
        "amount" := JDecimal(amount),
        "price" := JDecimal(price),
        "side" := JString(side),
        "type" := JString(OrderType),
        "options" := JArray([JString(MakerOrCancel)])
      ];
      Success(AuthenticatedRequest(sandbox, NewOrderEndpoint, payload))
  }

  /** The status query for one order: exactly its id and include_trades=false. */
  predicate IsStatusQuery(r: ApiRequest, sandbox: bool, orderId: string) {
    && r.AuthenticatedPost?
    && r.url == Url(sandbox, OrderStatusEndpoint)
    && r.endpoint == OrderStatusEndpoint
    && r.payload.Keys == {"order_id", "include_trades"}
    && r.payload["order_id"] == JString(orderId)
    && r.payload["include_trades"] == JBool(false)
  }

  function OrderStatus(sandbox: bool, orderId: string): (r: ApiRequest)
    ensures IsStatusQuery(r, sandbox, orderId)
  {
    AuthenticatedRequest(sandbox, OrderStatusEndpoint,
      map["order_id" := JString(orderId), "include_trades" := JBool(false)])
  }

  /** Status 200 yields the parsed body; any other status raises with status and body. */
  function HandleResponse<B>(status: int, body: B): (r: Result<B, RequestException<B>>)
    ensures r.Success? <==> status == 200
    ensures r.Success? ==> r.value == body
    ensures r.Failure? ==> r.error.statusCode == status && r.error.responseBody == body
  {
    if status == 200 then Success(body) else Failure(RequestException(status, body))
  }
}
