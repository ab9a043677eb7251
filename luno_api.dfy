/**
 * `request_trades`: the query parameters of one `listtrades` call and the
 * check on the shape of its response. The HTTP exchange itself is a
 * parameter: `api` maps the parameters to the decoded JSON body, or to the
 * message of the exception `make_luno_api_call` raised.
 */
module LunoApi {
  import opened Outcomes

  /** Fields of one trade, as decoded from the response. */
  type Trade = map<string, string>

  /** The query of one call: `pair`, `since`, `before` and `limit`. */
  datatype Params = Params(pair: string, since: int, before: int, limit: int)

  /** Page size asked of every call. */
  const PageLimit: int := 1000

  /** The decoded body of a successful call; `trades` is `None` when the key is absent. */
  datatype Response = Response(trades: Option<seq<Trade>>)

  /** `make_luno_api_call`: the decoded body, or the text of the exception it raised. */
  type Api = Params -> Result<Response, string>

  const NoTradesMessage := "No trades found in response"

  /** The parameter map `request_trades` builds for one token and window. */
  function TradeParams(token: string, currency: string, since: int, before: int): Params {
    Params(token + currency, since, before, PageLimit)
  }

  /**
   * The shape check: a body with `trades` yields that list, a body without it
   * is an error (never an empty batch), and a failed call propagates its error.
   */
  function TradesOf(reply: Result<Response, string>): (r: Result<seq<Trade>, Failure>)
    ensures r.Ok? <==> reply.Ok? && reply.value.trades.Some?
    ensures r.Ok? ==> r.value == reply.value.trades.value
    ensures reply.Ok? && reply.value.trades.None? ==> r == Err(Raised(NoTradesMessage))
    ensures reply.Err? ==> r == Err(Raised(reply.error))
  {
    match reply
    case Err(message) => Err(Raised(message))
    case Ok(response) =>
      match response.trades
      case None => Err(Raised(NoTradesMessage))
      case Some(trades) => Ok(trades)
  }

  /**
   * `request_trades(token, currency, since, before)`: one call with
   * `pair = token + currency`, the window bounds and `limit = 1000`.
   */
  function RequestTrades(token: string, currency: string, since: int, before: int, api: Api)
    : (r: Result<seq<Trade>, Failure>)
    ensures r == TradesOf(api(Params(token + currency, since, before, 1000)))
  {
    TradesOf(api(TradeParams(token, currency, since, before)))
  }
}
