/** The admission gate at the top of the two edge functions that call the
    generative-AI backend. Each function owns its own limiter; a denial is
    answered with status 429 and the limiter's message, and only an admitted
    request goes on to the (unmodelled) backend call. */
module EdgeGuards {
  import opened Text
  import opened RateLimit

  /** How the request handler continues after the gate. */
  datatype GateReply =
    | Proceed
      // status 429 with `{ error, rateLimited: true }`, plus `opportunities: []` when `withOpportunities`
    | TooManyRequests(error: string, withOpportunities: bool)
      // status 500 with `{ error }`
    | ServerError(error: string)
      // status 200 with the built-in demonstration opportunities
    | DemoOpportunities

  /** gemini-trends: a missing API key throws before the limiter is consulted
      (so it costs no quota), and the handler's catch-all answers every thrown
      error with the demonstration opportunities; otherwise a denial is
      answered with 429, its message and an empty opportunity list. */
  method GeminiTrendsGate(limiter: RateLimiter, apiKeyConfigured: bool, now: int) returns (g: GateReply)
    requires limiter.Valid()
    modifies limiter
    ensures limiter.Valid()
    ensures !apiKeyConfigured ==>
      g == DemoOpportunities && limiter.State() == old(limiter.State())
    ensures apiKeyConfigured ==>
      && limiter.State() == Next(old(limiter.State()), now)
      && (g.Proceed? <==> Decide(old(limiter.State()), now).Admitted?)
      && (!g.Proceed? ==>
            g == TooManyRequests(ToResult(Decide(old(limiter.State()), now)).error.value, true))
  {
    if !apiKeyConfigured {
      return DemoOpportunities;
    }
    var d := limiter.CheckLimit(now);
    var result := ToResult(d);
    if !result.allowed {
      return TooManyRequests(result.error.value, true);
    }
    return Proceed;
  }

  /** keyai-chat: the request body is read first (a body that cannot be read
      fails with status 500, its parser's message, and costs no quota); then a
      denial is answered with 429 and the limiter's message. */
  method KeyaiChatGate(limiter: RateLimiter, parseError: Option<string>, now: int) returns (g: GateReply)
    requires limiter.Valid()
    modifies limiter
    ensures limiter.Valid()
    ensures parseError.Some? ==>
      g == ServerError(parseError.value) && limiter.State() == old(limiter.State())
    ensures parseError.None? ==>
      && limiter.State() == Next(old(limiter.State()), now)
      && (g.Proceed? <==> Decide(old(limiter.State()), now).Admitted?)
      && (!g.Proceed? ==>
            g == TooManyRequests(ToResult(Decide(old(limiter.State()), now)).error.value, false))
  {
    if parseError.Some? {
      return ServerError(parseError.value);
    }
    var d := limiter.CheckLimit(now);
    var result := ToResult(d);
    if !result.allowed {
      return TooManyRequests(result.error.value, false);
    }
    return Proceed;
  }
}
