/** src/server.ts: the HTTP front of the stateless server. Each POST to `/mcp`
    gets its own exchange whose `closed` flag makes the dual close of the
    transport and the MCP server happen once, whichever of the response's
    `close` event and the error path comes first. */
module Server {
  import opened Wrappers
  import opened Types

  // ---------------------------------------------------------------------------
  // Replies
  // ---------------------------------------------------------------------------

  /** The `/health` body; `time` is `new Date().toISOString()`, supplied by the caller. */
  datatype HealthBody = HealthBody(status: string, mode: string, sdkGeneration: string, time: string)

  datatype Body = ErrorBody(error: ErrorResponse) | Health(health: HealthBody)

  /** `res.status(status).json(body)`. */
  datatype Reply = Reply(status: int, body: Body)

  /** JSON-RPC 2.0 "Internal error" (section 5.1 of the JSON-RPC 2.0 specification). */
  const InternalErrorCode := -32603

  const InternalErrorReply :=
    Reply(500, ErrorBody(ErrorResponse("2.0", RpcError(InternalErrorCode, "Internal server error"), NullId)))

  /** The fixed health report at time `now`. */
  function HealthReply(now: string): (r: Reply)
    ensures r.status == 200 && r.body.Health?
    ensures r.body.health.status == "ok" && r.body.health.mode == "http-stateless"
    ensures r.body.health.sdkGeneration == "v2-pre-release" && r.body.health.time == now
  {
    Reply(200, Health(HealthBody("ok", "http-stateless", "v2-pre-release", now)))
  }

  // ---------------------------------------------------------------------------
  // Routing
  // ---------------------------------------------------------------------------

  /** What the application does with a request: answer it on the spot, hand
      it to a fresh per-request exchange, or leave it to the framework's
      fallback (not part of this model). */
  datatype Handling = Answer(reply: Reply) | Exchange | Unrouted

  /** The routes registered on the application, by method and path. */
  function Route(httpMethod: string, path: string, now: string): (h: Handling)
    ensures path == "/health" && httpMethod == "GET" ==> h == Answer(HealthReply(now))
    ensures h.Exchange? <==> path == "/mcp" && httpMethod == "POST"
    ensures path == "/mcp" && (httpMethod == "GET" || httpMethod == "DELETE") ==>
      h == Answer(Reply(405, ErrorBody(MethodNotAllowedBody(httpMethod))))
    ensures h.Unrouted? <==>
      !(path == "/health" && httpMethod == "GET")
      && !(path == "/mcp" && httpMethod in {"GET", "POST", "DELETE"})
  {
    if path == "/health" && httpMethod == "GET" then Answer(HealthReply(now))
    else if path == "/mcp" && httpMethod == "POST" then Exchange
    else if path == "/mcp" && (httpMethod == "GET" || httpMethod == "DELETE") then
      Answer(Reply(405, ErrorBody(MethodNotAllowedBody(httpMethod))))
    else Unrouted
  }

  /** Every answer `/mcp` gives on the spot is a 405 server error that names
      the refused method and points at POST. */
  lemma McpRefusalsNameMethod(httpMethod: string, now: string)
    requires Route(httpMethod, "/mcp", now).Answer?
    ensures var r := Route(httpMethod, "/mcp", now).reply;
      && r.status == 405 && r.body.ErrorBody?
      && IsServerErrorCode(r.body.error.error.code)
      && NotAllowedMethod(r.body.error.error.message) == Some(httpMethod)
      && httpMethod != "POST"
  {
  }

  // ---------------------------------------------------------------------------
  // CORS and rate limiting options
  // ---------------------------------------------------------------------------

  /** The `origin` option of `cors`: `true` reflects any origin, a string
      allows only that origin. */
  datatype OriginOption = ReflectAny | Only(origin: string)

  function CorsOrigin(corsOrigin: string): (o: OriginOption)
    ensures o.ReflectAny? <==> corsOrigin == "*"
    ensures o.Only? ==> o.origin == corsOrigin
  {
    if corsOrigin == "*" then ReflectAny else Only(corsOrigin)
  }

  datatype CorsOptions = CorsOptions(
    origin: OriginOption,
    methods: seq<string>,
    allowedHeaders: seq<string>,
    exposedHeaders: seq<string>,
    maxAge: int)

  /** The options the application passes to `cors`. */
  function Cors(config: AppConfig): (o: CorsOptions)
    ensures o.origin == CorsOrigin(config.corsOrigin)
    ensures o.methods == ["GET", "POST", "DELETE", "OPTIONS"]
    ensures o.allowedHeaders == ["Content-Type", "Accept", "mcp-protocol-version", "mcp-session-id"]
    ensures o.exposedHeaders == ["mcp-session-id", "mcp-protocol-version"]
    ensures o.maxAge == 24 * 60 * 60
  {
    CorsOptions(
      CorsOrigin(config.corsOrigin),
      ["GET", "POST", "DELETE", "OPTIONS"],
      ["Content-Type", "Accept", "mcp-protocol-version", "mcp-session-id"],
      ["mcp-session-id", "mcp-protocol-version"],
      86400)
  }

  /** With no `CORS_ORIGIN` set (or an empty one) any origin is reflected;
      otherwise exactly the configured origin is allowed. */
  lemma CorsFromEnvironment(env: Env)
    ensures EnvGet(env, "CORS_ORIGIN").None? || EnvGet(env, "CORS_ORIGIN").value == ""
            ==> Cors(ReadAppConfig(env)).origin == ReflectAny
    ensures EnvGet(env, "CORS_ORIGIN").Some? && EnvGet(env, "CORS_ORIGIN").value !in {"", "*"}
            ==> Cors(ReadAppConfig(env)).origin == Only(EnvGet(env, "CORS_ORIGIN").value)
  {
  }

  datatype RateLimitOptions = RateLimitOptions(windowMs: int, max: int, standardHeaders: bool, legacyHeaders: bool)

  /** The options of the `/mcp` rate limiter: always a positive window and a
      positive budget, reported in the standard `RateLimit` headers and not
      in the legacy `X-RateLimit-*` ones. */
  function RateLimit(config: AppConfig): (o: RateLimitOptions)
    requires ValidConfig(config)
    ensures o.windowMs > 0 && o.max > 0
    ensures o.windowMs == config.rateLimitWindowMs && o.max == config.rateLimitMax
    ensures o.standardHeaders && !o.legacyHeaders
  {
    RateLimitOptions(config.rateLimitWindowMs, config.rateLimitMax, true, false)
  }

  // ---------------------------------------------------------------------------
  // The POST /mcp exchange
  // ---------------------------------------------------------------------------

  /** How a `close()` promise settled; `Promise.allSettled` waits for both
      and never rejects, whatever they are. */
  datatype Settlement = Fulfilled | Rejected

  /** What an exchange does to the outside world, in the order it starts it. */
  datatype Effect =
    | CloseTransport(transport: Settlement)
    | CloseServer(server: Settlement)
    | Responded(reply: Reply)

  datatype EffectKind = TransportClosing | ServerClosing | Responding

  predicate IsKind(e: Effect, k: EffectKind) {
    match k
    case TransportClosing => e.CloseTransport?
    case ServerClosing => e.CloseServer?
    case Responding => e.Responded?
  }

  /** How many effects of kind `k` are in `effects`. */
  function Count(effects: seq<Effect>, k: EffectKind): nat {
    if |effects| == 0 then 0
    else Count(effects[..|effects| - 1], k) + (if IsKind(effects[|effects| - 1], k) then 1 else 0)
  }

  lemma CountAppendOne(effects: seq<Effect>, e: Effect)
    ensures forall k :: Count(effects + [e], k) == Count(effects, k) + (if IsKind(e, k) then 1 else 0)
  {
    assert (effects + [e])[..|effects|] == effects;
  }

  lemma CountAppendTwo(effects: seq<Effect>, e1: Effect, e2: Effect)
    ensures forall k :: (Count(effects + [e1] + [e2], k)
      == Count(effects, k) + (if IsKind(e1, k) then 1 else 0) + (if IsKind(e2, k) then 1 else 0))
  {
    CountAppendOne(effects, e1);
    CountAppendOne(effects + [e1], e2);
  }

  lemma {:induction false} CountZero(effects: seq<Effect>, k: EffectKind)
    requires Count(effects, k) == 0
    ensures forall i :: 0 <= i < |effects| ==> !IsKind(effects[i], k)
  {
    if |effects| > 0 {
      CountZero(effects[..|effects| - 1], k);
      assert forall i :: 0 <= i < |effects| - 1 ==> effects[i] == effects[..|effects| - 1][i];
    }
  }

  /** Nothing but a response follows a response. */
  predicate RespondsLast(effects: seq<Effect>) {
    forall i, j :: 0 <= i < j < |effects| && effects[i].Responded? ==> effects[j].Responded?
  }

  /** The exchange's invariant: the transport and the server are each closed
      once if the exchange is closed and not at all otherwise; at most one
      response is written, only once the exchange is closed and with its
      headers counted as sent; and no close is started after it. */
  predicate Consistent(closed: bool, headersSent: bool, effects: seq<Effect>) {
    && Count(effects, TransportClosing) == (if closed then 1 else 0)
    && Count(effects, ServerClosing) == (if closed then 1 else 0)
    && Count(effects, Responding) <= 1
    && (Count(effects, Responding) == 1 ==> closed && headersSent)
    && RespondsLast(effects)
  }

  /** The state of one POST /mcp request: the `closed` flag of `closeAll`,
      `res.headersSent`, and the effects started so far. */
  class PostExchange {
    var closed: bool
    var headersSent: bool
    var effects: seq<Effect>

    ghost predicate Valid()
      reads this
    {
      Consistent(closed, headersSent, effects)
    }

    constructor()
      ensures Valid()
      ensures !closed && !headersSent && effects == []
    {
      closed := false;
      headersSent := false;
      effects := [];
    }

    /** `closeAll`: the first call sets the flag, then starts both closes; any
        later call returns at once. It has no failure outcome. */
    method CloseAll(transport: Settlement, server: Settlement)
      requires Valid()
      modifies this
      ensures Valid() && closed && headersSent == old(headersSent)
      ensures effects == if old(closed) then old(effects)
                         else old(effects) + [CloseTransport(transport), CloseServer(server)]
    {
      if closed {
        return;
      }
      closed := true;
      var before := effects;
      CountZero(before, Responding);
      effects := before + [CloseTransport(transport)] + [CloseServer(server)];
      assert effects == before + [CloseTransport(transport), CloseServer(server)];
      CountAppendTwo(before, CloseTransport(transport), CloseServer(server));
    }

    /** The `close` listener on the response. */
    method OnResponseClose(transport: Settlement, server: Settlement)
      requires Valid()
      modifies this
      ensures Valid() && closed && headersSent == old(headersSent)
      ensures effects == if old(closed) then old(effects)
                         else old(effects) + [CloseTransport(transport), CloseServer(server)]
    {
      CloseAll(transport, server);
    }

    /** The transport starts writing its own response. */
    method SendHeaders()
      requires Valid()
      modifies this
      ensures Valid() && headersSent
      ensures closed == old(closed) && effects == old(effects)
    {
      headersSent := true;
    }

    /** The `catch` path: close everything, then write the 500 only if no
        headers have gone out yet. */
    method OnHandlingError(transport: Settlement, server: Settlement)
      requires Valid()
      modifies this
      ensures Valid() && closed && headersSent
      ensures var closes := if old(closed) then [] else [CloseTransport(transport), CloseServer(server)];
        effects == old(effects) + closes + (if old(headersSent) then [] else [Responded(InternalErrorReply)])
    {
      CloseAll(transport, server);
      if !headersSent {
        var before := effects;
        CountAppendOne(before, Responded(InternalErrorReply));
        effects := before + [Responded(InternalErrorReply)];
        headersSent := true;
      }
    }
  }

  /** When the response's `close` event fires relative to the handler. */
  datatype CloseEvent = DuringHandling | AfterHandling | NoCloseEvent

  /** One POST /mcp request: `server.connect` and `transport.handleRequest`
      succeed or throw, the transport may have sent headers, and the
      response's `close` event fires before the `catch` path, after it, or
      not at all. Each trigger brings the settlements its close calls would
      have. */
  method HandlePost(connectOk: bool, handleOk: bool, transportSendsHeaders: bool, closeEvent: CloseEvent,
                    eventTransport: Settlement, eventServer: Settlement,
                    catchTransport: Settlement, catchServer: Settlement)
    returns (effects: seq<Effect>)
    ensures var closes := if !connectOk || !handleOk || !closeEvent.NoCloseEvent? then 1 else 0;
      Count(effects, TransportClosing) == closes && Count(effects, ServerClosing) == closes
    ensures Count(effects, Responding) ==
      (if (!connectOk || !handleOk) && !(connectOk && transportSendsHeaders) then 1 else 0)
    ensures forall i :: 0 <= i < |effects| && effects[i].Responded? ==> effects[i].reply == InternalErrorReply
    ensures RespondsLast(effects)
    ensures closeEvent == DuringHandling ==>
      |effects| >= 2 && effects[..2] == [CloseTransport(eventTransport), CloseServer(eventServer)]
    ensures closeEvent != DuringHandling && (!connectOk || !handleOk) ==>
      |effects| >= 2 && effects[..2] == [CloseTransport(catchTransport), CloseServer(catchServer)]
  {
    var exchange := new PostExchange();
    if closeEvent == DuringHandling {
      exchange.OnResponseClose(eventTransport, eventServer);
    }
    if connectOk && transportSendsHeaders {
      exchange.SendHeaders();
    }
    var failed := !connectOk || !handleOk;
    if failed {
      exchange.OnHandlingError(catchTransport, catchServer);
    }
    if closeEvent == AfterHandling {
      exchange.OnResponseClose(eventTransport, eventServer);
    }
    effects := exchange.effects;
  }
}
