/** src/types.ts: reading the server configuration from the environment, and
    the JSON-RPC 2.0 error body of the methods `/mcp` does not serve. */
module Types {
  import opened Wrappers
  import opened Text

  // ---------------------------------------------------------------------------
  // Number.parseInt(s, 10)
  // ---------------------------------------------------------------------------

  /** What is left after the optional sign (step 5 of section 19.2.5 of
      ECMAScript): a leading '-' or '+' is dropped. */
  function Unsigned(t: string): string {
    if |t| > 0 && (t[0] == '-' || t[0] == '+') then t[1..] else t
  }

  /** `Number.parseInt(s, 10)` (ECMAScript section 19.2.5) on exact integers:
      skip leading whitespace, take an optional sign, then the longest run of
      decimal digits; `None` is NaN (no digit at all). Negative zero is 0. */
  function ParseIntRadix10(s: string): (r: Option<int>)
    ensures r.None? <==> DigitRun(Unsigned(TrimStart(s))) == ""
  {
    var t := TrimStart(s);
    var digits := DigitRun(Unsigned(t));
    if digits == "" then None
    else Some(if |t| > 0 && t[0] == '-' then -DigitsValue(digits) else DigitsValue(digits))
  }

  /** Only a '-' sign gives a negative number; NaN comes exactly from a
      string with no digit after the whitespace and the sign. */
  lemma ParseIntSign(s: string)
    ensures ParseIntRadix10(s).Some? && ParseIntRadix10(s).value < 0 ==> TrimStart(s)[0] == '-'
  {
    var digits := DigitRun(Unsigned(TrimStart(s)));
    DigitRunShape(Unsigned(TrimStart(s)));
    DigitsValueNonNegative(digits);
  }

  lemma {:induction false} DigitsValueNonNegative(ds: string)
    requires AllDigits(ds)
    ensures DigitsValue(ds) >= 0
  {
    if |ds| > 0 {
      DigitsValueNonNegative(ds[..|ds| - 1]);
    }
  }

  /** Leading whitespace does not change what `parseInt` reads. */
  lemma ParseIntSkipsSpace(ws: string, rest: string)
    requires AllSpace(ws) && (rest == [] || !IsJsSpace(rest[0]))
    ensures ParseIntRadix10(ws + rest) == ParseIntRadix10(rest)
  {
    TrimStartOf(ws, rest);
    TrimStartOf([], rest);
    assert [] + rest == rest;
  }

  /** Without leading whitespace, `parseInt` reads the sign and the digits. */
  lemma ParseIntUnpadded(s: string)
    requires |s| > 0 && !IsJsSpace(s[0])
    ensures var ds := DigitRun(Unsigned(s));
      ParseIntRadix10(s) == if ds == "" then None else Some(if s[0] == '-' then -DigitsValue(ds) else DigitsValue(ds))
  {
    assert TrimStart(s) == s;
  }

  /** The digits of `n` followed by anything that does not start with a
      digit: `parseInt` reads back exactly `n`. */
  lemma ParseIntOfDigits(n: nat, junk: string)
    requires junk == [] || !IsDigit(junk[0])
    ensures ParseIntRadix10(Decimal(n) + junk) == Some(n)
  {
    var d := Decimal(n);
    var rest := d + junk;
    assert rest[0] == d[0] && IsDigit(d[0]);
    ParseIntUnpadded(rest);
    assert Unsigned(rest) == rest;
    DigitRunOf(d, junk);
    DigitsValueOfDecimal(n);
  }

  /** The same after a '+' or '-' sign, which gives the sign of the result. */
  lemma ParseIntAfterSign(sign: char, n: nat, junk: string)
    requires sign == '+' || sign == '-'
    requires junk == [] || !IsDigit(junk[0])
    ensures ParseIntRadix10([sign] + Decimal(n) + junk) == Some(if sign == '-' then -(n as int) else n)
  {
    var d := Decimal(n);
    var rest := [sign] + d + junk;
    assert rest == [sign] + (d + junk);
    SignedDigits(sign, d + junk);
    DigitRunOf(d, junk);
    DigitsValueOfDecimal(n);
  }

  /** What a sign followed by `t` parses to. */
  lemma SignedDigits(sign: char, t: string)
    requires sign == '+' || sign == '-'
    ensures var ds := DigitRun(t);
      ParseIntRadix10([sign] + t)
        == if ds == "" then None else Some(if sign == '-' then -DigitsValue(ds) else DigitsValue(ds))
  {
    var rest := [sign] + t;
    ParseIntUnpadded(rest);
    assert rest[1..] == t;
  }

  lemma ParseIntNaNExamples()
    ensures ParseIntRadix10("abc") == None
    ensures ParseIntRadix10("") == None
    ensures ParseIntRadix10("-") == None
  {
    assert TrimStart("abc") == "abc";
    assert TrimStart("-") == "-";
    assert Unsigned("-") == "";
  }

  lemma ParseIntExamples()
    ensures ParseIntRadix10("0") == Some(0)
    ensures ParseIntRadix10("-5") == Some(-5)
  {
    ParseIntOfDigits(0, "");
    assert "0" == Decimal(0) + "";
    ParseIntAfterSign('-', 5, "");
    assert "-5" == ['-'] + Decimal(5) + "";
  }

  /** Reading stops at the first non-digit: trailing junk, a hex prefix and
      an exponent are not read. */
  lemma ParseIntStopsAtNonDigit()
    ensures ParseIntRadix10("12abc") == Some(12)
    ensures ParseIntRadix10("0x10") == Some(0)
    ensures ParseIntRadix10("1e3") == Some(1)
  {
    ParseIntOfDigits(12, "abc");
    assert "12abc" == Decimal(12) + "abc";
    ParseIntOfDigits(0, "x10");
    assert "0x10" == Decimal(0) + "x10";
    ParseIntOfDigits(1, "e3");
    assert "1e3" == Decimal(1) + "e3";
  }

  lemma ParseIntSpaceExample()
    ensures ParseIntRadix10(" \t42") == Some(42)
  {
    ParseIntSkipsSpace(" \t", "42");
    assert " \t42" == " \t" + "42";
    ParseIntOfDigits(42, "");
    assert "42" == Decimal(42) + "";
  }

  // ---------------------------------------------------------------------------
  // parsePositiveInt, readAppConfig
  // ---------------------------------------------------------------------------

  /** `parsePositiveInt(rawValue, fallback)`: an absent or empty value, NaN and
      anything not above zero give `fallback`; otherwise the parsed value. */
  function ParsePositiveInt(raw: Option<string>, fallback: int): (r: int)
    ensures raw.None? || raw.value == "" ==> r == fallback
    ensures r == fallback || (raw.Some? && ParseIntRadix10(raw.value) == Some(r) && r > 0)
    ensures raw.Some? && ParseIntRadix10(raw.value).Some? && ParseIntRadix10(raw.value).value > 0
            ==> r == ParseIntRadix10(raw.value).value
    ensures fallback > 0 ==> r > 0
  {
    if raw.None? || raw.value == "" then fallback
    else
      var parsed := ParseIntRadix10(raw.value);
      if parsed.None? || parsed.value <= 0 then fallback
      else parsed.value
  }

  /** A positive number written in decimal into the environment reads back
      unchanged, with or without trailing junk and leading whitespace. */
  lemma ParsePositiveIntOfDecimal(n: nat, fallback: int, ws: string, junk: string)
    requires n > 0
    requires AllSpace(ws) && (junk == [] || !IsDigit(junk[0]))
    ensures ParsePositiveInt(Some(ws + Decimal(n) + junk), fallback) == n
  {
    var d := Decimal(n);
    assert ws + d + junk == ws + (d + junk);
    assert (d + junk)[0] == d[0];
    ParseIntSkipsSpace(ws, d + junk);
    ParseIntOfDigits(n, junk);
  }

  lemma ParsePositiveIntExamples(fallback: int)
    ensures ParsePositiveInt(None, fallback) == fallback
    ensures ParsePositiveInt(Some(""), fallback) == fallback
    ensures ParsePositiveInt(Some("abc"), fallback) == fallback
    ensures ParsePositiveInt(Some("0"), fallback) == fallback
    ensures ParsePositiveInt(Some("-5"), fallback) == fallback
    ensures ParsePositiveInt(Some("12abc"), fallback) == 12
  {
    ParseIntNaNExamples();
    ParseIntExamples();
    ParseIntStopsAtNonDigit();
  }

  datatype AppConfig = AppConfig(
    host: string,
    port: int,
    corsOrigin: string,
    rateLimitWindowMs: int,
    rateLimitMax: int)

  /** The values `readAppConfig` falls back to. */
  const Defaults := AppConfig("127.0.0.1", 1071, "*", 15 * 60 * 1000, 600)

  /** The process environment; a missing key is an undefined variable. */
  type Env = map<string, string>

  function EnvGet(env: Env, key: string): (v: Option<string>)
    ensures v.Some? <==> key in env
    ensures v.Some? ==> v.value == env[key]
  {
    if key in env then Some(env[key]) else None
  }

  /** `value || fallback` for a string that may be undefined. */
  function OrElse(value: Option<string>, fallback: string): (r: string)
    ensures r == fallback || (value == Some(r) && r != "")
    ensures value.Some? && value.value != "" ==> r == value.value
  {
    if value.Some? && value.value != "" then value.value else fallback
  }

  /** Numeric fields positive: what every configuration the server runs with
      satisfies. */
  predicate ValidConfig(c: AppConfig) {
    c.port > 0 && c.rateLimitWindowMs > 0 && c.rateLimitMax > 0
  }

  /** `readAppConfig(env)`: total, never rejects; each malformed or missing
      value is replaced by its default. */
  function ReadAppConfig(env: Env): (c: AppConfig)
    ensures ValidConfig(c)
    ensures c.host == if "HOST" in env && env["HOST"] != "" then env["HOST"] else Defaults.host
    ensures c.corsOrigin == if "CORS_ORIGIN" in env && env["CORS_ORIGIN"] != "" then env["CORS_ORIGIN"] else Defaults.corsOrigin
    ensures c.port == ParsePositiveInt(EnvGet(env, "PORT"), Defaults.port)
    ensures c.rateLimitWindowMs == ParsePositiveInt(EnvGet(env, "RATE_LIMIT_WINDOW_MS"), Defaults.rateLimitWindowMs)
    ensures c.rateLimitMax == ParsePositiveInt(EnvGet(env, "RATE_LIMIT_MAX"), Defaults.rateLimitMax)
  {
    AppConfig(
      OrElse(EnvGet(env, "HOST"), Defaults.host),
      ParsePositiveInt(EnvGet(env, "PORT"), Defaults.port),
      OrElse(EnvGet(env, "CORS_ORIGIN"), Defaults.corsOrigin),
      ParsePositiveInt(EnvGet(env, "RATE_LIMIT_WINDOW_MS"), Defaults.rateLimitWindowMs),
      ParsePositiveInt(EnvGet(env, "RATE_LIMIT_MAX"), Defaults.rateLimitMax))
  }

  /** An empty environment gives the defaults: 127.0.0.1, port 1071, any
      origin, a 15-minute window, 600 requests. */
  lemma EmptyEnvGivesDefaults()
    ensures ReadAppConfig(map[]) == Defaults
    ensures Defaults == AppConfig("127.0.0.1", 1071, "*", 900000, 600)
  {
  }

  /** The environment that spells out configuration `c`. */
  function EnvOf(c: AppConfig): Env
    requires ValidConfig(c)
  {
    map["HOST" := c.host, "PORT" := Decimal(c.port), "CORS_ORIGIN" := c.corsOrigin,
        "RATE_LIMIT_WINDOW_MS" := Decimal(c.rateLimitWindowMs),
        "RATE_LIMIT_MAX" := Decimal(c.rateLimitMax)]
  }

  /** Every valid configuration with non-empty strings is read back from the
      environment that spells it out. */
  lemma ReadAppConfigOfEnvOf(c: AppConfig)
    requires ValidConfig(c) && c.host != "" && c.corsOrigin != ""
    ensures ReadAppConfig(EnvOf(c)) == c
  {
    var env := EnvOf(c);
    assert EnvGet(env, "PORT") == Some(Decimal(c.port));
    assert EnvGet(env, "RATE_LIMIT_WINDOW_MS") == Some(Decimal(c.rateLimitWindowMs));
    assert EnvGet(env, "RATE_LIMIT_MAX") == Some(Decimal(c.rateLimitMax));
    ParsePositiveIntOfDecimal(c.port, Defaults.port, "", "");
    ParsePositiveIntOfDecimal(c.rateLimitWindowMs, Defaults.rateLimitWindowMs, "", "");
    ParsePositiveIntOfDecimal(c.rateLimitMax, Defaults.rateLimitMax, "", "");
    assert forall d: string :: "" + d + "" == d;
  }

  // ---------------------------------------------------------------------------
  // JSON-RPC 2.0 error bodies
  // ---------------------------------------------------------------------------

  /** The `id` member of a JSON-RPC 2.0 response. */
  datatype RpcId = NullId

  datatype RpcError = RpcError(code: int, message: string)

  /** `{jsonrpc, error: {code, message}, id}`. */
  datatype ErrorResponse = ErrorResponse(jsonrpc: string, error: RpcError, id: RpcId)

  /** Section 5.1 of the JSON-RPC 2.0 specification reserves -32000 to -32099
      for implementation-defined server errors. */
  predicate IsServerErrorCode(code: int) {
    -32099 <= code <= -32000
  }

  const NotAllowedPrefix := "HTTP "
  const NotAllowedSuffix := " is not supported in stateless mode. Use POST /mcp."

  /** The HTTP method a "not supported" message names, if it is one. */
  function NotAllowedMethod(message: string): (m: Option<string>)
    ensures m.Some? ==> message == NotAllowedPrefix + m.value + NotAllowedSuffix
  {
    if StartsWith(message, NotAllowedPrefix) && EndsWith(message, NotAllowedSuffix)
       && |NotAllowedPrefix| + |NotAllowedSuffix| <= |message|
    then
      var m := message[|NotAllowedPrefix|..|message| - |NotAllowedSuffix|];
      assert message == message[..|NotAllowedPrefix|] + m + message[|message| - |NotAllowedSuffix|..];
      Some(m)
    else None
  }

  /** `methodNotAllowedBody(method)`: a server error (code -32000) with a null
      id whose message names the method. */
  function MethodNotAllowedBody(httpMethod: string): (r: ErrorResponse)
    ensures r.jsonrpc == "2.0" && r.id == NullId
    ensures r.error.code == -32000 && IsServerErrorCode(r.error.code)
    ensures NotAllowedMethod(r.error.message) == Some(httpMethod)
  {
    var message := NotAllowedPrefix + httpMethod + NotAllowedSuffix;
    assert message[..|NotAllowedPrefix|] == NotAllowedPrefix;
    assert message[|message| - |NotAllowedSuffix|..] == NotAllowedSuffix;
    assert message[|NotAllowedPrefix|..|message| - |NotAllowedSuffix|] == httpMethod;
    ErrorResponse("2.0", RpcError(-32000, message), NullId)
  }

  /** Distinct methods give distinct bodies, and the body spells out the
      method in the fixed sentence. */
  lemma MethodNotAllowedBodyNamesMethod(m1: string, m2: string)
    ensures MethodNotAllowedBody(m1).error.message
            == "HTTP " + m1 + " is not supported in stateless mode. Use POST /mcp."
    ensures MethodNotAllowedBody(m1) == MethodNotAllowedBody(m2) <==> m1 == m2
  {
    if MethodNotAllowedBody(m1) == MethodNotAllowedBody(m2) {
      assert NotAllowedMethod(MethodNotAllowedBody(m1).error.message) == Some(m2);
    }
  }
}
