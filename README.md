# example-mcp-stateless in Dafny

This project models the stateless Streamable-HTTP MCP example server written in TypeScript. It covers the parts of the server that are its own logic rather than the MCP SDK's, and the smoke client that exercises them.

- **Configuration** (`src/types.ts`). `readAppConfig` reads the configuration from the process environment. Numeric variables go through `parsePositiveInt`, which follows `Number.parseInt(s, 10)` as defined in section 19.2.5 of ECMAScript. A missing or empty value falls back to its default. So does a value with no digit after its leading whitespace and optional sign, and one that reads as zero or less. Characters after the leading digits are ignored, so "12abc" reads as 12. `methodNotAllowedBody` builds the JSON-RPC 2.0 error body with code -32000. That code lies in the implementation-defined server-error range of section 5.1 of the JSON-RPC 2.0 specification.
- **Tools, resources and prompts** (`src/mcpServer.ts`).
  - The `calculate` tool: four-way arithmetic, whose one error is division by zero (InvalidParams, -32602). It also builds the operator symbol, the expression, the text content and the structured content.
  - The `topic-notes` resource template. Reading is a case-insensitive lookup in a fixed four-entry table, with an "unknown" fallback. Listing gives one URI per table key.
  - The `design-next-tool` prompt: four lines joined by newlines, with a default line when no constraints are given.
- **The HTTP front** (`src/server.ts`).
  - The routes: `GET /health` answers 200 with the health report. `POST /mcp` opens a per-request exchange. `GET` and `DELETE /mcp` answer 405 with the method-not-allowed body.
  - The options passed to `cors` and to the rate limiter.
  - The per-request teardown state machine, modelled as the class `Server.PostExchange`. Its `closed` flag makes the dual close of transport and server happen at most once, whether it is triggered by the response's `close` event or by the error path. The error path writes the 500 body (JSON-RPC 2.0 internal error -32603) only when no headers have been sent.
  - `Server.HandlePost` runs one request through the exchange, under every combination of outcomes.
- **The smoke client** (`scripts/smoke-http.mjs`).
  - It reads the body of a `POST /mcp` reply either as a JSON document or as an event stream. The event-stream reading is a simplified subset of the `text/event-stream` format in section 9.2 of the HTML Living Standard: every line is trimmed, `data:` payloads are kept in order, and multi-line data is not joined.
  - A single parsed payload is returned bare; any other number of payloads is returned as an array.
  - `assertCalculateResult` checks the calculator's answer to `8 add 3`.

Modules:
- `Wrappers`: `Option`, `Result` and `Outcome`.
- `Text`: the ECMAScript string primitives the code relies on:
  - `trim`, `trimStart`, `trimEnd`;
  - `split` and `join` on one character;
  - `startsWith` and `includes`;
  - ASCII `toLowerCase`;
  - decimal digit strings.
- `Types`: `src/types.ts`.
- `McpServer`: `src/mcpServer.ts`.
- `Server`: `src/server.ts`.
- `SmokeHttp`: `scripts/smoke-http.mjs`.

Things outside the program become parameters:
- the clock (`now`);
- how each `close()` promise settles (`Settlement`);
- JS number rounding (`roundTo`);
- JS number rendering (`show`);
- `JSON.parse` (`parse`);
- the outcome of zod's `safeParse`, taken as the topic given or absent.

JS numbers are exact: `real` in the calculator and `int` in `parseInt`.

## Model

| member | source | states |
|---|---|---|
| Text.Utf16Length | src/types.ts:23 | JavaScript `length`: at least the number of characters and at most twice it, and equal to it when every character is in the Basic Multilingual Plane |
| Text.TrimStart | src/types.ts:55 | definition of `trimStart` (step 2 of `Number.parseInt`); Text.TrimStartDrops states what it removes |
| Text.TrimEnd | scripts/smoke-http.mjs:53 | definition of `trimEnd`; Text.TrimEndDrops states what it removes |
| Text.Trim | scripts/smoke-http.mjs:53 | definition of `trim` as `trimEnd` after `trimStart`; Text.TrimShape states its result |
| Text.TrimStartDrops | src/types.ts:55 | `trimStart` removes only a whitespace prefix (ECMAScript WhiteSpace and LineTerminator) and stops at the first other character |
| Text.TrimEndDrops | scripts/smoke-http.mjs:53 | `trimEnd` removes only a whitespace suffix and stops at the last other character |
| Text.TrimShape | scripts/smoke-http.mjs:53 | the result of `trim` has no whitespace at either end, and the input is that result with only whitespace around it |
| Text.TrimStartOf | src/types.ts:55 | `trimStart` of a whitespace prefix followed by a string that does not start with whitespace gives that string |
| Text.TrimEndOf | scripts/smoke-http.mjs:53 | `trimEnd` of a string followed by whitespace gives the string, when it does not end in whitespace |
| Text.TrimAround | scripts/smoke-http.mjs:53 | `trim` removes exactly the whitespace put around a trimmed string |
| Text.TrimOfTrimmed | scripts/smoke-http.mjs:55 | `trim` leaves a trimmed string unchanged |
| Text.StartsWith | scripts/smoke-http.mjs:54 | definition of `startsWith`: the prefix is the string's first characters |
| Text.Contains | scripts/smoke-http.mjs:75 | definition of `includes`: some position of the string starts with the sub-string; Text.ContainsInfix states that every infix is found |
| Text.ContainsInfix | scripts/smoke-http.mjs:75 | `includes` finds a string wherever it sits inside another |
| Text.Split | scripts/smoke-http.mjs:52 | `split` on one character gives at least one piece, and no piece contains the separator |
| Text.Join | src/mcpServer.ts:226 | definition of `join` with a one-character separator; Text.SplitJoin and Text.JoinSplit state that it is the inverse of `split` |
| Text.JoinCons | src/mcpServer.ts:226 | `join` puts the separator between the first part and the join of the rest |
| Text.SplitAfterWord | scripts/smoke-http.mjs:52 | a separator-free word in front of a text stays whole at the head of the first piece |
| Text.SplitJoin | src/mcpServer.ts:221-226 | `split` undoes `join` when no part contains the separator |
| Text.JoinSplit | scripts/smoke-http.mjs:52 | `join` undoes `split`, for every string |
| Text.AsciiLower | src/mcpServer.ts:192 | `toLowerCase` keeps the length |
| Text.AsciiLowerChars | src/mcpServer.ts:192 | lower-casing maps each character on its own: A-Z to a-z, everything else unchanged |
| Text.AsciiLowerIsLower | src/mcpServer.ts:192 | a lower-cased string has no capital letter; a string without capitals is unchanged; lower-casing is idempotent |
| Text.DigitRunShape | src/types.ts:55 | the digit run is the longest all-digit prefix: it is a prefix and is followed by a non-digit or the end |
| Text.DigitRunOf | src/types.ts:55 | digits followed by a non-digit (or nothing) give exactly those digits as the run |
| Text.Decimal | scripts/smoke-http.mjs:41 | `String(n)` for a natural number: all digits; one digit exactly when n < 10; "0" for 0 and no leading zero otherwise |
| Text.DigitsValueOfDecimal | src/types.ts:55 | reading the decimal digits of n back gives n |
| Text.IntToString | scripts/smoke-http.mjs:41 | `String(i)` is non-empty and starts with '-' exactly when i is negative |
| Types.ParseIntRadix10 | src/types.ts:55 | `Number.parseInt(s, 10)` is NaN exactly when no digit follows the leading whitespace and optional sign |
| Types.ParseIntSign | src/types.ts:55-56 | a negative result comes only from a '-' sign after the whitespace |
| Types.DigitsValueNonNegative | src/types.ts:55-56 | a digit string's value is never negative, so only the sign can make the parse negative |
| Types.ParseIntSkipsSpace | src/types.ts:55 | leading whitespace does not change what `parseInt` reads |
| Types.ParseIntUnpadded | src/types.ts:55 | without leading whitespace, `parseInt` reads the optional sign and then the longest digit run |
| Types.ParseIntOfDigits | src/types.ts:55 | the decimal digits of n followed by any non-digit text parse to exactly n |
| Types.SignedDigits | src/types.ts:55 | a '+' or '-' sign followed by text parses to the signed value of that text's digit run, or NaN when the run is empty |
| Types.ParseIntAfterSign | src/types.ts:55 | a '+' or '-' sign before the digits of n and any non-digit tail gives n or -n |
| Types.ParseIntNaNExamples | src/types.ts:55-56 | "abc", "" and "-" parse to NaN |
| Types.ParseIntExamples | src/types.ts:55-56 | "0" parses to 0 and "-5" to -5 |
| Types.ParseIntStopsAtNonDigit | src/types.ts:55 | trailing junk, a hex prefix and an exponent are not read: "12abc" gives 12, "0x10" gives 0, "1e3" gives 1 |
| Types.ParseIntSpaceExample | src/types.ts:55 | leading blanks and tabs are skipped: " \t42" gives 42 |
| Types.ParsePositiveInt | src/types.ts:50-61 | an absent or empty value gives the fallback; otherwise the result is either the fallback or a positive parsed value; a positive parse is returned as it is; a positive fallback makes the result positive |
| Types.ParsePositiveIntOfDecimal | src/types.ts:55-60 | a positive number written in decimal, after any leading whitespace and before any tail that does not start with a digit, is read back unchanged, whatever the fallback |
| Types.ParsePositiveIntExamples | src/types.ts:50-61 | absent, "", "abc", "0" and "-5" give the fallback; "12abc" gives 12 |
| Types.Defaults | src/types.ts:42-48 | the default configuration; Types.EmptyEnvGivesDefaults states its values |
| Types.EnvGet | src/types.ts:65-69 | `env[key]` is defined exactly when the key is set, and is then its value |
| Types.OrElse | src/types.ts:65-67 | `value \|\| fallback` gives the value when it is a non-empty string, and the fallback otherwise |
| Types.ReadAppConfig | src/types.ts:63-71 | total: the host and CORS origin are the variable when it is non-empty and the default otherwise; the three numbers go through `parsePositiveInt` with their defaults; every result has positive port, window and maximum |
| Types.EmptyEnvGivesDefaults | src/types.ts:42-48 | an empty environment gives the defaults 127.0.0.1, 1071, "*", 900000 (15·60·1000) and 600 |
| Types.ReadAppConfigOfEnvOf | src/types.ts:63-71 | every configuration with positive numbers and non-empty strings is read back from the environment that spells it out in decimal |
| Types.NotAllowedMethod | src/types.ts:78 | recovers the method from a "not supported" message; whatever it recovers rebuilds the message exactly |
| Types.MethodNotAllowedBody | src/types.ts:73-82 | jsonrpc "2.0", id null, code -32000 in the server-error range, and a message that names the method |
| Types.MethodNotAllowedBodyNamesMethod | src/types.ts:73-82 | the message is "HTTP " + method + " is not supported in stateless mode. Use POST /mcp."; two methods give the same body exactly when they are equal |
| McpServer.Calculate | src/mcpServer.ts:32-50 | add, subtract, multiply and divide give a+b, a-b, a·b and a/b; the only failure is divide with b = 0, and it is InvalidParams "Division by zero is not allowed." |
| McpServer.AddSubtractInverse | src/mcpServer.ts:32-39 | in the exact-real model, subtracting b undoes adding b and adding b undoes subtracting b |
| McpServer.MultiplyDivideInverse | src/mcpServer.ts:38-47 | in the exact-real model, for b ≠ 0, dividing by b undoes multiplying by b and the reverse, with no error |
| McpServer.Symbol | src/mcpServer.ts:94 | each symbol is one non-blank character |
| McpServer.OpOfSymbol | src/mcpServer.ts:94 | only one-character strings name an operation |
| McpServer.SymbolRoundTrip | src/mcpServer.ts:94 | the symbol is '+', '-', '×' or '÷' exactly for add, subtract, multiply or divide: each operation's symbol names it and no other |
| McpServer.Expression | src/mcpServer.ts:95 | definition of the expression `${a} ${symbol} ${b}`; McpServer.ExpressionWords states that it splits back into its three parts |
| McpServer.ExpressionWords | src/mcpServer.ts:95 | when the operands render without spaces, the expression splits on spaces into the operand a, the operator's symbol and the operand b |
| McpServer.CalculateTool | src/mcpServer.ts:92-111 | fails exactly on division by zero, with InvalidParams; otherwise the structured content holds the default-filled precision (2 when absent, in [0, 8]), the rounded result and the expression `a symbol b`, and the only text content is expression + " = " + result |
| McpServer.CalculateTextMatchesOutput | src/mcpServer.ts:102-111 | the text's words are the operands, the symbol, "=" and the structured result, so text and structured content agree |
| McpServer.SmokeCalculation | src/mcpServer.ts:108 | 8 add 3 at the default precision succeeds with a text containing "= 11" whenever 11 rounds to itself and renders as "11" |
| McpServer.TopicNotes | src/mcpServer.ts:21-30 | the four keys and notes, in their order; McpServer.TopicNotesWellFormed states their shape |
| McpServer.LookupIn | src/mcpServer.ts:194 | the lookup finds nothing exactly when no entry has the key, and otherwise returns a note stored under that key |
| McpServer.TopicNotesWellFormed | src/mcpServer.ts:21-30 | the four keys are distinct, lower-case and at least two characters long, and every note is non-empty, so the `\|\|` fallback applies exactly to absent keys |
| McpServer.Lookup | src/mcpServer.ts:193-194 | `TOPIC_NOTES[key]` as `LookupIn` on the table; McpServer.LookupFindsEntry states that every key finds its note |
| McpServer.LookupFindsEntry | src/mcpServer.ts:193-194 | every table key finds its own note |
| McpServer.SafeParseTopic | src/types.ts:22-24 | the topic parses exactly when it is given and its `length` (in UTF-16 code units) is at least two, and is then unchanged |
| McpServer.TopicKey | src/mcpServer.ts:191-192 | the key is empty exactly when the parse fails, and is otherwise the lower-cased topic |
| McpServer.TopicText | src/mcpServer.ts:201 | definition of the note text `# header`, a blank line, then the body; McpServer.TopicTextHeading states its first line |
| McpServer.TopicTextHeading | src/mcpServer.ts:201 | the first line of the note text is "# " followed by the header |
| McpServer.ReadTopic | src/mcpServer.ts:190-205 | exactly one markdown content at the requested URI; a failed parse gives header "unknown" with the fallback body; a key in the table gives that key with its note; any other key gives that key with the fallback body, never an error |
| McpServer.ReadTopicIgnoresCase | src/mcpServer.ts:192 | topics equal up to ASCII case read the same |
| McpServer.ReadTopicTooShort | src/mcpServer.ts:191-201 | a one-character topic reads as "unknown" |
| McpServer.ReadTopicAstral | src/mcpServer.ts:191-201 | a single character outside the Basic Multilingual Plane has length 2, so it parses and reads as an unknown topic under its own name |
| McpServer.ReadTopicUpperCase | src/mcpServer.ts:192-194 | "TOOLS" reads the `tools` note |
| McpServer.ReadTopicUnknownKey | src/mcpServer.ts:193-201 | a well-formed key outside the table ("http") gets the fallback body under its own name |
| McpServer.EntriesOf | src/mcpServer.ts:178-182 | one entry per table key, in order, with uri = prefix + key, name = key, mimeType text/markdown |
| McpServer.ListTopics | src/mcpServer.ts:177-183 | exactly four entries, in table order; each URI is "boilerplate://topic/" followed by the name, the name is the key, and the mimeType is text/markdown |
| McpServer.ListThenRead | src/mcpServer.ts:177-201 | reading any listed entry by its name gives exactly that entry's own note under its name |
| McpServer.ConstraintsLine | src/mcpServer.ts:224 | "Constraints: " + c for a non-empty c; "Constraints: none provided." when c is absent or empty |
| McpServer.PromptLines | src/mcpServer.ts:221-225 | definition of the four prompt lines; McpServer.DesignNextToolLines states that the text splits back into them |
| McpServer.DesignNextTool | src/mcpServer.ts:215-230 | one message, with role "user" and text content |
| McpServer.FixedPromptTextsHaveNoNewline | src/mcpServer.ts:222-225 | no fixed prompt text contains a newline |
| McpServer.DesignNextToolLines | src/mcpServer.ts:221-226 | when the arguments contain no newline, the text splits into exactly four lines: the domain sentence, the stateless line, the constraints line and the return line |
| McpServer.ConstraintsDefault | src/mcpServer.ts:224 | absent and empty constraints give the same prompt as each other, and the same as the literal default text |
| Server.HealthReply | src/server.ts:37-44 | status 200 with status "ok", mode "http-stateless", sdkGeneration "v2-pre-release", and the given time |
| Server.InternalErrorReply | src/server.ts:73-80 | the 500 reply with jsonrpc "2.0", code -32603, message "Internal server error" and a null id |
| Server.Route | src/server.ts:37-94 | on the route path express has matched: GET /health answers with the health report; POST /mcp is the only request that opens an exchange; GET and DELETE /mcp answer 405 with `methodNotAllowedBody(method)`; everything else is left to the framework |
| Server.McpRefusalsNameMethod | src/server.ts:88-94 | every direct answer on /mcp is a 405 with a server-error body that names the refused method, and it is never for POST |
| Server.CorsOrigin | src/server.ts:19 | the origin option is "reflect any" (`true`) exactly when the configured origin is "*", and is otherwise that string |
| Server.Cors | src/server.ts:17-25 | the origin option, the methods GET/POST/DELETE/OPTIONS, the allowed and exposed headers, and a max age of one day |
| Server.CorsFromEnvironment | src/server.ts:19 | an unset or empty CORS_ORIGIN reflects any origin; any other value except "*" allows only that origin |
| Server.RateLimit | src/server.ts:27-35 | the limiter gets the configured window and maximum, both positive, with standard headers on and legacy headers off |
| Server.PostExchange.constructor | src/server.ts:52 | a new exchange is open, has sent no headers and has started no effects |
| Server.PostExchange.CloseAll | src/server.ts:53-60 | the first call sets `closed` and then starts exactly one transport close and one server close; a later call changes nothing; the exchange invariant is kept |
| Server.PostExchange.OnResponseClose | src/server.ts:62-64 | the `close` listener has exactly the effects of `closeAll` |
| Server.PostExchange.SendHeaders | src/server.ts:68 | the transport sending its headers marks them sent and starts no effect |
| Server.PostExchange.OnHandlingError | src/server.ts:69-82 | the error path first closes (if not yet closed), then appends the 500 internal-error reply exactly when headers were not sent; afterwards the exchange is closed and its headers count as sent |
| Server.HandlePost | src/server.ts:46-86 | for every combination of outcomes: transport and server are each closed once if handling failed or the response closed, and not at all otherwise; exactly one 500 internal-error reply is written when handling failed before the transport sent headers, and none otherwise; nothing follows it; the first trigger's closes come first |
| SmokeHttp.DataPayload | scripts/smoke-http.mjs:53-56 | a line contributes a payload only if, once trimmed, it starts with "data:"; the payload is non-empty and trimmed |
| SmokeHttp.DataPayloadIgnoresPadding | scripts/smoke-http.mjs:53 | whitespace around a line does not change what it contributes |
| SmokeHttp.DataPayloadOfDataLine | scripts/smoke-http.mjs:54-55 | "data: p" and "data:p" both give exactly p |
| SmokeHttp.DataPayloadOfPaddedLine | scripts/smoke-http.mjs:53-56 | a data line with any whitespace around it and any whitespace after the colon gives exactly the trimmed non-empty text after "data:" |
| SmokeHttp.DataPayloadOfBlankData | scripts/smoke-http.mjs:53-56 | a data line with nothing but whitespace after the colon contributes nothing |
| SmokeHttp.DataPayloadDrops | scripts/smoke-http.mjs:54-56 | the blank line, the event line and empty data lines contribute nothing |
| SmokeHttp.Payloads | scripts/smoke-http.mjs:51-56 | at most one payload per line, each non-empty and trimmed |
| SmokeHttp.DataLines | scripts/smoke-http.mjs:51-56 | the body split on newlines, then `Payloads` of its lines; SmokeHttp.DataLinesOfEventStream states that it reads back an event stream |
| SmokeHttp.PayloadsAppend | scripts/smoke-http.mjs:51-56 | payloads keep their order of appearance: those of two stretches of lines are those of the first followed by those of the second |
| SmokeHttp.FrameLinesPayloads | scripts/smoke-http.mjs:51-56 | the lines of a series of events give back exactly the events' payloads, in order |
| SmokeHttp.DataLinesOfEventStream | scripts/smoke-http.mjs:50-56 | reading an event stream gives back every payload it carries, in order |
| SmokeHttp.Unwrap | scripts/smoke-http.mjs:59-63 | exactly one parsed payload is returned bare; zero or several are returned as an array |
| SmokeHttp.UnwrapElements | scripts/smoke-http.mjs:59-63 | once the number of payloads is known, unwrapping loses nothing |
| SmokeHttp.ParseAll | scripts/smoke-http.mjs:58 | succeeds exactly when every payload parses, keeping their number and order |
| SmokeHttp.PostRpcReply | scripts/smoke-http.mjs:40-66 | a non-2xx status throws "HTTP status from /mcp"; a content type containing application/json parses the body; otherwise text/event-stream extracts and unwraps the data payloads; otherwise it throws "Unexpected content-type" |
| SmokeHttp.SingleEventReply | scripts/smoke-http.mjs:44-63 | a stream of one event and a JSON body holding its payload give the same value |
| SmokeHttp.ContentTypesDistinct | scripts/smoke-http.mjs:44-49 | the event-stream type does not contain the JSON type, so an event-stream reply is not taken for JSON |
| SmokeHttp.Field | scripts/smoke-http.mjs:74 | `v?.key`: the member of an object, absent for anything else |
| SmokeHttp.Index | scripts/smoke-http.mjs:74 | `v?.[i]`: an array element, the member of an object named by the digits of i, or the one-character string of a string; absent otherwise |
| SmokeHttp.Truthy | scripts/smoke-http.mjs:70 | JavaScript truthiness: absent, null, false, 0 and "" are falsy, and everything else is truthy |
| SmokeHttp.ResultText | scripts/smoke-http.mjs:74 | `rpcResponse?.result?.content?.[0]?.text` |
| SmokeHttp.AssertCalculateResult | scripts/smoke-http.mjs:69-78 | passes exactly when `error` is not truthy and `result.content[0].text` is a string containing "= 11"; reports an RPC error exactly when `error` is truthy |
| SmokeHttp.ObjectContentPasses | scripts/smoke-http.mjs:74-75 | a content object keyed "0" passes the check just as a content array does |
| SmokeHttp.CallResultJson | scripts/smoke-http.mjs:74 | the JSON-RPC success envelope of a tool result, with each text content as a `{type, text}` object |
| SmokeHttp.SmokeCheckPasses | scripts/smoke-http.mjs:69-78 | the calculator's reply to 8 add 3 at the default precision passes the check whenever 11 rounds to itself and renders as "11" |
| SmokeHttp.ErrorReplyFails | scripts/smoke-http.mjs:70-72 | a reply whose `error` is an object fails as an RPC error, whatever its result |

## Left out

- Floating point. JS numbers are exact `real`s in the calculator, so Infinity, NaN, overflow and the sign of zero are not modelled. `raw.toFixed(precision)` and `Number.parseFloat` are the parameter `roundTo`; number-to-string rendering is the parameter `show`.
- McpServer.Calculate: uses exact real arithmetic instead of IEEE 754 doubles, so the inverse laws it satisfies can fail in the program through rounding.
- McpServer.AddSubtractInverse: holds for exact reals only. In the program's doubles (0.1 + 0.2) - 0.2 is 0.10000000000000003.
- McpServer.MultiplyDivideInverse: holds for exact reals only. In the program's doubles (0.1 * 3) / 3 is 0.10000000000000002.
- Types.ParseIntRadix10: reads the digits as an exact integer. The program rounds a value above 2^53 to the nearest double and gives -0 for "-0"; the model gives 0, which `parsePositiveInt` rejects all the same.
- Text.Decimal: matches `String(n)` only below 10^21, where JS switches to exponent notation; Text.IntToString likewise.
- Text.Utf16Length: Dafny strings hold Unicode scalar values, so a JS string with an unpaired surrogate code unit cannot be expressed. Trimming, splitting, `startsWith`, `includes` and lower-casing give the same answer on scalar values as on code units, because the separators, whitespace and ASCII letters they look at are all single code units.
- SmokeHttp.Index: the string branch indexes Unicode scalar values, while JS `s[i]` reads one UTF-16 code unit; for `"😀a"[1]` JS gives a lone surrogate and the model gives "a". `ResultText` is unaffected, since `.text` of any string is absent.
- Text.AsciiLower: lower-cases ASCII letters only, not full Unicode `toLowerCase`.
- McpServer.LookupIn: the table has exactly four entries. The `TOPIC_NOTES[topicKey]` lookup on a plain object also finds inherited keys such as "constructor"; the model does not.
- zod: the schemas are not modelled. The outcome of the topic's `safeParse` is `McpServer.SafeParseTopic`. The calculator's `precision` range [0, 8] is a precondition, and the default of 2 is filled in by `CalculateTool`.
- The MCP SDK: `McpServer`, `register*`, `ctx.mcpReq.log` and `notify` (the progress notifications), `server.connect`, `transport.handleRequest` and the reply the transport writes. Their outcomes are inputs to `Server.HandlePost`.
- SmokeHttp.CallResultJson: the JSON-RPC success envelope around a tool result is assumed, not taken from the SDK.
- express, `cors` and `express-rate-limit` internals. The model stops at the options the application passes. HEAD requests and the 404 fallback are `Server.Unrouted`.
- Server.Route: `path` is the route path after express's own matching, which is case-insensitive and accepts an optional trailing slash, so "/MCP" and "/mcp/" reach the same handlers as "/mcp". The cors middleware can answer a preflight, and the `/mcp` rate limiter can answer 429, before any route runs; neither answer is modelled.
- `randomUUID`, the stderr message of the error path, `app.listen`, the ready message, signal handling and graceful shutdown: these are I/O and process lifecycle.
- Concurrency: each request is modelled on its own. JS runs one callback at a time, so `closeAll` sets its flag atomically.
- Server.HandlePost: records the order in which effects start. `closeAll` called a second time returns without waiting for closes still in flight; when those promises settle is not modelled.
- The `describe_stateless_limits` tool and the `limitations` resource: fixed texts with no logic.
- URI template matching for `boilerplate://topic/{topic}`: the topic comes in as an input.
- `JSON.parse` and `JSON.stringify`: parsing is the parameter `parse`, and the failure messages that embed stringified JSON are abstracted into `SmokeHttp.CheckFailure`.
- In the smoke script: `waitForHealth` (a polling loop over the clock), `fetch`, `sleep`, `spawn`, the child-process management, and the batch fallback and `find` in `runSmoke`. These are I/O and timing.
- SmokeHttp.Truthy: does not model NaN, which is falsy in JS.
