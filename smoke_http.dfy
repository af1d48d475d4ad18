/** scripts/smoke-http.mjs: how the smoke client reads a POST /mcp reply,
    either a JSON document or an event stream (a simplified subset of the
    `text/event-stream` format of section 9.2 of the HTML Living Standard),
    and the check it makes on the calculator's answer. JSON parsing is the
    parameter `parse`. */
module SmokeHttp {
  import opened Wrappers
  import opened Text
  import McpServer

  // ---------------------------------------------------------------------------
  // data: lines
  // ---------------------------------------------------------------------------

  const DataField := "data:"

  /** The payload one line of the stream contributes: the trimmed line must
      start with "data:", and what follows, trimmed, must be non-empty. */
  function DataPayload(line: string): (p: Option<string>)
    ensures p.Some? ==> p.value != "" && IsTrimmed(p.value)
    ensures p.Some? ==> StartsWith(Trim(line), DataField)
  {
    var t := Trim(line);
    if !StartsWith(t, DataField) then None
    else
      var payload := Trim(t[|DataField|..]);
      TrimShape(t[|DataField|..]);
      if payload == "" then None else Some(payload)
  }

  /** Whitespace around a line does not change what it contributes. */
  lemma DataPayloadIgnoresPadding(pre: string, line: string, post: string)
    requires AllSpace(pre) && AllSpace(post) && IsTrimmed(line)
    ensures DataPayload(pre + line + post) == DataPayload(line)
  {
    TrimAround(pre, line, post);
    TrimOfTrimmed(line);
  }

  /** A `data:` line with a trimmed non-empty payload, with or without the
      space after the colon, gives back exactly that payload. */
  lemma DataPayloadOfDataLine(p: string)
    requires p != "" && IsTrimmed(p)
    ensures DataPayload("data: " + p) == Some(p)
    ensures DataPayload("data:" + p) == Some(p)
  {
    var spaced := "data: " + p;
    assert IsTrimmed(spaced) by {
      assert spaced[0] == 'd';
      assert spaced[|spaced| - 1] == p[|p| - 1];
    }
    TrimOfTrimmed(spaced);
    assert spaced[..5] == DataField;
    assert spaced[5..] == [' '] + p;
    TrimAround([' '], p, []);
    assert [' '] + p + [] == [' '] + p;
    TrimOfTrimmed(p);
    var bare := "data:" + p;
    assert IsTrimmed(bare) by {
      assert bare[0] == 'd';
      assert bare[|bare| - 1] == p[|p| - 1];
    }
    TrimOfTrimmed(bare);
    assert bare[..5] == DataField;
    assert bare[5..] == p;
  }

  /** A data line, however padded and with any whitespace after the colon,
      gives exactly the trimmed text after "data:". */
  lemma DataPayloadOfPaddedLine(pre: string, ws: string, p: string, post: string)
    requires AllSpace(pre) && AllSpace(ws) && AllSpace(post)
    requires p != "" && IsTrimmed(p)
    ensures DataPayload(pre + (DataField + ws + p) + post) == Some(p)
  {
    var line := DataField + ws + p;
    assert IsTrimmed(line) by {
      assert line[0] == 'd';
      assert line[|line| - 1] == p[|p| - 1];
    }
    DataPayloadIgnoresPadding(pre, line, post);
    TrimOfTrimmed(line);
    assert line[..5] == DataField;
    assert line[5..] == ws + p;
    TrimAround(ws, p, []);
    assert ws + p + [] == ws + p;
  }

  /** A data line holding only whitespace after the colon contributes nothing. */
  lemma DataPayloadOfBlankData(pre: string, ws: string, post: string)
    requires AllSpace(pre) && AllSpace(ws) && AllSpace(post)
    ensures DataPayload(pre + DataField + ws + post) == None
  {
    var line := DataField;
    assert IsTrimmed(line);
    var tail := ws + post;
    assert AllSpace(tail) by {
      forall k | 0 <= k < |tail| ensures IsJsSpace(tail[k]) {
        if k < |ws| { assert tail[k] == ws[k]; } else { assert tail[k] == post[k - |ws|]; }
      }
    }
    assert pre + DataField + ws + post == pre + line + tail;
    DataPayloadIgnoresPadding(pre, line, tail);
    TrimOfTrimmed(line);
    assert line[5..] == "";
    TrimOfTrimmed("");
  }

  /** Lines that are not data lines, or data lines with nothing in them, are dropped. */
  lemma DataPayloadDrops()
    ensures DataPayload("") == None
    ensures DataPayload("event: message") == None
    ensures DataPayload("data:") == None
    ensures DataPayload("  data:  ") == None
  {
    TrimOfTrimmed("");
    TrimOfTrimmed("event: message");
    assert "event: message"[..5] != DataField;
    TrimOfTrimmed("data:");
    assert "data:"[5..] == "";
    TrimOfTrimmed("");
    TrimAround("  ", "data:", "  ");
    assert "  " + "data:" + "  " == "  data:  ";
  }

  /** The `.map(trim).filter(startsWith).map(slice, trim).filter(Boolean)`
      chain over the lines of the body. */
  function Payloads(lines: seq<string>): (ps: seq<string>)
    ensures |ps| <= |lines|
    ensures forall i :: 0 <= i < |ps| ==> ps[i] != "" && IsTrimmed(ps[i])
  {
    if lines == [] then []
    else
      var rest := Payloads(lines[1..]);
      match DataPayload(lines[0])
      case Some(p) => [p] + rest
      case None => rest
  }

  /** The payloads of the body's lines, in order of appearance. */
  function DataLines(raw: string): seq<string> {
    Payloads(Split(raw, '\n'))
  }

  /** Extraction keeps the order of the lines: the payloads of two stretches
      of lines are those of the first followed by those of the second. */
  lemma {:induction false} PayloadsAppend(a: seq<string>, b: seq<string>)
    ensures Payloads(a + b) == Payloads(a) + Payloads(b)
  {
    if a == [] {
      assert a + b == b;
    } else {
      assert (a + b)[0] == a[0];
      assert (a + b)[1..] == a[1..] + b;
      PayloadsAppend(a[1..], b);
    }
  }

  /** The lines the server's transport writes for one message. */
  function EventLines(payload: string): seq<string> {
    ["event: message", "data: " + payload, ""]
  }

  function FrameLines(payloads: seq<string>): seq<string> {
    if payloads == [] then [] else EventLines(payloads[0]) + FrameLines(payloads[1..])
  }

  /** An event stream carrying `payloads`, one event each, ending with the
      blank line that closes the last event. */
  function EventStream(payloads: seq<string>): string {
    Join(FrameLines(payloads) + [""], '\n')
  }

  predicate WellFormedPayload(p: string) {
    p != "" && IsTrimmed(p) && '\n' !in p
  }

  /** One event's lines hold no newline, and only the data line carries a payload. */
  lemma EventLinesShape(p: string)
    requires WellFormedPayload(p)
    ensures forall i :: 0 <= i < 3 ==> '\n' !in EventLines(p)[i]
    ensures Payloads(EventLines(p)) == [p]
  {
    assert '\n' !in "event: message";
    assert '\n' !in "data: " + p;
    EventPayload(p);
  }

  lemma EventPayload(p: string)
    requires WellFormedPayload(p)
    ensures Payloads(EventLines(p)) == [p]
  {
    var lines := EventLines(p);
    assert Payloads([""]) == [] by {
      DataPayloadDrops();
    }
    assert Payloads(lines[1..]) == [p] by {
      DataPayloadOfDataLine(p);
      assert lines[1..][1..] == [""];
    }
    assert Payloads(lines) == Payloads(lines[1..]) by {
      DataPayloadDrops();
    }
  }

  lemma {:induction false} FrameLinesNoNewline(payloads: seq<string>)
    requires forall i :: 0 <= i < |payloads| ==> WellFormedPayload(payloads[i])
    ensures forall i :: 0 <= i < |FrameLines(payloads)| ==> '\n' !in FrameLines(payloads)[i]
  {
    if payloads != [] {
      var p := payloads[0];
      var rest := FrameLines(payloads[1..]);
      FrameLinesNoNewline(payloads[1..]);
      EventLinesShape(p);
      forall i | 0 <= i < |FrameLines(payloads)|
        ensures '\n' !in FrameLines(payloads)[i]
      {
        if i < 3 {
          assert FrameLines(payloads)[i] == EventLines(p)[i];
        } else {
          assert FrameLines(payloads)[i] == rest[i - 3];
        }
      }
    }
  }

  lemma {:induction false} FrameLinesPayloads(payloads: seq<string>)
    requires forall i :: 0 <= i < |payloads| ==> WellFormedPayload(payloads[i])
    ensures Payloads(FrameLines(payloads)) == payloads
  {
    if payloads != [] {
      var p := payloads[0];
      FrameLinesPayloads(payloads[1..]);
      EventLinesShape(p);
      PayloadsAppend(EventLines(p), FrameLines(payloads[1..]));
      assert payloads == [p] + payloads[1..];
    }
  }

  /** Extraction reads back every payload an event stream carries, in order. */
  lemma DataLinesOfEventStream(payloads: seq<string>)
    requires forall i :: 0 <= i < |payloads| ==> WellFormedPayload(payloads[i])
    ensures DataLines(EventStream(payloads)) == payloads
  {
    var lines := FrameLines(payloads) + [""];
    FrameLinesNoNewline(payloads);
    FrameLinesPayloads(payloads);
    assert forall i :: 0 <= i < |lines| ==> '\n' !in lines[i] by {
      forall i | 0 <= i < |lines|
        ensures '\n' !in lines[i]
      {
        if i < |FrameLines(payloads)| {
          assert lines[i] == FrameLines(payloads)[i];
        }
      }
    }
    SplitJoin(lines, '\n');
    PayloadsAppend(FrameLines(payloads), [""]);
    DataPayloadDrops();
    assert Payloads([""]) == [];
  }

  // ---------------------------------------------------------------------------
  // JSON values and the reply of postRpc
  // ---------------------------------------------------------------------------

  /** A parsed JSON value. Numbers are exact. */
  datatype Json =
    | JNull
    | JBool(b: bool)
    | JNumber(n: real)
    | JString(s: string)
    | JArray(items: seq<Json>)
    | JObject(fields: map<string, Json>)

  /** The parsed payloads, returned bare when there is exactly one and as an
      array otherwise. */
  function Unwrap(parsed: seq<Json>): (v: Json)
    ensures |parsed| == 1 ==> v == parsed[0]
    ensures |parsed| != 1 ==> v == JArray(parsed)
  {
    if |parsed| == 1 then parsed[0] else JArray(parsed)
  }

  /** The elements a caller recovers from an unwrapped reply. */
  function Elements(v: Json, count: nat): seq<Json> {
    if count == 1 then [v] else if v.JArray? then v.items else []
  }

  /** Unwrapping loses nothing once the number of payloads is known. */
  lemma UnwrapElements(parsed: seq<Json>)
    ensures Elements(Unwrap(parsed), |parsed|) == parsed
  {
  }

  /** `JSON.parse` of every payload; the first one that fails makes the whole
      reply fail. */
  function ParseAll(payloads: seq<string>, parse: string -> Option<Json>): (r: Option<seq<Json>>)
    ensures r.Some? <==> forall i :: 0 <= i < |payloads| ==> parse(payloads[i]).Some?
    ensures r.Some? ==> |r.value| == |payloads|
    ensures r.Some? ==> forall i :: 0 <= i < |payloads| ==> Some(r.value[i]) == parse(payloads[i])
  {
    if payloads == [] then Some([])
    else
      match parse(payloads[0])
      case None => None
      case Some(v) =>
        match ParseAll(payloads[1..], parse)
        case None =>
          assert !parse(payloads[1..][0]).Some? || exists i :: 0 <= i < |payloads| - 1 && parse(payloads[1..][i]).None?;
          None
        case Some(vs) => Some([v] + vs)
  }

  /** What goes wrong in `postRpc`: a thrown message, or a body that is not JSON. */
  datatype RpcFailure = Thrown(message: string) | NotJson

  const JsonType := "application/json"
  const StreamType := "text/event-stream"

  /** `postRpc` after `fetch` has answered with `status`, the `content-type`
      header (absent or not) and the body text `raw`. */
  function PostRpcReply(status: int, contentType: Option<string>, raw: string,
                        parse: string -> Option<Json>): (r: Result<Json, RpcFailure>)
    ensures !(200 <= status <= 299) ==> r == Failure(Thrown("HTTP " + IntToString(status) + " from /mcp"))
    ensures 200 <= status <= 299 && Contains(contentType.GetOr(""), JsonType) ==>
      r == (match parse(raw) case Some(v) => Success(v) case None => Failure(NotJson))
    ensures 200 <= status <= 299 && !Contains(contentType.GetOr(""), JsonType)
            && Contains(contentType.GetOr(""), StreamType) ==>
      match ParseAll(DataLines(raw), parse)
      case Some(vs) => r == Success(Unwrap(vs))
      case None => r == Failure(NotJson)
    ensures 200 <= status <= 299 && !Contains(contentType.GetOr(""), JsonType)
            && !Contains(contentType.GetOr(""), StreamType) ==>
      r == Failure(Thrown("Unexpected content-type: " + contentType.GetOr("")))
  {
    if !(200 <= status <= 299) then Failure(Thrown("HTTP " + IntToString(status) + " from /mcp"))
    else
      var ct := contentType.GetOr("");
      if Contains(ct, JsonType) then
        match parse(raw)
        case Some(v) => Success(v)
        case None => Failure(NotJson)
      else if Contains(ct, StreamType) then
        match ParseAll(DataLines(raw), parse)
        case Some(vs) => Success(Unwrap(vs))
        case None => Failure(NotJson)
      else Failure(Thrown("Unexpected content-type: " + ct))
  }

  /** A stream holding one event comes back as that event's JSON value, the
      same as the JSON reply holding it would. */
  lemma SingleEventReply(status: int, p: string, parse: string -> Option<Json>)
    requires 200 <= status <= 299 && WellFormedPayload(p) && parse(p).Some?
    ensures PostRpcReply(status, Some(StreamType), EventStream([p]), parse) == Success(parse(p).value)
    ensures PostRpcReply(status, Some(JsonType), p, parse) == Success(parse(p).value)
  {
    var raw := EventStream([p]);
    assert ParseAll(DataLines(raw), parse) == Some([parse(p).value]) by {
      DataLinesOfEventStream([p]);
      assert [p][1..] == [];
      assert ParseAll([p][1..], parse) == Some([]);
      assert [parse(p).value] + [] == [parse(p).value];
    }
    assert Unwrap([parse(p).value]) == parse(p).value;
    assert !Contains(StreamType, JsonType) && Contains(StreamType, StreamType) && Contains(JsonType, JsonType) by {
      ContentTypesDistinct();
    }
  }

  /** Each content type contains itself, and the stream type does not
      contain the JSON type. */
  lemma ContentTypesDistinct()
    ensures !Contains(StreamType, JsonType)
    ensures Contains(StreamType, StreamType) && Contains(JsonType, JsonType)
  {
    assert !Contains(StreamType, JsonType) by {
      assert StreamType[..16][0] != JsonType[0];
      assert StreamType[1..][..16][0] != JsonType[0];
      assert StreamType[1..][1..] == StreamType[2..];
      NotContainedInShorter(StreamType[2..], JsonType);
    }
    ContainsItself(StreamType);
    ContainsItself(JsonType);
  }

  lemma ContainsItself(s: string)
    ensures Contains(s, s)
  {
    assert s[..|s|] == s;
  }

  /** A string cannot contain a longer one. */
  lemma {:induction false} NotContainedInShorter(s: string, sub: string)
    requires |s| < |sub|
    ensures !Contains(s, sub)
  {
    if |s| > 0 {
      NotContainedInShorter(s[1..], sub);
    }
  }

  // ---------------------------------------------------------------------------
  // assertCalculateResult
  // ---------------------------------------------------------------------------

  /** `v?.key`: absent unless `v` is an object holding `key`. */
  function Field(v: Option<Json>, key: string): Option<Json> {
    if v.Some? && v.value.JObject? && key in v.value.fields then Some(v.value.fields[key]) else None
  }

  /** `v?.[i]`: the element of an array long enough, the member of an object
      named by the decimal digits of `i`, the one-character string at `i` of a
      string long enough; absent otherwise. */
  function Index(v: Option<Json>, i: nat): Option<Json> {
    if v.None? then None
    else
      match v.value
      case JArray(items) => if i < |items| then Some(items[i]) else None
      case JObject(fields) => if Decimal(i) in fields then Some(fields[Decimal(i)]) else None
      case JString(t) => if i < |t| then Some(JString([t[i]])) else None
      case _ => None
  }

  /** JavaScript truthiness of a possibly absent JSON value (NaN aside). */
  predicate Truthy(v: Option<Json>) {
    match v
    case None => false
    case Some(JNull) => false
    case Some(JBool(b)) => b
    case Some(JNumber(n)) => n != 0.0
    case Some(JString(s)) => s != ""
    case Some(JArray(_)) => true
    case Some(JObject(_)) => true
  }

  /** `rpcResponse?.result?.content?.[0]?.text`. */
  function ResultText(resp: Json): Option<Json> {
    Field(Index(Field(Field(Some(resp), "result"), "content"), 0), "text")
  }

  datatype CheckFailure = RpcErrorReported | UnexpectedToolResult

  const ExpectedSum := "= 11"

  /** The smoke test's check on the reply to `8 add 3`. */
  function AssertCalculateResult(resp: Json): (o: Outcome<CheckFailure>)
    ensures o.Pass? <==>
      !Truthy(Field(Some(resp), "error"))
      && ResultText(resp).Some? && ResultText(resp).value.JString?
      && Contains(ResultText(resp).value.s, ExpectedSum)
    ensures o == Fail(RpcErrorReported) <==> Truthy(Field(Some(resp), "error"))
  {
    if Truthy(Field(Some(resp), "error")) then Fail(RpcErrorReported)
    else
      var text := ResultText(resp);
      if !(text.Some? && text.value.JString? && Contains(text.value.s, ExpectedSum)) then
        Fail(UnexpectedToolResult)
      else Pass
  }

  /** The JSON-RPC success envelope a `tools/call` reply comes in, holding a
      calculator result's text content. */
  function CallResultJson(id: string, r: McpServer.CalculateResult): Json {
    JObject(map[
      "jsonrpc" := JString("2.0"),
      "id" := JString(id),
      "result" := JObject(map[
        "content" := JArray(seq(|r.content|, i requires 0 <= i < |r.content| =>
          JObject(map["type" := JString("text"), "text" := JString(r.content[i].text)])))])])
  }

  /** End to end: the calculator's reply to 8 add 3 at the default precision
      passes the smoke check whenever 11 rounds to itself and renders as "11". */
  lemma SmokeCheckPasses(show: real -> string, roundTo: (real, int) -> real)
    requires roundTo(11.0, McpServer.DefaultPrecision) == 11.0 && show(11.0) == "11"
    ensures var r := McpServer.CalculateTool(8.0, 3.0, McpServer.Add, None, show, roundTo);
      r.Success? && AssertCalculateResult(CallResultJson("call-1", r.value)) == Pass
  {
    McpServer.SmokeCalculation(show, roundTo);
    var r := McpServer.CalculateTool(8.0, 3.0, McpServer.Add, None, show, roundTo).value;
    var resp := CallResultJson("call-1", r);
    assert ResultText(resp) == Some(JString(r.content[0].text));
  }

  /** `content?.[0]` also reads the member "0" of an object, so a content
      object keyed "0" passes the check like a content array. */
  lemma ObjectContentPasses()
    ensures var item := JObject(map["text" := JString("8 + 3 = 11")]);
      && AssertCalculateResult(JObject(map["result" := JObject(map["content" := JObject(map["0" := item])])])) == Pass
      && AssertCalculateResult(JObject(map["result" := JObject(map["content" := JArray([item])])])) == Pass
  {
    assert Decimal(0) == "0";
    ContainsInfix("8 + 3 ", ExpectedSum, "");
    assert "8 + 3 " + ExpectedSum + "" == "8 + 3 = 11";
  }

  /** A reply carrying an `error` object fails the check, whatever its result. */
  lemma ErrorReplyFails(resp: map<string, Json>)
    requires "error" in resp && resp["error"].JObject?
    ensures AssertCalculateResult(JObject(resp)) == Fail(RpcErrorReported)
  {
  }
}
