/** src/mcpServer.ts: the logic of the stateless learning server's `calculate`
    tool, its `topic-notes` resource template and its `design-next-tool`
    prompt. JS numbers are exact reals here; `toFixed`/`parseFloat` rounding
    and number-to-string conversion are the parameters `roundTo` and `show`. */
module McpServer {
  import opened Wrappers
  import opened Text

  // ---------------------------------------------------------------------------
  // calculate
  // ---------------------------------------------------------------------------

  datatype Op = Add | Subtract | Multiply | Divide

  /** `ProtocolErrorCode.InvalidParams`, the JSON-RPC 2.0 "Invalid params" code. */
  const InvalidParams := -32602

  datatype ProtocolError = ProtocolError(code: int, message: string)

  const DivisionByZero := ProtocolError(InvalidParams, "Division by zero is not allowed.")

  /** The four-way arithmetic dispatch; dividing by zero is the one error. */
  function Calculate(a: real, b: real, op: Op): (r: Result<real, ProtocolError>)
    ensures r.Failure? <==> op == Divide && b == 0.0
    ensures r.Failure? ==> r.error == DivisionByZero
    ensures r.Success? && op == Add ==> r.value == a + b
    ensures r.Success? && op == Subtract ==> r.value == a - b
    ensures r.Success? && op == Multiply ==> r.value == a * b
    ensures r.Success? && op == Divide ==> r.value == a / b
  {
    match op
    case Add => Success(a + b)
    case Subtract => Success(a - b)
    case Multiply => Success(a * b)
    case Divide => if b == 0.0 then Failure(DivisionByZero) else Success(a / b)
  }

  /** On exact reals, subtracting undoes adding, dividing undoes multiplying
      by a non-zero number, and the reverse; the program's doubles round and
      need not satisfy these laws. */
  lemma AddSubtractInverse(a: real, b: real)
    ensures Calculate(Calculate(a, b, Add).value, b, Subtract) == Success(a)
    ensures Calculate(Calculate(a, b, Subtract).value, b, Add) == Success(a)
  {
  }

  lemma {:induction false} MultiplyDivideInverse(a: real, b: real)
    requires b != 0.0
    ensures Calculate(Calculate(a, b, Multiply).value, b, Divide) == Success(a)
    ensures Calculate(Calculate(a, b, Divide).value, b, Multiply) == Success(a)
  {
    var p := Calculate(a, b, Multiply).value;
    var q := Calculate(a, b, Divide).value;
    QuotientOfProduct(a, b, p);
    ProductOfQuotient(a, b, q);
    assert Calculate(q, b, Multiply).value == q * b;
  }

  lemma QuotientOfProduct(a: real, b: real, p: real)
    requires b != 0.0 && p == a * b
    ensures p / b == a
  {
  }

  lemma ProductOfQuotient(a: real, b: real, q: real)
    requires b != 0.0 && q == a / b
    ensures q * b == a
  {
  }

  /** The operator's symbol in the rendered expression. */
  function Symbol(op: Op): (s: string)
    ensures |s| == 1 && s != " "
  {
    match op
    case Add => "+"
    case Subtract => "-"
    case Multiply => "×"
    case Divide => "÷"
  }

  /** The operation a symbol stands for. */
  function OpOfSymbol(s: string): (op: Option<Op>)
    ensures op.Some? ==> |s| == 1
  {
    if s == "+" then Some(Add)
    else if s == "-" then Some(Subtract)
    else if s == "×" then Some(Multiply)
    else if s == "÷" then Some(Divide)
    else None
  }

  /** Each operation has its own symbol, and exactly these four strings are symbols. */
  lemma SymbolRoundTrip(op: Op, s: string)
    ensures OpOfSymbol(Symbol(op)) == Some(op)
    ensures OpOfSymbol(s) == Some(op) <==> Symbol(op) == s
  {
  }

  /** `${a} ${symbol} ${b}`. */
  function Expression(a: real, b: real, op: Op, show: real -> string): string {
    show(a) + " " + Symbol(op) + " " + show(b)
  }

  /** When the numbers render without spaces, the expression splits back on
      spaces into the two operands and the symbol. */
  lemma ExpressionWords(a: real, b: real, op: Op, show: real -> string)
    requires ' ' !in show(a) && ' ' !in show(b)
    ensures Split(Expression(a, b, op, show), ' ') == [show(a), Symbol(op), show(b)]
    ensures OpOfSymbol(Split(Expression(a, b, op, show), ' ')[1]) == Some(op)
  {
    var words := [show(a), Symbol(op), show(b)];
    assert Join(words, ' ') == Expression(a, b, op, show) by {
      JoinCons(Symbol(op), [show(b)], ' ');
      assert words == [show(a)] + [Symbol(op), show(b)];
      JoinCons(show(a), [Symbol(op), show(b)], ' ');
    }
    SplitJoin(words, ' ');
  }

  /** The precision zod applies when the caller gives none (src/types.ts). */
  const DefaultPrecision := 2

  datatype TextContent = TextContent(text: string)

  /** The structured content: `{ expression, result, precision }`. */
  datatype CalculateOutput = CalculateOutput(expression: string, result: real, precision: int)

  datatype CalculateResult = CalculateResult(content: seq<TextContent>, structuredContent: CalculateOutput)

  /** The `calculate` tool handler, after zod has checked that `precision`,
      when given, is an integer in [0, 8]. `roundTo(x, p)` stands for
      `Number.parseFloat(x.toFixed(p))` and `show` for JS number rendering. */
  function CalculateTool(a: real, b: real, op: Op, precision: Option<int>,
                         show: real -> string, roundTo: (real, int) -> real)
    : (r: Result<CalculateResult, ProtocolError>)
    requires precision.Some? ==> 0 <= precision.value <= 8
    ensures r.Failure? <==> op == Divide && b == 0.0
    ensures r.Failure? ==> r.error.code == InvalidParams
    ensures r.Success? ==>
      var out := r.value.structuredContent;
      && out.precision == precision.GetOr(DefaultPrecision)
      && 0 <= out.precision <= 8
      && out.result == roundTo(Calculate(a, b, op).value, out.precision)
      && out.expression == Expression(a, b, op, show)
      && r.value.content == [TextContent(out.expression + " = " + show(out.result))]
  {
    var p := precision.GetOr(DefaultPrecision);
    match Calculate(a, b, op)
    case Failure(e) => Failure(e)
    case Success(raw) =>
      var result := roundTo(raw, p);
      var expression := Expression(a, b, op, show);
      var output := CalculateOutput(expression, result, p);
      Success(CalculateResult([TextContent(expression + " = " + show(result))], output))
  }

  /** The text content reads back as the structured content: its words are
      the operands, the symbol, "=" and the rounded result. */
  lemma CalculateTextMatchesOutput(a: real, b: real, op: Op, precision: Option<int>,
                                   show: real -> string, roundTo: (real, int) -> real)
    requires precision.Some? ==> 0 <= precision.value <= 8
    requires CalculateTool(a, b, op, precision, show, roundTo).Success?
    requires ' ' !in show(a) && ' ' !in show(b)
    requires ' ' !in show(CalculateTool(a, b, op, precision, show, roundTo).value.structuredContent.result)
    ensures var r := CalculateTool(a, b, op, precision, show, roundTo).value;
      Split(r.content[0].text, ' ')
        == [show(a), Symbol(op), show(b), "=", show(r.structuredContent.result)]
  {
    var r := CalculateTool(a, b, op, precision, show, roundTo).value;
    var res := show(r.structuredContent.result);
    var sa, sym, sb := show(a), Symbol(op), show(b);
    var words := [sa, sym, sb, "=", res];
    assert Join(words, ' ') == r.content[0].text by {
      JoinCons("=", [res], ' ');
      assert [sb, "=", res] == [sb] + ["=", res];
      JoinCons(sb, ["=", res], ' ');
      assert [sym, sb, "=", res] == [sym] + [sb, "=", res];
      JoinCons(sym, [sb, "=", res], ' ');
      assert words == [sa] + [sym, sb, "=", res];
      JoinCons(sa, [sym, sb, "=", res], ' ');
      assert r.content[0].text == sa + " " + sym + " " + sb + " = " + res;
    }
    SplitJoin(words, ' ');
  }

  /** The smoke test's call, 8 add 3 with the default precision, yields a
      text containing "= 11" whenever 11 rounds to itself and renders as "11". */
  lemma SmokeCalculation(show: real -> string, roundTo: (real, int) -> real)
    requires roundTo(11.0, DefaultPrecision) == 11.0 && show(11.0) == "11"
    ensures var r := CalculateTool(8.0, 3.0, Add, None, show, roundTo);
      r.Success? && Contains(r.value.content[0].text, "= 11")
  {
    var r := CalculateTool(8.0, 3.0, Add, None, show, roundTo);
    var e := Expression(8.0, 3.0, Add, show);
    assert r.value.content[0].text == e + " " + "= 11" + "";
    ContainsInfix(e + " ", "= 11", "");
  }

  // ---------------------------------------------------------------------------
  // topic-notes resource template
  // ---------------------------------------------------------------------------

  const TopicPrefix := "boilerplate://topic/"
  const Markdown := "text/markdown"
  const UnknownTopicBody := "- Unknown topic. Try: transport, tools, prompts, resources."

  /** `TOPIC_NOTES`, in its key order. */
  const TopicNotes: seq<(string, string)> := [
    ("transport",
     "- Stateless mode: `sessionIdGenerator: undefined`\n- Handle each POST independently\n- Keep cleanup request-scoped"),
    ("tools",
     "- Use `registerTool` (not `.tool`)\n- Use `z.object(...)` schemas\n- Throw `ProtocolError` for protocol-facing failures"),
    ("prompts",
     "- Use `registerPrompt` with `argsSchema`\n- Keep prompts focused and reusable\n- Prefer explicit constraints in prompt args"),
    ("resources",
     "- Use `registerResource` with required metadata object\n- Use `ResourceTemplate` for parameterized URIs\n- Keep resources side-effect free")
  ]

  /** The note stored under `key` in `table`, first match. */
  function LookupIn(table: seq<(string, string)>, key: string): (note: Option<string>)
    ensures note.None? <==> forall i :: 0 <= i < |table| ==> table[i].0 != key
    ensures note.Some? ==> exists i :: 0 <= i < |table| && table[i] == (key, note.value)
  {
    if |table| == 0 then None
    else if table[0].0 == key then Some(table[0].1)
    else
      var rest := LookupIn(table[1..], key);
      assert forall i :: 1 <= i < |table| ==> table[i] == table[1..][i - 1];
      rest
  }

  /** `TOPIC_NOTES[key]` on the four-entry table. */
  function Lookup(key: string): Option<string> {
    LookupIn(TopicNotes, key)
  }

  /** The table's keys are distinct, lower-case, and every note is non-empty,
      so `TOPIC_NOTES[key] || fallback` falls back exactly for absent keys. */
  lemma TopicNotesWellFormed()
    ensures forall i, j :: 0 <= i < j < |TopicNotes| ==> TopicNotes[i].0 != TopicNotes[j].0
    ensures forall i :: 0 <= i < |TopicNotes| ==> HasNoUpper(TopicNotes[i].0) && |TopicNotes[i].0| >= 2
    ensures forall i :: 0 <= i < |TopicNotes| ==> TopicNotes[i].1 != ""
  {
  }

  /** The keyed note comes back for each entry of the table. */
  lemma LookupFindsEntry(i: int)
    requires 0 <= i < |TopicNotes|
    ensures Lookup(TopicNotes[i].0) == Some(TopicNotes[i].1)
  {
  }

  /** Outcome of `topicSchema.safeParse(args)`: the topic when it is a string
      whose `length` (in UTF-16 code units) is at least two. An absent topic
      fails the parse. */
  function SafeParseTopic(topic: Option<string>): (parsed: Option<string>)
    ensures parsed.Some? <==> topic.Some? && Utf16Length(topic.value) >= 2
    ensures parsed.Some? ==> parsed == topic
  {
    if topic.Some? && Utf16Length(topic.value) >= 2 then topic else None
  }

  /** `topicKey`: the parsed topic lower-cased, or "" when the parse fails. */
  function TopicKey(topic: Option<string>): (key: string)
    ensures key == "" <==> SafeParseTopic(topic).None?
    ensures SafeParseTopic(topic).Some? ==> key == AsciiLower(topic.value)
  {
    match SafeParseTopic(topic)
    case None => ""
    case Some(t) => AsciiLower(t)
  }

  datatype ResourceContents = ResourceContents(uri: string, mimeType: string, text: string)

  /** A note as markdown: a level-one heading, a blank line, the body. */
  function TopicText(header: string, body: string): string {
    "# " + header + "\n\n" + body
  }

  /** The heading line of a note gives its header back. */
  lemma TopicTextHeading(header: string, body: string)
    requires '\n' !in header
    ensures Split(TopicText(header, body), '\n')[0] == "# " + header
  {
    assert '\n' !in "# ";
    assert '\n' !in "# " + header;
    assert TopicText(header, body) == ("# " + header) + ("\n\n" + body);
    SplitAfterWord("# " + header, "\n\n" + body, '\n');
    assert Split("\n\n" + body, '\n')[0] == "";
    assert "# " + header + "" == "# " + header;
  }

  /** The `topic-notes` read callback: one markdown content at the requested
      URI whose header is the key (or "unknown") and whose body is the note. */
  function ReadTopic(uri: string, topic: Option<string>): (r: seq<ResourceContents>)
    ensures |r| == 1 && r[0].uri == uri && r[0].mimeType == Markdown
    ensures SafeParseTopic(topic).None? ==> r[0].text == TopicText("unknown", UnknownTopicBody)
    ensures Lookup(TopicKey(topic)).Some? ==>
      r[0].text == TopicText(TopicKey(topic), Lookup(TopicKey(topic)).value)
    ensures SafeParseTopic(topic).Some? && Lookup(TopicKey(topic)).None? ==>
      r[0].text == TopicText(TopicKey(topic), UnknownTopicBody)
  {
    var key := TopicKey(topic);
    var body := Lookup(key).GetOr(UnknownTopicBody);
    var header := if key == "" then "unknown" else key;
    [ResourceContents(uri, Markdown, TopicText(header, body))]
  }

  /** The key is matched without regard to ASCII case. */
  lemma ReadTopicIgnoresCase(uri: string, t1: string, t2: string)
    requires AsciiLower(t1) == AsciiLower(t2)
    ensures ReadTopic(uri, Some(t1)) == ReadTopic(uri, Some(t2))
  {
  }

  /** A topic too short to parse reads as "unknown". */
  lemma ReadTopicTooShort(uri: string)
    ensures ReadTopic(uri, Some("x"))[0].text == TopicText("unknown", UnknownTopicBody)
  {
  }

  /** A single character outside the Basic Multilingual Plane has length 2,
      so it parses, and reads as an unknown topic under its own name. */
  lemma ReadTopicAstral(uri: string)
    ensures SafeParseTopic(Some("\U{1F600}")) == Some("\U{1F600}")
    ensures ReadTopic(uri, Some("\U{1F600}"))[0].text == TopicText("\U{1F600}", UnknownTopicBody)
  {
    assert Utf16Length("\U{1F600}") == 2;
    assert AsciiLower("\U{1F600}") == "\U{1F600}";
    assert forall i :: 0 <= i < |TopicNotes| ==> |TopicNotes[i].0| != 1;
  }

  /** A key in capitals reads the lower-case entry. */
  lemma ReadTopicUpperCase(uri: string)
    ensures ReadTopic(uri, Some("TOOLS"))[0].text == TopicText("tools", TopicNotes[1].1)
  {
    assert SafeParseTopic(Some("TOOLS")) == Some("TOOLS") by {
      assert Utf16Length("TOOLS") >= |"TOOLS"|;
    }
    assert AsciiLower("TOOLS") == "tools" by {
      AsciiLowerChars("TOOLS");
    }
    LookupFindsEntry(1);
  }

  /** A well-formed key outside the table gets the fallback body, under its own name. */
  lemma ReadTopicUnknownKey(uri: string)
    ensures ReadTopic(uri, Some("http"))[0].text == TopicText("http", UnknownTopicBody)
  {
    assert SafeParseTopic(Some("http")) == Some("http") by {
      assert Utf16Length("http") >= |"http"|;
    }
    assert AsciiLower("http") == "http" by {
      AsciiLowerChars("http");
    }
    assert forall i :: 0 <= i < |TopicNotes| ==> |TopicNotes[i].0| != 4;
  }

  datatype ResourceEntry = ResourceEntry(uri: string, name: string, mimeType: string)

  /** `Object.keys(table).map(...)`. */
  function EntriesOf(table: seq<(string, string)>): (entries: seq<ResourceEntry>)
    ensures |entries| == |table|
    ensures forall i :: 0 <= i < |table| ==>
      entries[i] == ResourceEntry(TopicPrefix + table[i].0, table[i].0, Markdown)
  {
    if |table| == 0 then []
    else [ResourceEntry(TopicPrefix + table[0].0, table[0].0, Markdown)] + EntriesOf(table[1..])
  }

  /** The template's `list` callback: one entry per key, in table order. */
  function ListTopics(): (entries: seq<ResourceEntry>)
    ensures |entries| == 4
    ensures forall i :: 0 <= i < 4 ==>
      entries[i].name == TopicNotes[i].0 && entries[i].uri == TopicPrefix + entries[i].name
      && entries[i].uri[|TopicPrefix|..] == entries[i].name && entries[i].mimeType == Markdown
  {
    var entries := EntriesOf(TopicNotes);
    assert forall i :: 0 <= i < 4 ==> (TopicPrefix + TopicNotes[i].0)[|TopicPrefix|..] == TopicNotes[i].0;
    entries
  }

  /** Reading any listed entry by its name gives that entry's own note. */
  lemma ListThenRead(i: int)
    requires 0 <= i < |ListTopics()|
    ensures var e := ListTopics()[i];
      ReadTopic(e.uri, Some(e.name)) == [ResourceContents(e.uri, Markdown, TopicText(e.name, TopicNotes[i].1))]
  {
    var e := ListTopics()[i];
    assert e.name == TopicNotes[i].0;
    TopicNotesWellFormed();
    AsciiLowerIsLower(e.name);
    assert Utf16Length(e.name) >= 2;
    assert SafeParseTopic(Some(e.name)) == Some(e.name);
    assert TopicKey(Some(e.name)) == e.name;
    LookupFindsEntry(i);
  }

  // ---------------------------------------------------------------------------
  // design-next-tool prompt
  // ---------------------------------------------------------------------------

  /** A prompt message with its `{ type, text }` content. */
  datatype PromptMessage = PromptMessage(role: string, contentType: string, text: string)

  // The two longer texts are written as two literals each so that the
  // verifier can check, one short literal at a time, that they hold no newline.
  const DomainLead := "Design one high-value MCP tool " + "for the domain: "
  const StatelessLine := "Keep it stateless and HTTP-first."
  const ConstraintsLead := "Constraints: "
  const NoConstraints := "Constraints: none provided."
  const ReturnLine := "Return tool name, input schema, " + "output schema, and failure cases."

  /** The third line: the constraints when given and non-empty, a default otherwise. */
  function ConstraintsLine(constraints: Option<string>): (line: string)
    ensures constraints.Some? && constraints.value != "" ==> line == ConstraintsLead + constraints.value
    ensures constraints.None? || constraints.value == "" ==> line == NoConstraints
  {
    match constraints
    case Some(c) => if c != "" then ConstraintsLead + c else NoConstraints
    case None => NoConstraints
  }

  function PromptLines(domain: string, constraints: Option<string>): seq<string> {
    [DomainLead + domain + ".", StatelessLine, ConstraintsLine(constraints), ReturnLine]
  }

  /** The prompt: one user message, its four lines joined by newlines. */
  function DesignNextTool(domain: string, constraints: Option<string>): (r: seq<PromptMessage>)
    ensures |r| == 1 && r[0].role == "user" && r[0].contentType == "text"
  {
    [PromptMessage("user", "text", Join(PromptLines(domain, constraints), '\n'))]
  }

  /** None of the fixed prompt texts holds a newline. */
  lemma FixedPromptTextsHaveNoNewline()
    ensures '\n' !in DomainLead && '\n' !in StatelessLine && '\n' !in ConstraintsLead
    ensures '\n' !in NoConstraints && '\n' !in ReturnLine && '\n' !in "."
  {
    DomainLeadHasNoNewline();
    StatelessLineHasNoNewline();
    NoConstraintsHasNoNewline();
    ReturnLineHasNoNewline();
  }

  // One lemma per literal keeps each of these checks small.
  lemma DomainLeadHasNoNewline() ensures '\n' !in DomainLead {}
  lemma StatelessLineHasNoNewline() ensures '\n' !in StatelessLine {}
  lemma NoConstraintsHasNoNewline() ensures '\n' !in NoConstraints {}
  lemma ReturnLineHasNoNewline() ensures '\n' !in ReturnLine {}

  /** When the arguments hold no newline, the text splits back into the four
      lines: the domain on the first, the constraints (or their default) on
      the third. */
  lemma DesignNextToolLines(domain: string, constraints: Option<string>)
    requires '\n' !in domain
    requires constraints.Some? ==> '\n' !in constraints.value
    ensures var lines := Split(DesignNextTool(domain, constraints)[0].text, '\n');
      && |lines| == 4
      && lines[0] == DomainLead + domain + "."
      && lines[1] == StatelessLine
      && lines[2] == ConstraintsLine(constraints)
      && lines[3] == ReturnLine
  {
    var lines := PromptLines(domain, constraints);
    FixedPromptTextsHaveNoNewline();
    assert '\n' !in lines[0];
    assert '\n' !in lines[2];
    SplitJoin(lines, '\n');
  }

  /** An absent and an empty `constraints` give the same prompt, the same as
      the literal default text would. */
  lemma ConstraintsDefault(domain: string)
    ensures DesignNextTool(domain, None) == DesignNextTool(domain, Some(""))
    ensures DesignNextTool(domain, None) == DesignNextTool(domain, Some("none provided."))
  {
    assert ConstraintsLead + "none provided." == NoConstraints;
  }
}
