/** The body of the `POST /generate-riddle` handler (backend/server.js:31-101) with its
    two foreign calls turned into parameters: the generation API is a function from the
    request payload to its reply, and `JSON.parse` is a function that either yields a
    value or fails. The handler itself is pure: one pass of validation, prompt building,
    cleaning, parsing and fallback, ending in a tagged outcome. */
module RiddleHandler {
  import opened Wrappers
  import opened Prompt
  import opened Fences
  import opened JsTrim
  import opened BraceMatch

  /** The `prompt` property of the parsed request body: absent (`undefined`), a string,
      or a JSON value of some other type (number, boolean, null, array, object). */
  datatype PromptField = Missing | Str(s: string) | NonString

  /** What the generation API call produced: a thrown error (network failure, timeout,
      non-2xx status) carrying its detail, or a response whose
      `candidates[0].content.parts[0].text` is either absent or a string. */
  datatype Upstream<D> = TransportFailure(detail: D) | Reply(text: Option<string>)

  /** The five ways a request can end. */
  datatype Outcome<V, D> =
    | BadRequest
    | NoContent
    | BadFormat(raw: string)
    | Ok(value: V)
    | Internal(detail: D)

  /** The JSON bodies the handler sends. */
  datatype Body<V, D> =
    | ErrorBody(error: string)
    | ErrorRawBody(error: string, raw: string)
    | ErrorDetailBody(error: string, detail: D)
    | ValueBody(value: V)

  datatype Response<V, D> = Response(status: nat, body: Body<V, D>)

  const InvalidPromptMessage: string := "Missing or invalid prompt"
  const NoContentMessage: string := "No content returned from AI"
  const InvalidFormatMessage: string := "Invalid response format from AI"
  const InternalErrorMessage: string := "Internal server error"

  /** `!prompt || typeof prompt !== 'string'` rejects everything but a string, and of the
      strings only the empty one is falsy. */
  function AcceptedTheme(f: PromptField): (theme: Option<string>)
    ensures theme.Some? <==> f.Str? && f.s != ""
    ensures theme.Some? ==> theme.value == f.s
  {
    match f
    case Str(s) => if s == "" then None else Some(s)
    case _ => None
  }

  /** `text.replace(/```json|```/g, "").trim()`: the text handed to the strict parse. It
      holds no fence marker, and it is the original text with characters deleted. */
  function Clean(text: string): (cleaned: string)
    ensures FenceFree(cleaned)
    ensures IsSubsequence(cleaned, text)
    ensures |cleaned| > 0 ==> !IsWhitespace(cleaned[0]) && !IsWhitespace(cleaned[|cleaned| - 1])
  {
    CleanKeepsOnlyText(text);
    Trim(StripFences(text))
  }

  lemma CleanKeepsOnlyText(text: string)
    ensures FenceFree(Trim(StripFences(text)))
    ensures IsSubsequence(Trim(StripFences(text)), text)
  {
    StripLeavesNoFence(text);
    StripIsSubsequence(text);
    TrimKeepsFenceFree(StripFences(text));
    TrimKeepsSubsequence(StripFences(text), text);
  }

  /** Trimming keeps a slice, so it loses no property that slices inherit. */
  lemma TrimKeepsFenceFree(s: string)
    requires FenceFree(s)
    ensures FenceFree(Trim(s))
  {
    var i := TrimSlice(s);
    SliceFenceFree(s, i, i + |Trim(s)|);
  }

  lemma TrimKeepsSubsequence(s: string, original: string)
    requires IsSubsequence(s, original)
    ensures IsSubsequence(Trim(s), original)
  {
    var i := TrimSlice(s);
    var r := Trim(s);
    SubsequenceSlice(s, original, i, i + |r|);
    assert s[i..i + |r|] == r;
  }

  /** Everything after the upstream call succeeded (backend/server.js:64-92): the
      no-content check, the strict parse of the cleaned text, the fallback parse of the
      brace span of the ORIGINAL text, and the format error carrying that original text. */
  function Normalise<V, D>(text: Option<string>, parse: string -> Option<V>): (o: Outcome<V, D>)
    ensures o.NoContent? <==> text.None? || text.value == ""
    ensures o.BadFormat? ==> text == Some(o.raw)
    ensures !o.BadRequest? && !o.Internal?
  {
    match text
    case None => NoContent
    case Some(t) =>
      if t == "" then NoContent
      else match parse(Clean(t))
        case Some(v) => Ok(v)
        case None =>
          match BraceSpan(t)
          case None => BadFormat(t)
          case Some(candidate) =>
            match parse(candidate)
            case Some(v) => Ok(v)
            case None => BadFormat(t)
  }

  /** The whole handler: validation, the instruction and payload, the upstream call
      (whose thrown errors become `Internal`), and normalisation of its reply. */
  function Handle<V, D>(f: PromptField, upstream: Payload -> Upstream<D>,
                        parse: string -> Option<V>): (o: Outcome<V, D>)
    ensures o.BadRequest? <==> AcceptedTheme(f).None?
    ensures o.Internal? ==> upstream(BuildPayload(Instruction(f.s))) == TransportFailure(o.detail)
    ensures AcceptedTheme(f).Some? && upstream(BuildPayload(Instruction(f.s))).Reply? ==>
              o == Normalise(upstream(BuildPayload(Instruction(f.s))).text, parse)
  {
    match AcceptedTheme(f)
    case None => BadRequest
    case Some(theme) =>
      match upstream(BuildPayload(Instruction(theme)))
      case TransportFailure(d) => Internal(d)
      case Reply(text) => Normalise(text, parse)
  }

  /** The `res.status(...).json(...)` call of each branch; `res.json` alone means 200. */
  function Respond<V, D>(o: Outcome<V, D>): (r: Response<V, D>)
    ensures r.status == 200 <==> o.Ok?
    ensures r.status == 400 <==> o.BadRequest?
    ensures r.status == 502 <==> o.NoContent? || o.BadFormat?
    ensures r.status == 500 <==> o.Internal?
    ensures r.body.ValueBody? <==> o.Ok?
  {
    match o
    case BadRequest => Response(400, ErrorBody(InvalidPromptMessage))
    case NoContent => Response(502, ErrorBody(NoContentMessage))
    case BadFormat(raw) => Response(502, ErrorRawBody(InvalidFormatMessage, raw))
    case Ok(v) => Response(200, ValueBody(v))
    case Internal(d) => Response(500, ErrorDetailBody(InternalErrorMessage, d))
  }

  /** Reads the outcome back from a response, as a client would: the partner of `Respond`. */
  function Interpret<V, D>(r: Response<V, D>): (o: Option<Outcome<V, D>>)
    ensures o.Some? && o.value.Ok? ==> r.body == ValueBody(o.value.value)
  {
    match r
    case Response(400, ErrorBody(e)) => if e == InvalidPromptMessage then Some(BadRequest) else None
    case Response(502, ErrorBody(e)) => if e == NoContentMessage then Some(NoContent) else None
    case Response(502, ErrorRawBody(e, raw)) => if e == InvalidFormatMessage then Some(BadFormat(raw)) else None
    case Response(200, ValueBody(v)) => Some(Ok(v))
    case Response(500, ErrorDetailBody(e, d)) => if e == InternalErrorMessage then Some(Internal(d)) else None
    case _ => None
  }

  /** Every outcome is told apart by its status and body: no two branches send the same
      response. */
  lemma RespondDistinguishes<V, D>(o: Outcome<V, D>)
    ensures Interpret(Respond(o)) == Some(o)
  {
  }

  // ---------------------------------------------------------------- validation

  /** A missing, empty or non-string prompt ends in the 400 response whatever the
      upstream would have answered: no payload is sent and nothing is parsed. */
  lemma InvalidPromptRejected<V, D>(f: PromptField, upstream: Payload -> Upstream<D>,
                                    parse: string -> Option<V>)
    requires f.Missing? || f.NonString? || f == Str("")
    ensures Handle(f, upstream, parse) == BadRequest
    ensures Respond(Handle(f, upstream, parse)) == Response(400, ErrorBody("Missing or invalid prompt"))
  {
  }

  /** For an accepted theme, the only upstream reply that matters is the one to the
      payload built from that theme's instruction. */
  lemma OnlyBuiltPayloadIsSent<V, D>(theme: string, u1: Payload -> Upstream<D>,
                                     u2: Payload -> Upstream<D>, parse: string -> Option<V>)
    requires theme != ""
    requires u1(BuildPayload(Instruction(theme))) == u2(BuildPayload(Instruction(theme)))
    ensures Handle(Str(theme), u1, parse) == Handle(Str(theme), u2, parse)
    ensures !Handle(Str(theme), u1, parse).BadRequest?
  {
  }

  /** The payload sent for an accepted theme carries one text: the instruction, which
      quotes the theme verbatim after `Theme: `. */
  lemma SentPayloadQuotesTheme(theme: string)
    ensures var p := BuildPayload(Instruction(theme));
            && SingleText(p).Some?
            && QuotesThemeAt(SingleText(p).value, |InstructionHead|, theme)
            && p.generationConfig.maxOutputTokens == 300
  {
  }

  /** A thrown upstream error ends in the 500 response carrying its detail unchanged. */
  lemma TransportFailureIsInternal<V, D>(theme: string, upstream: Payload -> Upstream<D>,
                                         parse: string -> Option<V>, d: D)
    requires theme != ""
    requires upstream(BuildPayload(Instruction(theme))) == TransportFailure(d)
    ensures Handle(Str(theme), upstream, parse) == Internal(d)
    ensures Respond(Handle(Str(theme), upstream, parse))
            == Response(500, ErrorDetailBody("Internal server error", d))
  {
  }

  // ---------------------------------------------------------------- normalisation

  /** An absent or empty text ends in the "no content" 502, whatever the parser does:
      no parse is attempted. */
  lemma NoTextIsNoContent<V, D>(text: Option<string>, p1: string -> Option<V>,
                                p2: string -> Option<V>)
    requires text.None? || text == Some("")
    ensures Normalise<V, D>(text, p1) == Normalise<V, D>(text, p2) == NoContent
    ensures Respond(Normalise<V, D>(text, p1)) == Response(502, ErrorBody("No content returned from AI"))
  {
  }

  /** When the cleaned text parses, its value is the response body unchanged, and what
      the parser would make of any other string is never consulted. */
  lemma StrictParseWins<V, D>(text: string, p1: string -> Option<V>,
                              p2: string -> Option<V>, v: V)
    requires text != ""
    requires p1(Clean(text)) == Some(v) && p2(Clean(text)) == Some(v)
    ensures Normalise<V, D>(Some(text), p1) == Normalise<V, D>(Some(text), p2) == Ok(v)
    ensures Respond(Normalise<V, D>(Some(text), p1)) == Response(200, ValueBody(v))
  {
  }

  /** When the cleaned text does not parse, the outcome depends only on the brace span of
      the original text: parsers that agree on that span (and both fail on the cleaned
      text) give the same outcome. */
  lemma FallbackReadsOnlySpan<V, D>(text: string, p1: string -> Option<V>,
                                    p2: string -> Option<V>)
    requires text != ""
    requires p1(Clean(text)).None? && p2(Clean(text)).None?
    requires BraceSpan(text).Some? ==> p1(BraceSpan(text).value) == p2(BraceSpan(text).value)
    ensures Normalise<V, D>(Some(text), p1) == Normalise<V, D>(Some(text), p2)
  {
  }

  /** The fallback succeeds exactly when the original text has a `}` after its first `{`
      and the greedy span between them parses; its value is then the response body. */
  lemma FallbackSucceeds<V, D>(text: string, parse: string -> Option<V>, v: V)
    requires text != "" && parse(Clean(text)).None?
    requires exists i, j :: LeftmostGreedy(text, i, j) && parse(text[i..j]) == Some(v)
    ensures Normalise<V, D>(Some(text), parse) == Ok(v)
  {
    var i, j :| LeftmostGreedy(text, i, j) && parse(text[i..j]) == Some(v);
    var i', j' :| LeftmostGreedy(text, i', j') && BraceSpan(text).value == text[i'..j'];
    assert i == i' && j == j';
  }

  /** Text that neither parses once cleaned nor has a parsable brace span ends in the
      format-error 502, which carries the original text, fences and all. */
  lemma FormatErrorCarriesRaw<V, D>(text: string, parse: string -> Option<V>)
    requires text != "" && parse(Clean(text)).None?
    requires BraceSpan(text).None? || parse(BraceSpan(text).value).None?
    ensures Normalise<V, D>(Some(text), parse) == BadFormat(text)
    ensures Respond(Normalise<V, D>(Some(text), parse))
            == Response(502, ErrorRawBody("Invalid response format from AI", text))
  {
  }

  /** A success does not mean a riddle: whatever the parse yields, including a value
      without `riddle` or `answer` fields, is sent back as it is. */
  lemma OkIsWhateverParses<V, D>(text: string, parse: string -> Option<V>)
    requires text != ""
    ensures Normalise<V, D>(Some(text), parse).Ok? <==>
              || parse(Clean(text)).Some?
              || (BraceSpan(text).Some? && parse(BraceSpan(text).value).Some?)
  {
  }

  // ---------------------------------------------------------------- replies seen in practice

  const BareRiddle: string := "{\"riddle\":\"R\",\"answer\":\"A\"}"

  /** A body without backticks whose first and last characters are not white space,
      wrapped in a ```json fence on lines of its own, cleans down to the body itself, so
      a body that parses is the response value of the strict parse. */
  lemma FencedReplyIsUnwrapped<V, D>(body: string, parse: string -> Option<V>)
    requires body != "" && NoBacktick(body)
    requires !IsWhitespace(body[0]) && !IsWhitespace(body[|body| - 1])
    ensures Clean("```json\n" + body + "\n```") == body
    ensures parse(body).Some? ==>
              Normalise<V, D>(Some("```json\n" + body + "\n```"), parse) == Ok(parse(body).value)
  {
    FencesAroundBodyRemoved(body);
    TrimAroundBody(body);
  }

  /** The typical reply: the riddle object in a ```json fence. */
  lemma FencedRiddleIsUnwrapped<V, D>(parse: string -> Option<V>, v: V)
    requires parse(BareRiddle) == Some(v)
    ensures Normalise<V, D>(Some("```json\n" + BareRiddle + "\n```"), parse) == Ok(v)
  {
    FencedReplyIsUnwrapped<V, D>(BareRiddle, parse);
  }

  lemma FencesAroundBodyRemoved(body: string)
    requires NoBacktick(body)
    ensures StripFences("```json\n" + body + "\n```") == "\n" + body + "\n"
  {
    var fenced := "```json\n" + body + "\n```";
    var inner := "\n" + body + "\n";
    assert JsonFenceAt(fenced, 0);
    assert fenced[|JsonFence|..] == inner + Fence;
    assert NoBacktick(inner) by {
      forall k | 0 <= k < |inner| ensures inner[k] != '`' {
        if 0 < k < |inner| - 1 { assert inner[k] == body[k - 1]; }
      }
    }
    StripAfterPlainText(inner, Fence);
    assert StripFences(Fence) == "" by {
      assert FenceAt(Fence, 0) && !JsonFenceAt(Fence, 0);
      assert Fence[|Fence|..] == "";
    }
    assert inner + "" == inner;
  }

  lemma TrimAroundBody(body: string)
    requires body != ""
    requires !IsWhitespace(body[0]) && !IsWhitespace(body[|body| - 1])
    ensures Trim("\n" + body + "\n") == body
  {
    var inner := "\n" + body + "\n";
    assert inner[1..|inner| - 1] == body;
    assert inner[0] == '\n' && inner[|inner| - 1] == '\n';
    assert inner[1] == body[0] && inner[|inner| - 2] == body[|body| - 1];
    TrimUnique(inner, 1, |inner| - 1);
  }

  /** A reply with prose before the object (such as "Sure! " followed by the object) fails
      the strict parse but is rescued by the fallback, which cuts out exactly the object. */
  lemma ProseBeforeObjectFallsBack<V, D>(prose: string, obj: string, parse: string -> Option<V>, v: V)
    requires forall k :: 0 <= k < |prose| ==> prose[k] != '{'
    requires |obj| >= 2 && obj[0] == '{' && obj[|obj| - 1] == '}'
    requires parse(Clean(prose + obj)).None?
    requires parse(obj) == Some(v)
    ensures BraceSpan(prose + obj) == Some(obj)
    ensures Normalise<V, D>(Some(prose + obj), parse) == Ok(v)
  {
    var text := prose + obj;
    var n := |prose|;
    assert text[n] == '{' && text[|text| - 1] == '}';
    assert text[n..|text|] == obj;
    assert forall k :: 0 <= k < n ==> text[k] == prose[k];
    assert LeftmostGreedy(text, n, |text|);
    assert BraceSpan(text).Some?;
    var i, j :| LeftmostGreedy(text, i, j) && BraceSpan(text).value == text[i..j];
    assert i == n && j == |text|;
    FallbackSucceeds<V, D>(text, parse, v);
  }

  /** A reply without any `{` has no fallback: unless the cleaned text parses on its own,
      it ends in the format error carrying the reply. */
  lemma NoBraceIsFormatError<V, D>(text: string, parse: string -> Option<V>)
    requires text != "" && parse(Clean(text)).None?
    requires forall k :: 0 <= k < |text| ==> text[k] != '{'
    ensures BraceSpan(text).None?
    ensures Normalise<V, D>(Some(text), parse) == BadFormat(text)
  {
  }
}
