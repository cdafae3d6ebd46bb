# Riddle relay: request pipeline model

The backend of the riddle generator takes a theme from the client, splices it into a fixed
instruction, posts that instruction to a generative-language API, and turns the model's
free-form reply into the JSON object it sends back. This project models that pipeline, the
body of the `POST /generate-riddle` handler in `backend/server.js`, as pure Dafny functions:

- `Prompt` (`prompt.dfy`): the instruction template and `buildPayload`.
- `Fences` (`fences.dfy`): the global removal of ```` ```json ```` / ```` ``` ```` fence markers.
- `JsTrim` (`trim.dfy`): `String.prototype.trim` with the ECMAScript white-space set.
- `BraceMatch` (`brace_span.dfy`): the fallback search `/\{[\s\S]*\}/`, first `{` to last `}`.
- `RiddleHandler` (`handler.dfy`): validation, cleaning, strict parse, fallback, the five
  outcomes (`BadRequest`, `NoContent`, `BadFormat(raw)`, `Ok(value)`, `Internal(detail)`)
  and the status and body each one is sent with.
- `Wrappers` (`wrappers.dfy`): the `Option` type.

The two foreign calls are parameters. The generation API is a function from the request
payload to an `Upstream<D>`: either a thrown error with an opaque detail, or a reply whose
text is absent or a string. `JSON.parse` is a function `string -> Option<V>`, where `None`
means it threw. Neither is given a definition. So every property below holds for every
upstream behaviour and for every parser.

Three points about the code that the model keeps as written:
- `res.json(riddleData)` sends whatever the parse yields. The code never checks that `riddle`
  or `answer` exist or are non-empty (`OkIsWhateverParses`).
- A reply without braces is a format error only when the cleaned text also fails the strict
  parse. A bare JSON number or string is sent back with 200 (`NoBraceIsFormatError`).
- `!prompt` also rejects the empty string, along with missing and non-string prompts
  (`AcceptedTheme`).

The fence markers are removed wherever they occur, inside JSON string values too. That is
the behaviour of the global replacement, and the model keeps it.

## Model

| member | source | states |
|---|---|---|
| `Prompt.Instruction` | backend/server.js:38-50 | the instruction is the fixed head, then the theme verbatim between `Theme: "` and a closing `"`, then the fixed tail; its length is the sum of the three |
| `Prompt.ThemeRoundTrip` | backend/server.js:38-50 | the theme can be read back out of the instruction unchanged |
| `Prompt.InstructionInjective` | backend/server.js:38-50 | different themes give different instructions |
| `Prompt.BuildPayload` | backend/server.js:21-29 | the payload has exactly one content entry with exactly one part, whose text is the prompt; `maxOutputTokens` is 300 and the temperature 0.8 |
| `Prompt.PayloadSettingsFixed` | backend/server.js:21-29 | the generation settings are the same for every prompt, and two payloads are equal exactly when their prompts are |
| `Fences.StripFences` | backend/server.js:70 | the replacement never lengthens the text |
| `Fences.FencePrefix` | backend/server.js:70 | the character tests used by the scan are exactly "the text starts with ```` ``` ````" and "the text starts with ```` ```json ````" |
| `Fences.StripKeepsHead` | backend/server.js:70 | where no marker starts at the front, the first character is kept and the scan continues after it |
| `Fences.StripIsSubsequence` | backend/server.js:70 | the replacement only deletes: the result is the input's characters in their order |
| `Fences.StripFenceFreeIdentity` | backend/server.js:70 | a text without three consecutive backticks is returned unchanged |
| `Fences.StripNoBacktickIdentity` | backend/server.js:70 | a text without any backtick is returned unchanged |
| `Fences.StripLeavesNoFence` | backend/server.js:70 | the result never contains three consecutive backticks |
| `Fences.StripIdempotent` | backend/server.js:70 | applying the replacement twice is applying it once |
| `Fences.StripAfterChar` | backend/server.js:70 | a leading character other than a backtick is kept and the rest is cleaned |
| `Fences.StripAfterPlainText` | backend/server.js:70 | backtick-free text in front is kept as it is and only the rest is cleaned |
| `JsTrim.FirstNonWhitespace` | backend/server.js:70 | the index of the first character from a start index on that is not white space, with only white space before it |
| `JsTrim.ContentEnd` | backend/server.js:70 | the index just past the last character that is not white space, with only white space after it |
| `JsTrim.Trim` | backend/server.js:70 | the result is no longer than the input and neither starts nor ends with white space |
| `JsTrim.TrimSlice` | backend/server.js:70 | the trimmed text is a slice of the input with only white space before it and after it |
| `JsTrim.TrimUnique` | backend/server.js:70 | any slice with only white space around it and none at its ends is the trimmed text |
| `JsTrim.TrimIdempotent` | backend/server.js:70 | trimming twice is trimming once |
| `BraceMatch.FirstIndex` | backend/server.js:80 | the index of the first occurrence of a character, or none when it does not occur |
| `BraceMatch.LastIndex` | backend/server.js:80 | the index of the last occurrence of a character, or none when it does not occur |
| `BraceMatch.MatchBounds` | backend/server.js:80 | the bounds of the leftmost, then longest, span that starts with `{` and ends with a later `}`; none when no `}` follows a `{` |
| `BraceMatch.BraceSpan` | backend/server.js:80 | a match exists exactly when some `}` comes after some `{`; it starts with `{`, ends with `}`, and is the leftmost-greedy slice of the original text |
| `BraceMatch.SpanIsOutermost` | backend/server.js:80 | there is no `{` before the matched span and no `}` after it |
| `RiddleHandler.AcceptedTheme` | backend/server.js:35-37 | a prompt is accepted exactly when it is a non-empty string, and the accepted theme is that string |
| `RiddleHandler.Clean` | backend/server.js:70 | the cleaned text has no fence marker, is the reply with characters deleted, and has no white space at either end |
| `RiddleHandler.CleanKeepsOnlyText` | backend/server.js:70 | fence removal followed by trimming leaves no fence marker and only deletes characters |
| `RiddleHandler.Normalise` | backend/server.js:64-92 | "no content" exactly when the text is absent or empty; a format error carries the original text; never a validation or internal error |
| `RiddleHandler.Handle` | backend/server.js:31-101 | a 400 outcome exactly when the prompt is not accepted; an internal error carries the upstream failure's own detail; a reply to the built payload is normalised as its text dictates |
| `RiddleHandler.Respond` | backend/server.js:35-99 | status 200 exactly for a success, 400 for a rejected prompt, 502 for no content or a format error, 500 for an internal error; only a success sends the parsed value as the body |
| `RiddleHandler.RespondDistinguishes` | backend/server.js:35-99 | every outcome can be read back from its status and body by `Interpret`, the specification inverse of `Respond`, so no two branches send the same response |
| `RiddleHandler.InvalidPromptRejected` | backend/server.js:35-37 | a missing, empty or non-string prompt yields 400 "Missing or invalid prompt" whatever the upstream and the parser do |
| `RiddleHandler.OnlyBuiltPayloadIsSent` | backend/server.js:38-62 | for an accepted theme, the outcome depends only on the upstream reply to the payload built from that theme's instruction |
| `RiddleHandler.SentPayloadQuotesTheme` | backend/server.js:38-53 | the payload sent carries one text, the instruction, which quotes the theme verbatim after `Theme: `, with a 300-token cap |
| `RiddleHandler.TransportFailureIsInternal` | backend/server.js:94-100 | a thrown upstream error yields 500 "Internal server error" with its detail unchanged |
| `RiddleHandler.NoTextIsNoContent` | backend/server.js:64-67 | an absent or empty reply text yields 502 "No content returned from AI" whatever the parser does |
| `RiddleHandler.StrictParseWins` | backend/server.js:73-92 | when the cleaned text parses, its value is the 200 body unchanged, and the parser is consulted on nothing else |
| `RiddleHandler.FallbackReadsOnlySpan` | backend/server.js:76-89 | after a failed strict parse, the outcome depends only on the parse of the brace span of the original text |
| `RiddleHandler.FallbackSucceeds` | backend/server.js:79-83 | after a failed strict parse, a leftmost-greedy brace span of the original text that parses gives the success |
| `RiddleHandler.FormatErrorCarriesRaw` | backend/server.js:84-89 | with no brace span, or one that does not parse, the outcome is 502 "Invalid response format from AI" with `raw` equal to the original text |
| `RiddleHandler.OkIsWhateverParses` | backend/server.js:73-92 | a success happens exactly when the cleaned text or the brace span parses, whatever the parsed value is |
| `RiddleHandler.FencesAroundBodyRemoved` | backend/server.js:70 | removing the markers from any backtick-free body fenced as ```` ```json ```` leaves the body between two newlines |
| `RiddleHandler.TrimAroundBody` | backend/server.js:70 | trimming a body between two newlines, when the body neither starts nor ends with white space, leaves the body |
| `RiddleHandler.FencedReplyIsUnwrapped` | backend/server.js:69-76 | any backtick-free body without white space at its ends, wrapped in a json fence, cleans to the body, and when the body parses its value is the success |
| `RiddleHandler.FencedRiddleIsUnwrapped` | backend/server.js:69-76 | the riddle object in a json fence succeeds with the object's parse |
| `RiddleHandler.ProseBeforeObjectFallsBack` | backend/server.js:79-83 | prose without `{` in front of an object: the span is exactly the object, and the object's parse is the success |
| `RiddleHandler.NoBraceIsFormatError` | backend/server.js:80-89 | a reply with no `{` has no span, and unless its cleaned text parses it is a format error carrying the reply |

## Left out

- The HTTP call to the generation endpoint, its URL, headers, API key and 30-second timeout (backend/server.js:54-62). This is network I/O. Only its result is modelled, as the `Upstream` input.
- The internals of `JSON.parse`. It is a foreign call, modelled as an arbitrary parser parameter.
- Environment loading, the fail-fast exit when the API key is missing, Express and CORS setup, JSON body parsing and `app.listen` (backend/server.js:1-19, 103-105). These are process and framework plumbing.
- `console.error` logging (backend/server.js:77, 95). It has no effect on the response.
- The contents of `error.response?.data || error.message`. The 500 detail is an opaque value passed through from the failure.
- A reply text that is present but not a string. In the code, `.replace` would throw and give a 500; the model takes the text to be a string or absent.
- A request body that is not a JSON object. The prompt field is modelled as missing, a string, or some other JSON value.
- The temperature is recorded as the exact rational 0.8 rather than a binary floating-point number.
- JavaScript strings are UTF-16 code units, while Dafny characters are Unicode scalar values. Lone surrogates are not modelled.
- frontend/src/App.jsx is not part of this model. It is presentation and an asynchronous fetch.
