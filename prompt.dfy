/** The prompt builder of the riddle relay: the fixed instruction template into which
    the client's theme is spliced (backend/server.js:38-50) and `buildPayload`, which
    wraps that instruction in the request body of the generation API (backend/server.js:21-29). */
module Prompt {
  import opened Wrappers

  /** Everything of the template literal before the theme: it opens with a newline,
      and its last characters are `Theme: "`. */
  const InstructionHead: string :=
    "\nCreate a fun and tricky riddle in English.\nTheme: \""

  /** Everything of the template literal after the theme, from the closing quote of the
      `Theme:` line to the newline before the closing backtick. */
  const InstructionTail: string :=
    "\"\nRequirements:\n"
    + "1. Always generate a new and unique riddle, even if the same theme is repeated multiple times.\n"
    + "2. Vary the style, phrasing, and perspective each time.\n"
    + "3. Output must be in JSON format with exactly two fields:\n"
    + "{\n"
    + "  \"riddle\": \"...\",\n"
    + "  \"answer\": \"...\"\n"
    + "}\n"
    + "4. Keep it short, engaging, and suitable for all ages.\n"

  const ThemeLabel: string := "Theme: \""

  /** `instr` holds `theme` verbatim at index `k`, immediately after `Theme: "` and
      immediately before a closing `"`. */
  predicate QuotesThemeAt(instr: string, k: int, theme: string)
  {
    && |ThemeLabel| <= k
    && k + |theme| < |instr|
    && instr[k - |ThemeLabel|..k] == ThemeLabel
    && instr[k..k + |theme|] == theme
    && instr[k + |theme|] == '"'
  }

  /** The instruction text sent upstream. The theme is embedded without any escaping:
      quotes, newlines or braces in it go into the instruction as they are. */
  function Instruction(theme: string): (instr: string)
    ensures |instr| == |InstructionHead| + |theme| + |InstructionTail|
    ensures InstructionHead <= instr
    ensures instr[|instr| - |InstructionTail|..] == InstructionTail
    ensures QuotesThemeAt(instr, |InstructionHead|, theme)
  {
    var instr := InstructionHead + theme + InstructionTail;
    assert instr[|InstructionHead|..|InstructionHead| + |theme|] == theme;
    assert instr[|InstructionHead| + |theme|] == InstructionTail[0];
    instr
  }

  /** Reads the theme back out of an instruction text: the partner of `Instruction`. */
  function ThemeOf(instr: string): (theme: Option<string>)
    ensures theme.Some? ==> |instr| == |InstructionHead| + |theme.value| + |InstructionTail|
  {
    if |InstructionHead| + |InstructionTail| <= |instr|
       && InstructionHead <= instr
       && instr[|instr| - |InstructionTail|..] == InstructionTail
    then Some(instr[|InstructionHead|..|instr| - |InstructionTail|])
    else None
  }

  /** The theme can always be recovered from the instruction, so two different themes
      never produce the same instruction. */
  lemma ThemeRoundTrip(theme: string)
    ensures ThemeOf(Instruction(theme)) == Some(theme)
  {
    var instr := Instruction(theme);
    assert instr[|InstructionHead|..|instr| - |InstructionTail|] == theme;
  }

  lemma InstructionInjective(t1: string, t2: string)
    requires Instruction(t1) == Instruction(t2)
    ensures t1 == t2
  {
    ThemeRoundTrip(t1);
    ThemeRoundTrip(t2);
  }

  /** One text part of a content entry: `{ text: ... }`. */
  datatype Part = Part(text: string)

  /** One entry of `contents`: `{ parts: [...] }`. */
  datatype Content = Content(parts: seq<Part>)

  /** `generationConfig`. The temperature is a JavaScript number literal in the source; it
      is recorded here as the exact rational 0.8 and plays no part in any property. */
  datatype GenerationConfig = GenerationConfig(temperature: real, maxOutputTokens: nat)

  /** The request body posted to the generation endpoint. */
  datatype Payload = Payload(contents: seq<Content>, generationConfig: GenerationConfig)

  const Temperature: real := 0.8
  const MaxOutputTokens: nat := 300

  /** The single text of a payload that has exactly one content entry with exactly one
      part; `None` for any other shape. */
  function SingleText(p: Payload): (text: Option<string>)
    ensures text.Some? <==> |p.contents| == 1 && |p.contents[0].parts| == 1
  {
    if |p.contents| == 1 && |p.contents[0].parts| == 1
    then Some(p.contents[0].parts[0].text)
    else None
  }

  /** `buildPayload`: the prompt becomes the one text part of the one content entry,
      and the generation settings are the same whatever the prompt. */
  function BuildPayload(prompt: string): (p: Payload)
    ensures SingleText(p) == Some(prompt)
    ensures p.generationConfig.maxOutputTokens == 300
    ensures p.generationConfig.temperature == 0.8
  {
    Payload([Content([Part(prompt)])], GenerationConfig(Temperature, MaxOutputTokens))
  }

  /** Two payloads built from different prompts differ only in the prompt text: the
      generation settings never depend on the input. */
  lemma PayloadSettingsFixed(p1: string, p2: string)
    ensures BuildPayload(p1).generationConfig == BuildPayload(p2).generationConfig
    ensures BuildPayload(p1) == BuildPayload(p2) <==> p1 == p2
  {
    if BuildPayload(p1) == BuildPayload(p2) {
      assert SingleText(BuildPayload(p1)) == Some(p1);
    }
  }
}
