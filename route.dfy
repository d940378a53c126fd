/**
 * The generation endpoint `GET /api/initial-prompt?concept=...`.
 *
 * The handler reads the `concept` query parameter, answers 400 when it is
 * missing or empty, and otherwise answers 200 with a prompt built by
 * substituting the concept into one of four fixed templates.  Any exception
 * inside the handler answers 500.  `Math.random()` is a parameter `random`
 * in [0, 1), and `NextResponse.json` is the plain value `Response`.
 */
module Route {
  import opened Common

  const MissingConceptError := "Missing required parameter: concept"
  const GenerationFailedError := "Failed to generate prompt"

  /**
   * The text of each template before the interpolated concept.  The two
   * longest are written in two pieces: the verifier does not index into a
   * single string literal of this length, and `TemplatesAreDistinguishable`
   * needs their first characters.
   */
  const Prefixes: seq<string> := [
    "Create an ambient soundscape " + "that evokes the feeling of ",
    "Compose a meditative piece inspired by ",
    "Develop an ambient composition " + "that captures the essence of ",
    "Design a sonic journey through "
  ]

  /** The text of each template after the interpolated concept. */
  const Suffixes: seq<string> := [
    ", with gentle textures and evolving harmonies that create a sense of space and tranquility.",
    ", using subtle layers of sound that gradually unfold and intertwine, creating an immersive atmosphere.",
    ", using minimal melodic elements and rich atmospheric textures to create a contemplative sonic environment.",
    ", with drifting tones and organic textures that transport the listener to an ethereal emotional landscape."
  ]

  const TemplateCount := 4

  /** The `templates` array of `generateCreativePrompt`, instantiated with `seed`. */
  function Templates(seed: string): (ts: seq<string>)
    ensures |ts| == TemplateCount
  {
    [ Prefixes[0] + seed + Suffixes[0],
      Prefixes[1] + seed + Suffixes[1],
      Prefixes[2] + seed + Suffixes[2],
      Prefixes[3] + seed + Suffixes[3] ]
  }

  /** `Math.floor(random * templates.length)`, with `random` read as an exact real. */
  function RandomIndex(random: real): (i: nat)
    requires 0.0 <= random < 1.0
    ensures i < TemplateCount
  {
    (random * (TemplateCount as real)).Floor
  }

  /** `generateCreativePrompt(seed)` for the given value of `Math.random()`. */
  function GenerateCreativePrompt(seed: string, random: real): (r: string)
    requires 0.0 <= random < 1.0
    ensures r in Templates(seed)
    ensures Contains(r, seed)
    ensures |r| > |seed|
  {
    var i := RandomIndex(random);
    ContainsMiddle(Prefixes[i], seed, Suffixes[i]);
    Templates(seed)[i]
  }

  /** Every template can be chosen: `random = i / 4` selects template `i`. */
  lemma EveryTemplateSelectable(seed: string, i: nat)
    requires i < TemplateCount
    ensures RandomIndex((i as real) / (TemplateCount as real)) == i
    ensures GenerateCreativePrompt(seed, (i as real) / (TemplateCount as real)) == Templates(seed)[i]
  {
  }

  /**
   * The inverse of template `i`: the concept that template `i` turns into
   * `prompt`, if any.
   */
  function ExtractSeed(prompt: string, i: nat): (seed: Option<string>)
    requires i < TemplateCount
  {
    var p, s := Prefixes[i], Suffixes[i];
    if |p| + |s| <= |prompt| && prompt[..|p|] == p && prompt[|prompt| - |s|..] == s
    then Some(prompt[|p|..|prompt| - |s|])
    else None
  }

  /** Cutting a known prefix and suffix off `p + seed + s` leaves `seed`. */
  lemma CutAround(p: string, seed: string, s: string)
    ensures var r := p + seed + s;
      r[..|p|] == p && r[|r| - |s|..] == s && r[|p|..|r| - |s|] == seed
  {
    var r := p + seed + s;
    assert r[..|p|] == p;
    assert r[|r| - |s|..] == s;
    assert r[|p|..|r| - |s|] == seed;
  }

  /** A text that starts with `p` and ends with `s` (not overlapping) is `p`, the middle, then `s`. */
  lemma JoinAround(text: string, p: string, s: string)
    requires |p| + |s| <= |text| && text[..|p|] == p && text[|text| - |s|..] == s
    ensures p + text[|p|..|text| - |s|] + s == text
  {
    assert text == text[..|p|] + text[|p|..|text| - |s|] + text[|text| - |s|..];
  }

  lemma ExtractSeedOfTemplate(seed: string, i: nat)
    requires i < TemplateCount
    ensures ExtractSeed(Templates(seed)[i], i) == Some(seed)
  {
    assert Templates(seed)[i] == Prefixes[i] + seed + Suffixes[i];
    CutAround(Prefixes[i], seed, Suffixes[i]);
  }

  lemma TemplateOfExtractedSeed(prompt: string, i: nat)
    requires i < TemplateCount
    requires ExtractSeed(prompt, i).Some?
    ensures Templates(ExtractSeed(prompt, i).value)[i] == prompt
  {
    JoinAround(prompt, Prefixes[i], Suffixes[i]);
  }

  lemma TemplateStart(seed: string, i: nat)
    requires i < TemplateCount
    ensures |Templates(seed)[i]| > 2
    ensures Templates(seed)[i][1] == Prefixes[i][1] && Templates(seed)[i][2] == Prefixes[i][2]
  {
    assert Templates(seed)[i] == Prefixes[i] + seed + Suffixes[i];
  }

  /**
   * A generated prompt determines both the template it came from and the
   * concept: the result is exactly one of the four templates.
   */
  lemma TemplatesAreDistinguishable(seed1: string, i: nat, seed2: string, j: nat)
    requires i < TemplateCount && j < TemplateCount
    requires Templates(seed1)[i] == Templates(seed2)[j]
    ensures i == j && seed1 == seed2
  {
    TemplateStart(seed1, i);
    TemplateStart(seed2, j);
    assert Prefixes[0][1] == 'r' && Prefixes[1][1] == 'o';
    assert Prefixes[2][1] == 'e' && Prefixes[2][2] == 'v';
    assert Prefixes[3][1] == 'e' && Prefixes[3][2] == 's';
    assert i == j;
    ExtractSeedOfTemplate(seed1, i);
    ExtractSeedOfTemplate(seed2, j);
  }

  /** The JSON bodies the handler sends. */
  datatype Body = PromptBody(prompt: string) | ErrorBody(error: string)

  datatype Response = Response(status: nat, body: Body)

  /**
   * Where an exception escapes inside the `try` block: while parsing the
   * request URL (before the parameter check) or while generating (after it).
   */
  datatype Fault = NoFault | UrlFault | GenerationFault

  /** JavaScript falsiness of `url.searchParams.get('concept')`: null or "". */
  predicate ConceptMissing(concept: Option<string>)
  {
    concept == None || concept.value == ""
  }

  /** The `GET` handler. */
  function Get(concept: Option<string>, random: real, fault: Fault): (r: Response)
    requires 0.0 <= random < 1.0
    ensures r.status == 200 || r.status == 400 || r.status == 500
    ensures r.status == 400 <==> fault != UrlFault && ConceptMissing(concept)
    ensures r.status == 400 ==> r.body == ErrorBody(MissingConceptError)
    ensures r.status == 500 <==> fault == UrlFault || (fault == GenerationFault && !ConceptMissing(concept))
    ensures r.status == 500 ==> r.body == ErrorBody(GenerationFailedError)
    ensures r.status == 200 <==> fault == NoFault && !ConceptMissing(concept)
    ensures r.status == 200 ==> r.body.PromptBody? && r.body.prompt in Templates(concept.value)
    ensures r.status == 200 ==> Contains(r.body.prompt, concept.value)
  {
    if fault.UrlFault? then
      Response(500, ErrorBody(GenerationFailedError))
    else if ConceptMissing(concept) then
      Response(400, ErrorBody(MissingConceptError))
    else if fault.GenerationFault? then
      Response(500, ErrorBody(GenerationFailedError))
    else
      Response(200, PromptBody(GenerateCreativePrompt(concept.value, random)))
  }

  /** Only a missing or empty concept is rejected: whitespace passes the check. */
  lemma WhitespaceConceptAccepted(random: real)
    requires 0.0 <= random < 1.0
    ensures Get(Some(" "), random, NoFault).status == 200
  {
  }
}
