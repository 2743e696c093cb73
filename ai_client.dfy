/**
 * `UnifiedAIClient`: one entry point over two providers, with a single fallback attempt on
 * failure and a self-healing JSON wrapper. The providers are an oracle `service(w, n)`: what the
 * provider does with wire request `w` when it is the n-th provider call (from 0) of the run.
 */
module AiClient {
  import opened Records
  import opened Text
  import opened Utils

  datatype Provider = Gemini | OpenAI

  /** `AIRequest`; a schema is carried as its text. `temperature` is not modelled. */
  datatype AIRequest = AIRequest(
    systemPrompt: string,
    userPrompt: string,
    schema: Option<string>,
    model: Option<string>,
    jsonMode: bool)

  /** What a provider call sends: the Gemini `generateContent` parameters, or the OpenAI chat payload. */
  datatype WireCall =
    | GeminiCall(apiKey: string, model: string, systemInstruction: string, userText: string,
                 maxOutputTokens: int, responseMimeType: Option<string>, responseSchema: Option<string>)
    | OpenAICall(bearer: string, model: string, system: string, user: string, responseFormat: Option<string>)

  /**
   * What a provider does with one call: a text answer, an exception with its message, or (for
   * `fetch`) a response that is not `ok`, with the API's error message or the status text.
   */
  datatype ServiceReply = Answered(text: string) | Failed(message: string) | NotOk(detail: string)

  /** What `generate` and its helpers resolve to, or the message of the error they throw. */
  datatype GenResult = Resolved(value: string) | Rejected(message: string)

  /** A generation: its result and the provider calls it made, in order. */
  datatype Generation = Generation(result: GenResult, calls: seq<WireCall>)

  /** What `generateJSON` resolves to, or the message of the error it throws. */
  datatype JsonResult = Parsed(value: JsonValue) | Thrown(message: string)

  /** A JSON generation: its result, its provider calls and how many `generate` calls it made. */
  datatype JsonGeneration = JsonGeneration(result: JsonResult, calls: seq<WireCall>, generates: nat)

  /** The client's three fields. */
  datatype Settings = Settings(geminiKey: string, openaiKey: string, provider: Provider)

  const GeminiFlash: string := "gemini-3-flash-preview"
  const GeminiPro: string := "gemini-3-pro-preview"
  const GptMini: string := "gpt-4o-mini"
  const Gpt: string := "gpt-4o"
  const MaxOutputTokens: int := 65536
  const JsonMimeType: string := "application/json"
  const JsonObjectFormat: string := "json_object"
  const KeyMissingMessage: string := "OpenAI Key not configured"
  const OpenAIErrorPrefix: string := "OpenAI API Error: "
  const RepairSystemPrompt: string := "You are a rigid JSON fixer. Output only JSON."
  const RepairPromptHead: string :=
    "\n                You are a JSON Syntax Repair Bot.\n                The following JSON is malformed or truncated.\n                ERROR: "
  const RepairPromptMiddle: string := "\n                \n                RAW BROKEN JSON:\n                "
  const RepairPromptTail: string :=
    "\n                \n                TASK: Return ONLY valid, corrected JSON. Do not explain. Close any open arrays/objects.\n            "
  const RecoveryFailureMessage: string := "Critical Forensic Analysis Failure: Data structure could not be recovered."

  // ---------------------------------------------------------------------------------------
  // Pure rules: credentials, model names, wire requests

  /** `setCredentials(openaiKey?, provider?)`: a falsy key or an absent provider leaves its field as it was. */
  function WithCredentials(s: Settings, openaiKey: string, provider: Option<Provider>): (t: Settings)
    ensures t.geminiKey == s.geminiKey
    ensures t.openaiKey == (if openaiKey != [] then openaiKey else s.openaiKey)
    ensures t.provider == (if provider.Some? then provider.value else s.provider)
  {
    var keyed := if openaiKey != [] then s.(openaiKey := openaiKey) else s;
    if provider.Some? then keyed.(provider := provider.value) else keyed
  }

  /** Setting the same credentials twice is setting them once; setting nothing changes nothing. */
  lemma CredentialsIdempotent(s: Settings, openaiKey: string, provider: Option<Provider>)
    ensures WithCredentials(WithCredentials(s, openaiKey, provider), openaiKey, provider) ==
            WithCredentials(s, openaiKey, provider)
    ensures WithCredentials(s, "", None) == s
  {
  }

  /** The Gemini model: flash exactly when the requested name contains "flash", otherwise pro. */
  function GeminiModel(model: Option<string>): (name: string)
  {
    if model.Some? && Contains(model.value, "flash") then GeminiFlash else GeminiPro
  }

  /** The OpenAI model: the mini model exactly for the Gemini flash name, otherwise gpt-4o. */
  function OpenAIModel(model: Option<string>): (name: string)
  {
    if model == Some(GeminiFlash) then GptMini else Gpt
  }

  /** The parameters `generateGemini` sends. */
  function GeminiWire(geminiKey: string, req: AIRequest): (w: WireCall)
  {
    GeminiCall(geminiKey, GeminiModel(req.model), req.systemPrompt, req.userPrompt, MaxOutputTokens,
               if req.jsonMode then Some(JsonMimeType) else None,
               if req.jsonMode && req.schema.Some? then req.schema else None)
  }

  /** The payload and bearer key `generateOpenAI` sends. */
  function OpenAIWire(openaiKey: string, req: AIRequest): (w: WireCall)
  {
    OpenAICall(openaiKey, OpenAIModel(req.model), req.systemPrompt, req.userPrompt,
               if req.jsonMode then Some(JsonObjectFormat) else None)
  }

  /** Gemini runs flash exactly for a requested name containing "flash"; OpenAI runs mini exactly for the Gemini flash name. */
  lemma ModelChoices(model: Option<string>)
    ensures GeminiModel(model) == GeminiFlash <==> model.Some? && Contains(model.value, "flash")
    ensures GeminiModel(model) in {GeminiFlash, GeminiPro}
    ensures OpenAIModel(model) == GptMini <==> model == Some(GeminiFlash)
    ensures OpenAIModel(model) in {GptMini, Gpt}
  {
  }

  /**
   * Both wire forms carry the prompts and the key; JSON mode sets the Gemini MIME type and the
   * OpenAI response format, and a schema reaches Gemini only in JSON mode.
   */
  lemma WireModes(geminiKey: string, openaiKey: string, req: AIRequest)
    ensures var g := GeminiWire(geminiKey, req);
      g.apiKey == geminiKey && g.systemInstruction == req.systemPrompt && g.userText == req.userPrompt &&
      g.maxOutputTokens == MaxOutputTokens &&
      (g.responseMimeType == Some(JsonMimeType) <==> req.jsonMode) && (g.responseMimeType == None <==> !req.jsonMode) &&
      g.responseSchema == (if req.jsonMode then req.schema else None)
    ensures var o := OpenAIWire(openaiKey, req);
      o.bearer == openaiKey && o.system == req.systemPrompt && o.user == req.userPrompt &&
      (o.responseFormat == Some(JsonObjectFormat) <==> req.jsonMode) && (o.responseFormat == None <==> !req.jsonMode)
  {
  }

  /** The repair model: the mini model for OpenAI, the flash model for Gemini. */
  function RepairModel(p: Provider): (name: string)
  {
    if p == OpenAI then GptMini else GeminiFlash
  }

  /** The repair prompt: the parse error and the raw text, framed by fixed instructions. */
  function RepairPrompt(errorMessage: string, rawText: string): string {
    RepairPromptHead + errorMessage + RepairPromptMiddle + rawText + RepairPromptTail
  }

  /** The repair prompt embeds the parse error and the raw text it could not read. */
  lemma RepairPromptEmbeds(errorMessage: string, rawText: string)
    ensures Contains(RepairPrompt(errorMessage, rawText), errorMessage)
    ensures Contains(RepairPrompt(errorMessage, rawText), rawText)
  {
    var prompt := RepairPrompt(errorMessage, rawText);
    var before := RepairPromptHead + errorMessage + RepairPromptMiddle;
    assert prompt == before + rawText + RepairPromptTail;
    assert prompt[|RepairPromptHead|..|RepairPromptHead| + |errorMessage|] == errorMessage;
    ContainsAt(prompt, |RepairPromptHead|, errorMessage);
    assert prompt[|before|..|before| + |rawText|] == rawText;
    ContainsAt(prompt, |before|, rawText);
  }

  /** A string that holds `p` at position `k` contains `p`. */
  lemma ContainsAt(s: string, k: nat, p: string)
    requires k + |p| <= |s| && s[k..k + |p|] == p
    ensures Contains(s, p)
  {
    assert StartsWith(s[k..], p) by {
      assert s[k..][..|p|] == s[k..k + |p|];
    }
    ContainsSuffix(s, k, p);
  }

  /** The request `generateJSON` sends to repair `rawText`, which failed to parse with `errorMessage`. */
  function RepairRequest(p: Provider, errorMessage: string, rawText: string): (req: AIRequest)
  {
    AIRequest(RepairSystemPrompt, RepairPrompt(errorMessage, rawText), None, Some(RepairModel(p)), true)
  }

  // ---------------------------------------------------------------------------------------
  // Specifications of the provider calls, `generate` and `generateJSON`

  /**
   * What a call's reply makes of it: the answer, or the thrown message; a response that is not
   * `ok` is reported with the OpenAI error prefix.
   */
  function Interpret(w: WireCall, reply: ServiceReply): (r: GenResult)
  {
    match reply
    case Answered(text) => Resolved(text)
    case Failed(m) => Rejected(m)
    case NotOk(detail) => Rejected(if w.OpenAICall? then OpenAIErrorPrefix + detail else detail)
  }

  /** A call resolves exactly when the provider answers, with the answer; a thrown message is kept as it is. */
  lemma InterpretReply(w: WireCall, reply: ServiceReply)
    ensures Interpret(w, reply).Resolved? <==> reply.Answered?
    ensures reply.Answered? ==> Interpret(w, reply).value == reply.text
    ensures reply.Failed? ==> Interpret(w, reply) == Rejected(reply.message)
    ensures reply.NotOk? && w.GeminiCall? ==> Interpret(w, reply) == Rejected(reply.detail)
    ensures reply.NotOk? && w.OpenAICall? ==> Interpret(w, reply) == Rejected(OpenAIErrorPrefix + reply.detail)
  {
  }

  /** `generateGemini(req)` made as provider call `n`. */
  function GeminiSpec(geminiKey: string, req: AIRequest, service: (WireCall, nat) -> ServiceReply, n: nat): Generation {
    var w := GeminiWire(geminiKey, req);
    Generation(Interpret(w, service(w, n)), [w])
  }

  /** `generateOpenAI(req)` made as provider call `n`: without a key it throws before any request. */
  function OpenAISpec(openaiKey: string, req: AIRequest, service: (WireCall, nat) -> ServiceReply, n: nat): Generation {
    if openaiKey == [] then Generation(Rejected(KeyMissingMessage), [])
    else
      var w := OpenAIWire(openaiKey, req);
      Generation(Interpret(w, service(w, n)), [w])
  }

  /** The provider helper that `generate` calls for `target`. */
  function Attempt(target: Provider, s: Settings, req: AIRequest, service: (WireCall, nat) -> ServiceReply, n: nat): Generation {
    if target == OpenAI then OpenAISpec(s.openaiKey, req, service, n) else GeminiSpec(s.geminiKey, req, service, n)
  }

  /** The wire request of an attempt on `target`. */
  function WireFor(target: Provider, s: Settings, req: AIRequest): WireCall {
    if target == OpenAI then OpenAIWire(s.openaiKey, req) else GeminiWire(s.geminiKey, req)
  }

  /** The primary attempt goes to OpenAI when it is the provider and has a key, to Gemini otherwise. */
  function PrimaryTarget(s: Settings): (p: Provider)
    ensures p == OpenAI <==> s.provider == OpenAI && s.openaiKey != []
  {
    if s.provider == OpenAI && s.openaiKey != [] then OpenAI else Gemini
  }

  /** The fallback: OpenAI for provider Gemini with a key; Gemini for provider OpenAI, key or not; else none. */
  function FallbackTarget(s: Settings): (p: Option<Provider>)
    ensures p == Some(OpenAI) <==> s.provider == Gemini && s.openaiKey != []
    ensures p == Some(Gemini) <==> s.provider == OpenAI
    ensures p == None <==> s.provider == Gemini && s.openaiKey == []
  {
    match s.provider
    case Gemini => if s.openaiKey != [] then Some(OpenAI) else None
    case OpenAI => Some(Gemini)
  }

  /** `generate(req)` with its first provider call numbered `n`. */
  function GenerateSpec(s: Settings, req: AIRequest, service: (WireCall, nat) -> ServiceReply, n: nat): Generation {
    var primary := Attempt(PrimaryTarget(s), s, req, service, n);
    if primary.result.Resolved? || FallbackTarget(s).None? then primary
    else
      var fallback := Attempt(FallbackTarget(s).value, s, req, service, n + |primary.calls|);
      Generation(fallback.result, primary.calls + fallback.calls)
  }

  /** `generate` as a function of the request and the number of its first provider call. */
  function GenerateOf(s: Settings, service: (WireCall, nat) -> ServiceReply): (generate: (AIRequest, nat) -> Generation)
    ensures forall r: AIRequest, m: nat :: generate(r, m) == GenerateSpec(s, r, service, m)
  {
    (r: AIRequest, m: nat) => GenerateSpec(s, r, service, m)
  }

  /** The reading `generateJSON` applies to generated text: `safeParseJSON` over the parser `parse`. */
  function ParserReading(parse: string -> ParserReply): (reading: string -> SafeParse)
    ensures forall t :: reading(t) == SafeParseSpec(t, parse)
  {
    (t: string) => SafeParseSpec(t, parse)
  }

  /**
   * `generateJSON(req)` for a client on provider `p` whose `generate` is `generate`, with its
   * first provider call numbered `n`; `reading` is `safeParseJSON`.
   */
  function GenerateJSONSpec(generate: (AIRequest, nat) -> Generation, p: Provider, req: AIRequest,
                            reading: string -> SafeParse, n: nat): JsonGeneration {
    var first := generate(req.(jsonMode := true), n);
    if first.result.Rejected? then JsonGeneration(Thrown(first.result.message), first.calls, 1)
    else
      var raw := first.result.value;
      match reading(raw)
      case Returned(v) => JsonGeneration(Parsed(v), first.calls, 1)
      case Threw(e) =>
        var repair := RepairSpec(generate, p, e, raw, reading, n + |first.calls|);
        JsonGeneration(repair.result, first.calls + repair.calls, 2)
  }

  /**
   * The repair round of `generateJSON`: one `generate` call on the repair request, read with
   * `reading`; any failure becomes the fixed recovery failure.
   */
  function RepairSpec(generate: (AIRequest, nat) -> Generation, p: Provider, errorMessage: string, rawText: string,
                      reading: string -> SafeParse, n: nat): JsonGeneration {
    var repair := generate(RepairRequest(p, errorMessage, rawText), n);
    if repair.result.Rejected? then JsonGeneration(Thrown(RecoveryFailureMessage), repair.calls, 1)
    else
      match reading(repair.result.value)
      case Returned(v) => JsonGeneration(Parsed(v), repair.calls, 1)
      case Threw(_) => JsonGeneration(Thrown(RecoveryFailureMessage), repair.calls, 1)
  }

  // ---------------------------------------------------------------------------------------
  // Properties of `generate`

  /** An attempt on a target that has its key makes exactly its one call, and answers with that call's reply. */
  lemma AttemptMakesOneCall(target: Provider, s: Settings, req: AIRequest, service: (WireCall, nat) -> ServiceReply, n: nat)
    requires target == OpenAI ==> s.openaiKey != []
    ensures var a := Attempt(target, s, req, service, n);
      a.calls == [WireFor(target, s, req)] &&
      a.result == Interpret(WireFor(target, s, req), service(WireFor(target, s, req), n))
  {
  }

  /**
   * `generate` makes one or two provider calls: the primary one, then a fallback call exactly
   * when the primary failed and a fallback exists. It resolves or throws with what its last
   * call did, so it never throws the missing-key error of its own.
   */
  lemma {:induction false} GenerateCalls(s: Settings, req: AIRequest, service: (WireCall, nat) -> ServiceReply, n: nat)
    ensures var g := GenerateSpec(s, req, service, n);
      var first := WireFor(PrimaryTarget(s), s, req);
      var failed := !service(first, n).Answered?;
      1 <= |g.calls| <= 2 && g.calls[0] == first &&
      (|g.calls| == 2 <==> failed && FallbackTarget(s).Some?) &&
      (|g.calls| == 2 ==> g.calls[1] == WireFor(FallbackTarget(s).value, s, req)) &&
      g.result == Interpret(g.calls[|g.calls| - 1], service(g.calls[|g.calls| - 1], n + |g.calls| - 1))
  {
    var primary := Attempt(PrimaryTarget(s), s, req, service, n);
    AttemptMakesOneCall(PrimaryTarget(s), s, req, service, n);
    if !primary.result.Resolved? && FallbackTarget(s).Some? {
      AttemptMakesOneCall(FallbackTarget(s).value, s, req, service, n + 1);
    }
  }

  /** The primary call goes to OpenAI exactly when it is the provider and has a key. */
  lemma PrimaryChoice(s: Settings, req: AIRequest, service: (WireCall, nat) -> ServiceReply, n: nat)
    ensures GenerateSpec(s, req, service, n).calls[0].OpenAICall? <==> s.provider == OpenAI && s.openaiKey != []
  {
    GenerateCalls(s, req, service, n);
  }

  /** With provider OpenAI and no key, a failed Gemini attempt is followed by the same Gemini call. */
  lemma OpenAIWithoutKeyTriesGeminiTwice(s: Settings, req: AIRequest, service: (WireCall, nat) -> ServiceReply, n: nat)
    requires s.provider == OpenAI && s.openaiKey == []
    requires !service(GeminiWire(s.geminiKey, req), n).Answered?
    ensures GenerateSpec(s, req, service, n).calls == [GeminiWire(s.geminiKey, req), GeminiWire(s.geminiKey, req)]
  {
    GenerateCalls(s, req, service, n);
  }

  /** Every OpenAI call of `generate` carries the configured key, which is then non-empty. */
  lemma OpenAICallsHaveKey(s: Settings, req: AIRequest, service: (WireCall, nat) -> ServiceReply, n: nat)
    ensures forall w :: w in GenerateSpec(s, req, service, n).calls && w.OpenAICall? ==>
      w.bearer == s.openaiKey && s.openaiKey != []
  {
    GenerateCalls(s, req, service, n);
  }

  // ---------------------------------------------------------------------------------------
  // Properties of `generateJSON`

  /** A call in JSON mode: Gemini asks for the JSON MIME type, OpenAI for a JSON object. */
  predicate JsonWire(w: WireCall) {
    (w.GeminiCall? ==> w.responseMimeType == Some(JsonMimeType)) &&
    (w.OpenAICall? ==> w.responseFormat == Some(JsonObjectFormat))
  }

  /** A generation of one or two calls, all in JSON mode. */
  predicate JsonShaped(g: Generation) {
    1 <= |g.calls| <= 2 && forall w :: w in g.calls ==> JsonWire(w)
  }

  /** `generate` on a JSON-mode request makes one or two calls, all of them in JSON mode. */
  lemma JsonModeGenerate(s: Settings, req: AIRequest, service: (WireCall, nat) -> ServiceReply, n: nat)
    requires req.jsonMode
    ensures JsonShaped(GenerateSpec(s, req, service, n))
  {
    GenerateCalls(s, req, service, n);
  }

  /** At most two `generate` calls, each of the shape `generate` has in JSON mode. */
  lemma {:induction false} JsonRunBounds(generate: (AIRequest, nat) -> Generation, p: Provider, req: AIRequest,
                                         reading: string -> SafeParse, n: nat)
    requires forall r: AIRequest, m: nat :: r.jsonMode ==> JsonShaped(generate(r, m))
    ensures var j := GenerateJSONSpec(generate, p, req, reading, n);
      1 <= j.generates <= 2 && 1 <= |j.calls| <= 2 * j.generates && forall w :: w in j.calls ==> JsonWire(w)
  {
    var first := generate(req.(jsonMode := true), n);
    assert JsonShaped(first);
    if first.result.Resolved? && reading(first.result.value).Threw? {
      var repair := generate(RepairRequest(p, reading(first.result.value).message, first.result.value), n + |first.calls|);
      assert JsonShaped(repair);
    }
  }

  /** At most two `generate` calls and four provider calls; every call is in JSON mode. */
  lemma GenerateJSONBounds(s: Settings, req: AIRequest, reading: string -> SafeParse,
                           service: (WireCall, nat) -> ServiceReply, n: nat)
    ensures var j := GenerateJSONSpec(GenerateOf(s, service), s.provider, req, reading, n);
      1 <= j.generates <= 2 && 1 <= |j.calls| <= 4 && forall w :: w in j.calls ==> JsonWire(w)
  {
    forall r: AIRequest, m: nat | r.jsonMode
      ensures JsonShaped(GenerateOf(s, service)(r, m))
    {
      JsonModeGenerate(s, r, service, m);
    }
    JsonRunBounds(GenerateOf(s, service), s.provider, req, reading, n);
  }

  /** A failure of the first `generate` call is thrown unchanged, and no repair is attempted. */
  lemma FirstFailurePropagates(generate: (AIRequest, nat) -> Generation, p: Provider, req: AIRequest,
                               reading: string -> SafeParse, n: nat)
    requires generate(req.(jsonMode := true), n).result.Rejected?
    ensures GenerateJSONSpec(generate, p, req, reading, n) ==
      JsonGeneration(Thrown(generate(req.(jsonMode := true), n).result.message),
                     generate(req.(jsonMode := true), n).calls, 1)
  {
  }

  /** Generated empty text is `null`, without repair. */
  lemma EmptyTextWithoutRepair(generate: (AIRequest, nat) -> Generation, p: Provider, req: AIRequest,
                               parse: string -> ParserReply, n: nat)
    requires generate(req.(jsonMode := true), n).result == Resolved([])
    ensures GenerateJSONSpec(generate, p, req, ParserReading(parse), n).result == Parsed(NullValue)
    ensures GenerateJSONSpec(generate, p, req, ParserReading(parse), n).generates == 1
  {
  }

  /** A repair round ends in the repaired value or in the fixed failure message, never in another error. */
  lemma RepairOutcomes(generate: (AIRequest, nat) -> Generation, p: Provider, req: AIRequest,
                       reading: string -> SafeParse, n: nat)
    ensures var j := GenerateJSONSpec(generate, p, req, reading, n);
      j.generates == 2 ==> j.result == Thrown(RecoveryFailureMessage) || j.result.Parsed?
  {
  }

  /** Text that reads at once is the result, with no repair round. */
  lemma ReadableWithoutRepair(generate: (AIRequest, nat) -> Generation, p: Provider, req: AIRequest,
                              reading: string -> SafeParse, n: nat)
    requires generate(req.(jsonMode := true), n).result.Resolved?
    requires reading(generate(req.(jsonMode := true), n).result.value).Returned?
    ensures var first := generate(req.(jsonMode := true), n);
      GenerateJSONSpec(generate, p, req, reading, n) ==
        JsonGeneration(Parsed(reading(first.result.value).value), first.calls, 1)
  {
  }

  /** When the first text cannot be read, the run is the first call's calls followed by the repair round. */
  lemma RepairFollowsUnreadable(generate: (AIRequest, nat) -> Generation, p: Provider, req: AIRequest,
                                reading: string -> SafeParse, n: nat)
    requires generate(req.(jsonMode := true), n).result.Resolved?
    requires reading(generate(req.(jsonMode := true), n).result.value).Threw?
    ensures var first := generate(req.(jsonMode := true), n);
      var repair := RepairSpec(generate, p, reading(first.result.value).message, first.result.value, reading, n + |first.calls|);
      GenerateJSONSpec(generate, p, req, reading, n) == JsonGeneration(repair.result, first.calls + repair.calls, 2)
  {
  }

  /** The repair request carries the parse error and the raw text, on the provider's repair model. */
  lemma RepairCarriesError(generate: (AIRequest, nat) -> Generation, p: Provider, req: AIRequest,
                           reading: string -> SafeParse, n: nat)
    requires generate(req.(jsonMode := true), n).result.Resolved?
    requires reading(generate(req.(jsonMode := true), n).result.value).Threw?
    ensures var first := generate(req.(jsonMode := true), n);
      var e := reading(first.result.value).message;
      GenerateJSONSpec(generate, p, req, reading, n).calls ==
        first.calls + generate(RepairRequest(p, e, first.result.value), n + |first.calls|).calls
  {
  }

  /**
   * The repair asks for a fast model, but under provider OpenAI the name "gpt-4o-mini" is not the
   * one `generateOpenAI` maps to the mini model, so the repair runs on gpt-4o, and a Gemini
   * fallback runs on the pro model.
   */
  lemma RepairModelUnderOpenAI()
    ensures OpenAIModel(Some(RepairModel(OpenAI))) == Gpt && GeminiModel(Some(RepairModel(OpenAI))) == GeminiPro
  {
    NoFlashInGptMini();
  }

  /** Under provider Gemini the repair runs on the fast models of both providers. */
  lemma RepairModelUnderGemini()
    ensures GeminiModel(Some(RepairModel(Gemini))) == GeminiFlash && OpenAIModel(Some(RepairModel(Gemini))) == GptMini
  {
    FlashInGeminiFlash();
  }

  /** "gemini-3-flash-preview" contains "flash", at position 9. */
  lemma FlashInGeminiFlash()
    ensures Contains(GeminiFlash, "flash")
  {
    assert GeminiFlash[9..14] == "flash" by {
      assert GeminiFlash == "gemini-3-" + "flash" + "-preview";
    }
    ContainsAt(GeminiFlash, 9, "flash");
  }

  /** "gpt-4o-mini" does not contain "flash": it has no 'f'. */
  lemma NoFlashInGptMini()
    ensures !Contains(GptMini, "flash")
  {
    WithoutFirstCharNoMatch(GptMini, "flash");
  }

  /** The oracle of the four-call run: even-numbered calls throw, odd-numbered ones answer "x". */
  function FlakyService(w: WireCall, n: nat): ServiceReply {
    if n % 2 == 0 then Failed("503 Service Unavailable") else Answered("x")
  }

  /** Under provider OpenAI with a key, a failed call is followed by the Gemini fallback, which answers. */
  lemma FlakyGenerate(req: AIRequest, n: nat)
    requires n % 2 == 0
    ensures GenerateSpec(Settings("g", "k", OpenAI), req, FlakyService, n) ==
      Generation(Resolved("x"), [OpenAIWire("k", req), GeminiWire("g", req)])
  {
    GenerateCalls(Settings("g", "k", OpenAI), req, FlakyService, n);
  }

  /**
   * Four provider calls are reachable: both attempts of both `generate` calls, ending in the
   * fixed failure, when no text can be read.
   */
  lemma FourCallsReachable(req: AIRequest, reading: string -> SafeParse)
    requires forall t :: reading(t).Threw?
    ensures var j := GenerateJSONSpec(GenerateOf(Settings("g", "k", OpenAI), FlakyService), OpenAI, req, reading, 0);
      |j.calls| == 4 && j.generates == 2 && j.result == Thrown(RecoveryFailureMessage)
  {
    var generate := GenerateOf(Settings("g", "k", OpenAI), FlakyService);
    FlakyGenerate(req.(jsonMode := true), 0);
    var first := generate(req.(jsonMode := true), 0);
    var rreq := RepairRequest(OpenAI, reading("x").message, "x");
    FlakyGenerate(rreq, 2);
    assert generate(rreq, 2).result == Resolved("x");
  }

  /** A parser that rejects everything makes `safeParseJSON` throw on every non-empty text. */
  lemma RejectingParserReading(parse: string -> ParserReply, t: string)
    requires t != [] && forall u :: parse(u).Rejects?
    ensures ParserReading(parse)(t).Threw?
  {
    NothingParses(t, parse);
  }

  // ---------------------------------------------------------------------------------------
  // The client

  class UnifiedAIClient {
    var geminiKey: string
    var openaiKey: string
    var provider: Provider

    /** The fields as a value. */
    function Current(): (s: Settings)
      reads this
      ensures s.geminiKey == geminiKey && s.openaiKey == openaiKey && s.provider == provider
    {
      Settings(geminiKey, openaiKey, provider)
    }

    /** A fresh client: the Gemini key from the environment (`""` when unset), no OpenAI key, provider Gemini. */
    constructor (environmentKey: string)
      ensures geminiKey == environmentKey && openaiKey == [] && provider == Gemini
    {
      geminiKey := environmentKey;
      openaiKey := [];
      provider := Gemini;
    }

    /** `setCredentials(openaiKey?, provider?)` */
    method SetCredentials(key: string, newProvider: Option<Provider>)
      modifies this
      ensures Current() == WithCredentials(old(Current()), key, newProvider)
    {
      if key != [] {
        openaiKey := key;
      }
      if newProvider.Some? {
        provider := newProvider.value;
      }
    }

    /** `getProvider()` */
    method GetProvider() returns (p: Provider)
      ensures p == provider
    {
      p := provider;
    }

    /** `generateGemini(req)`, made as provider call `n`. */
    method GenerateGemini(req: AIRequest, service: (WireCall, nat) -> ServiceReply, n: nat)
      returns (r: GenResult, calls: seq<WireCall>)
      ensures Generation(r, calls) == GeminiSpec(geminiKey, req, service, n)
    {
      var modelName := if req.model.Some? && Contains(req.model.value, "flash") then GeminiFlash else GeminiPro;
      var mimeType := if req.jsonMode then Some(JsonMimeType) else None;
      var schema := if req.jsonMode && req.schema.Some? then req.schema else None;
      var w := GeminiCall(geminiKey, modelName, req.systemPrompt, req.userPrompt, MaxOutputTokens, mimeType, schema);
      calls := [w];
      var reply := service(w, n);
      match reply {
        case Answered(text) => r := Resolved(text);
        case Failed(m) => r := Rejected(m);
        case NotOk(detail) => r := Rejected(detail);
      }
    }

    /** `generateOpenAI(req)`, made as provider call `n`. */
    method GenerateOpenAI(req: AIRequest, service: (WireCall, nat) -> ServiceReply, n: nat)
      returns (r: GenResult, calls: seq<WireCall>)
      ensures Generation(r, calls) == OpenAISpec(openaiKey, req, service, n)
    {
      if openaiKey == [] {
        return Rejected(KeyMissingMessage), [];
      }
      var modelName := if req.model == Some(GeminiFlash) then GptMini else Gpt;
      var format := if req.jsonMode then Some(JsonObjectFormat) else None;
      var w := OpenAICall(openaiKey, modelName, req.systemPrompt, req.userPrompt, format);
      calls := [w];
      var reply := service(w, n);
      match reply {
        case Answered(text) => r := Resolved(text);
        case Failed(m) => r := Rejected(m);
        case NotOk(detail) => r := Rejected(OpenAIErrorPrefix + detail);
      }
    }

    /** `generate(req)`: the primary attempt, then at most one fallback attempt. */
    method Generate(req: AIRequest, service: (WireCall, nat) -> ServiceReply, n: nat)
      returns (r: GenResult, calls: seq<WireCall>)
      ensures Generation(r, calls) == GenerateSpec(Current(), req, service, n)
    {
      if provider == OpenAI && openaiKey != [] {
        r, calls := GenerateOpenAI(req, service, n);
      } else {
        r, calls := GenerateGemini(req, service, n);
      }
      if r.Rejected? {
        if provider == Gemini && openaiKey != [] {
          var r2, c2 := GenerateOpenAI(req, service, n + |calls|);
          r, calls := r2, calls + c2;
        } else if provider == OpenAI {
          var r2, c2 := GenerateGemini(req, service, n + |calls|);
          r, calls := r2, calls + c2;
        }
      }
    }

    /**
     * `generateJSON(req)`: generate in JSON mode, read the text with `reading` (the tolerant
     * parser `safeParseJSON`, see `ParserReading`), and on a read failure one repair round.
     */
    method GenerateJSON(req: AIRequest, reading: string -> SafeParse, service: (WireCall, nat) -> ServiceReply, n: nat)
      returns (r: JsonResult, calls: seq<WireCall>, generates: nat)
      ensures JsonGeneration(r, calls, generates) == GenerateJSONSpec(GenerateOf(Current(), service), provider, req, reading, n)
    {
      var raw, c1 := Generate(req.(jsonMode := true), service, n);
      r, calls, generates := ReadGenerated(req, raw, c1, reading, service, n);
    }

    /** The rest of `generateJSON(req)` once its first `generate` call answered `raw` with the calls `c1`. */
    method ReadGenerated(req: AIRequest, raw: GenResult, c1: seq<WireCall>, reading: string -> SafeParse,
                         service: (WireCall, nat) -> ServiceReply, n: nat)
      returns (r: JsonResult, calls: seq<WireCall>, generates: nat)
      requires GenerateOf(Current(), service)(req.(jsonMode := true), n) == Generation(raw, c1)
      ensures JsonGeneration(r, calls, generates) == GenerateJSONSpec(GenerateOf(Current(), service), provider, req, reading, n)
    {
      calls, generates := c1, 1;
      if raw.Rejected? {
        return Thrown(raw.message), calls, generates;
      }
      var parsed := reading(raw.value);
      if parsed.Returned? {
        return Parsed(parsed.value), calls, generates;
      }
      r, calls := RepairJSON(parsed.message, raw.value, reading, service, n + |c1|);
      RepairFollowsUnreadable(GenerateOf(Current(), service), provider, req, reading, n);
      calls, generates := c1 + calls, 2;
    }

    /** The repair round of `generateJSON(req)`, its first provider call numbered `n`. */
    method RepairJSON(errorMessage: string, rawText: string, reading: string -> SafeParse,
                      service: (WireCall, nat) -> ServiceReply, n: nat)
      returns (r: JsonResult, calls: seq<WireCall>)
      ensures JsonGeneration(r, calls, 1) ==
        RepairSpec(GenerateOf(Current(), service), provider, errorMessage, rawText, reading, n)
    {
      var repairRequest := AIRequest(RepairSystemPrompt, RepairPrompt(errorMessage, rawText), None,
                                     Some(if provider == OpenAI then GptMini else GeminiFlash), true);
      var repaired;
      repaired, calls := Generate(repairRequest, service, n);
      if repaired.Rejected? {
        return Thrown(RecoveryFailureMessage), calls;
      }
      var reparsed := reading(repaired.value);
      if reparsed.Returned? {
        r := Parsed(reparsed.value);
      } else {
        r := Thrown(RecoveryFailureMessage);
      }
    }
  }
}
