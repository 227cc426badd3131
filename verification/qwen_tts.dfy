/**
 The Qwen3-TTS VoiceDesign service: the same validation and routing in
 front of an opaque voice-design model. Text is required and silently cut
 to 5000 characters; the voice is a free-text description, defaulted when
 absent, or taken from an advisor profile.

 The model call is an input: a `ModelRun` is the WAV bytes it produced or
 the message of the exception it raised.
 */
module QwenTts {
  import opened Wrappers
  import opened Bytes
  import opened Strings
  import opened OrderedMap

  const DefaultLanguage: string := "English"
  const DefaultInstruct: string := "A clear, natural English speaking voice."
  const TextLimit: nat := 5000
  const ModelName: string := "Qwen3-TTS-12Hz-1.7B-VoiceDesign"

  const AdvisorProfiles: Entries<string, string> := [
    ("business",
      "A confident, mature male voice with a deep, authoritative timbre. "
      + "Professional and measured pace, like a seasoned executive mentor "
      + "who speaks with clarity and conviction."),
    ("zen",
      "A warm, gentle female voice with a calm, meditative quality. "
      + "Slightly lower register, unhurried pace, radiating compassion "
      + "and wisdom like a meditation teacher creating a safe space."),
    ("researcher",
      "A bright, articulate male voice with an intellectual curiosity. "
      + "Clear enunciation, moderate pace, the voice of someone who finds "
      + "genuine excitement in discovery and explaining complex ideas simply."),
    ("organizer",
      "A clear, precise female voice with a warm professionalism. "
      + "Natural pace, organized delivery, like a trusted colleague who "
      + "helps you see structure and clarity in chaos."),
    ("image",
      "An enthusiastic, creative male voice with expressive energy. "
      + "Slightly faster pace, descriptive and engaging, like an art "
      + "director who sees vivid pictures in everything.")
  ]

  /** A validated request: the omitted fields already carry their defaults. */
  datatype TtsRequest = TtsRequest(text: string, language: string, instruct: Option<string>)

  /** The request model's defaults: `language` is "English" and `instruct` is absent unless given. */
  function MakeRequest(text: string, language: Option<string>, instruct: Option<string>): (r: TtsRequest)
    ensures r.text == text && r.instruct == instruct
    ensures language.None? ==> r.language == DefaultLanguage
    ensures language.Some? ==> r.language == language.value
  {
    TtsRequest(text, language.GetOr(DefaultLanguage), instruct)
  }

  /** What the model did: the WAV bytes, or the message of the exception raised. */
  datatype ModelRun = Generated(wav: seq<byte>) | Raised(message: string)

  /** The arguments of one model call. */
  datatype ModelCall = ModelCall(text: string, language: string, instruct: string)

  datatype Body =
    | Wav(bytes: seq<byte>)
    | ErrorDetail(detail: string)
    | Profiles(model: string, description: string, advisorProfiles: Entries<string, string>, note: string)
    | HealthReport(status: string, model: string, modelLoaded: bool)

  datatype Response = Response(status: nat, mediaType: string, headers: Entries<string, string>, body: Body)

  datatype Exchange = Exchange(calls: seq<ModelCall>, response: Response)

  function ErrorResponse(status: nat, detail: string): Response {
    Response(status, "application/json", [], ErrorDetail(detail))
  }

  /** Python's `instruct or DEFAULT`: absent or empty falls back to the default description. */
  function InstructOr(instruct: Option<string>): (r: string)
    ensures |r| > 0
    ensures instruct.Some? && instruct.value != "" ==> r == instruct.value
    ensures instruct.None? || instruct.value == "" ==> r == DefaultInstruct
  {
    if instruct.Some? && instruct.value != "" then instruct.value else DefaultInstruct
  }

  /** Python's `text[:5000]`. */
  function Clamp(text: string): (r: string)
    ensures |r| <= TextLimit
    ensures StartsWith(text, r)
    ensures |text| <= TextLimit ==> r == text
    ensures |text| > TextLimit ==> |r| == TextLimit
  {
    if |text| <= TextLimit then text else text[..TextLimit]
  }

  /** POST /synthesize */
  function Synthesize(req: TtsRequest, run: ModelRun): (x: Exchange)
    ensures |x.calls| <= 1
    ensures x.response.status in {200, 400, 500}
  {
    if req.text == "" then Exchange([], ErrorResponse(400, "Text required"))
    else
      var call := ModelCall(Clamp(req.text), req.language, InstructOr(req.instruct));
      match run
      case Generated(wav) =>
        Exchange([call], Response(200, "audio/wav", [("Content-Disposition", "inline; filename=speech.wav")], Wav(wav)))
      case Raised(message) =>
        Exchange([call], ErrorResponse(500, "TTS generation failed: " + message))
  }

  /** POST /synthesize/advisor/{advisorId} */
  function SynthesizeAdvisor(advisorId: string, req: TtsRequest, run: ModelRun): (x: Exchange)
    ensures |x.calls| <= 1
    ensures x.response.status in {200, 400, 404, 500}
  {
    var description := Get(AdvisorProfiles, advisorId);
    if description.None? || description.value == "" then
      Exchange([], ErrorResponse(404, "Unknown advisor: " + advisorId + ". Available: " + Join(Keys(AdvisorProfiles), ", ")))
    else
      Synthesize(req.(instruct := description), run)
  }

  /** GET /voices */
  function ListVoices(): (r: Response)
    ensures r.status == 200 && r.body.Profiles? && r.body.advisorProfiles == AdvisorProfiles
  {
    Response(200, "application/json", [],
      Profiles(ModelName, "VoiceDesign (unlimited voices from text descriptions)", AdvisorProfiles,
        "Any voice can be created by passing a description in the 'instruct' field"))
  }

  /** GET /health: `modelLoaded` is whether startup produced a model. */
  function Health(modelLoaded: bool): (r: Response)
    ensures r.status == 200 && r.body.HealthReport? && r.body.modelLoaded == modelLoaded
  {
    Response(200, "application/json", [], HealthReport("ok", ModelName, modelLoaded))
  }

  // ---------------------------------------------------------------------
  // Properties

  /** Empty text is a 400 "Text required" and the model is never called. */
  lemma EmptyTextRejected(req: TtsRequest, run: ModelRun)
    requires req.text == ""
    ensures Synthesize(req, run) == Exchange([], ErrorResponse(400, "Text required"))
  {
  }

  /**
   Non-empty text reaches the model as its first 5000 characters, with the
   request's language and the instruction or its default; the model's
   exception becomes a 500 naming its message, its audio a WAV attachment.
   */
  lemma SynthesizeCallsModel(req: TtsRequest, run: ModelRun)
    requires req.text != ""
    ensures var x := Synthesize(req, run);
      && x.calls == [ModelCall(Clamp(req.text), req.language, InstructOr(req.instruct))]
      && |x.calls[0].text| == (if |req.text| <= TextLimit then |req.text| else TextLimit)
      && (run.Generated? ==> x.response == Response(200, "audio/wav",
            [("Content-Disposition", "inline; filename=speech.wav")], Wav(run.wav)))
      && (run.Raised? ==>
            x.response.status == 500 && x.response.body == ErrorDetail("TTS generation failed: " + run.message))
  {
  }

  /** Every profile key finds a non-empty description, and the keys are distinct. */
  lemma AdvisorProfilesWellFormed()
    ensures DistinctKeys(AdvisorProfiles)
    ensures forall k :: k in Keys(AdvisorProfiles) ==> Get(AdvisorProfiles, k).Some? && |Get(AdvisorProfiles, k).value| > 0
  {
    var reg := AdvisorProfiles;
    assert forall i :: 0 <= i < |reg| ==> |reg[i].1| > 0;
    forall k | k in Keys(reg)
      ensures Get(reg, k).Some? && |Get(reg, k).value| > 0
    {
      var v := Get(reg, k).value;
      assert (k, v) in reg;
    }
  }

  /** An unknown advisor is a 404 listing the keys joined by ", ", without a model call. */
  lemma UnknownAdvisorNotFound(advisorId: string, req: TtsRequest, run: ModelRun)
    requires advisorId !in Keys(AdvisorProfiles)
    ensures var x := SynthesizeAdvisor(advisorId, req, run);
      && x.calls == []
      && x.response.status == 404
      && x.response.body == ErrorDetail("Unknown advisor: " + advisorId + ". Available: "
           + Join(Keys(AdvisorProfiles), ", "))
      && forall k :: k in Keys(AdvisorProfiles) ==> Contains(x.response.body.detail, k)
  {
    var x := SynthesizeAdvisor(advisorId, req, run);
    var listing := Join(Keys(AdvisorProfiles), ", ");
    var head := "Unknown advisor: " + advisorId + ". Available: ";
    assert x.response.body.detail == head + listing;
    forall k | k in Keys(AdvisorProfiles)
      ensures Contains(x.response.body.detail, k)
    {
      var i :| 0 <= i < |Keys(AdvisorProfiles)| && Keys(AdvisorProfiles)[i] == k;
      JoinContainsPart(Keys(AdvisorProfiles), ", ", i);
      ContainsWithin(head, listing, "", k);
      assert head + listing + "" == head + listing;
    }
  }

  /**
   A known advisor replaces the request's instruction by its profile and then
   follows /synthesize: empty text is still rejected, long text still cut.
   */
  lemma KnownAdvisorUsesProfile(advisorId: string, req: TtsRequest, run: ModelRun)
    requires advisorId in Keys(AdvisorProfiles)
    ensures var description := Get(AdvisorProfiles, advisorId).value;
      && SynthesizeAdvisor(advisorId, req, run) == Synthesize(req.(instruct := Some(description)), run)
      && (req.text != "" ==>
            SynthesizeAdvisor(advisorId, req, run).calls == [ModelCall(Clamp(req.text), req.language, description)])
  {
    AdvisorProfilesWellFormed();
  }
}
