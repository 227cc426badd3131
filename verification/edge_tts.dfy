/**
 The Edge TTS service: an HTTP front end that clamps the request text,
 picks a voice, asks the Edge TTS engine for a stream of tagged chunks and
 folds that stream into MP3 audio (and, for one endpoint, word-boundary
 timings), answering with raw audio, a JSON envelope or an error detail.

 The engine is an input: an `EngineRun` is the ordered chunk stream it
 produced, or the fault it raised. Each endpoint is a function from the
 request and the engine run to an `Exchange`: the engine calls made, the
 LED breadcrumbs lit and the HTTP response.
 */
module EdgeTts {
  import opened Wrappers
  import opened Bytes
  import opened Strings
  import Base64
  import opened OrderedMap

  // ---------------------------------------------------------------------
  // Constants

  const DefaultVoice: string := "en-US-GuyNeural"
  const MaxTextLength: nat := 5000

  /** Engine offsets and durations are in 100-nanosecond ticks. */
  const TicksPerMs: nat := 10000

  // LED breadcrumb identifiers of the 4300-4399 range.
  const LedRequestStart := 4300
  const LedTextTruncated := 4301
  const LedApiCallStart := 4302
  const LedAudioGenerated := 4303
  const LedWordBoundariesCaptured := 4304
  const LedWithBoundariesStart := 4305
  const LedWithBoundariesSuccess := 4306
  const LedRequestError := 4390
  const LedApiError := 4391

  /** A breadcrumb: a success light or a failure mark. */
  datatype Led = Light(id: int) | Fail(id: int)

  // ---------------------------------------------------------------------
  // Advisor registry: an ordered association list (dictionary order).

  type Registry = Entries<string, string>

  const AdvisorVoices: Registry := [
    ("zen", "en-US-GuyNeural"),
    ("business", "en-US-ChristopherNeural"),
    ("researcher", "en-US-JennyNeural"),
    ("organizer", "en-US-AriaNeural"),
    ("team", "en-US-GuyNeural"),
    ("zen-master", "en-US-GuyNeural"),
    ("business-advisor", "en-US-ChristopherNeural"),
    ("risk-analyst", "en-US-DavisNeural"),
    ("image-advisor", "en-US-JennyNeural"),
    ("app-help", "en-US-AriaNeural")
  ]

  // ---------------------------------------------------------------------
  // Requests, engine runs and responses

  /** The request body: `text` and an optional `voice`. */
  datatype SynthesizeRequest = SynthesizeRequest(text: string, voice: Option<string>)

  /** One item of the engine's stream; `offset` and `duration` are in ticks. */
  datatype Chunk =
    | Audio(data: seq<byte>)
    | WordBoundary(text: string, offset: int, duration: int)
    | Other(kind: string)

  /** An exception: a `ValueError` or any other kind, with its message. */
  datatype Fault = Fault(valueError: bool, message: string)

  /** What the engine did: the chunks it streamed, or the exception it raised. */
  datatype EngineRun = EngineRun(chunks: seq<Chunk>, raised: Option<Fault>)

  /** The arguments of one call into the engine. */
  datatype EngineCall = EngineCall(text: string, voice: string, withBoundaries: bool)

  /** A word timing of the JSON envelope, in milliseconds. */
  datatype Boundary = Boundary(text: string, offsetMs: int, durationMs: int)

  /** One English voice of the voice list. */
  datatype VoiceEntry = VoiceEntry(id: string, name: string, gender: string, locale: string)

  /** A voice as the engine describes it. */
  datatype VoiceInfo = VoiceInfo(shortName: string, friendlyName: string, gender: string, locale: string)

  datatype Body =
    | RawAudio(bytes: seq<byte>)
    | Envelope(audio: string, wordBoundaries: seq<Boundary>, totalDurationMs: int)
    | ErrorDetail(detail: string)
    | HealthReport(status: string, service: string, advisors: seq<string>, maxTextLength: nat)
    | VoiceList(advisorVoices: Registry, availableVoices: seq<VoiceEntry>)

  datatype Response = Response(status: nat, mediaType: string, headers: seq<(string, string)>, body: Body)

  datatype Exchange = Exchange(calls: seq<EngineCall>, trail: seq<Led>, response: Response)

  /** The value of header `name`, if present. */
  function Header(r: Response, name: string): Option<string> {
    Get(r.headers, name)
  }

  /** An `HTTPException`: a JSON `detail` with the given status. */
  function ErrorResponse(status: nat, detail: string): Response {
    Response(status, "application/json", [], ErrorDetail(detail))
  }

  /** The endpoints' exception handlers: `ValueError` is a 400 with its message, anything else a 500. */
  function FaultResponse(f: Fault, generic: string): (r: Response)
    ensures r.body.ErrorDetail?
    ensures r.status == (if f.valueError then 400 else 500)
    ensures r.body.detail == (if f.valueError then f.message else generic)
  {
    if f.valueError then ErrorResponse(400, f.message) else ErrorResponse(500, generic)
  }

  /** A streamed MP3 response naming the byte count and an inline file name. */
  function AudioResponse(audio: seq<byte>, filename: string): (r: Response)
    ensures r.status == 200 && r.body == RawAudio(audio)
    ensures Header(r, "Content-Length") == Some(NatToString(|audio|))
    ensures Header(r, "Content-Disposition") == Some("inline; filename=\"" + filename + "\"")
  {
    var headers := [("Content-Length", NatToString(|audio|)),
                    ("Content-Disposition", "inline; filename=\"" + filename + "\"")];
    assert |"Content-Disposition"| != |"Content-Length"|;
    assert headers[1..] == [headers[1]];
    assert Get(headers[1..], "Content-Disposition") == Some(headers[1].1);
    Response(200, "audio/mpeg", headers, RawAudio(audio))
  }

  // ---------------------------------------------------------------------
  // Text admission and voice choice

  datatype Admission = Admission(text: string, truncated: bool)

  /** The text handed to synthesis: at most `MaxTextLength` characters, a prefix of the input. */
  function Admit(text: string): (a: Admission)
    ensures a.truncated <==> |text| > MaxTextLength
    ensures |a.text| <= MaxTextLength
    ensures StartsWith(text, a.text)
    ensures !a.truncated ==> a.text == text
    ensures a.truncated ==> |a.text| == MaxTextLength
  {
    if |text| > MaxTextLength then Admission(text[..MaxTextLength], true)
    else Admission(text, false)
  }

  /** Python's `voice or DEFAULT_VOICE`: an absent or empty voice is replaced. */
  function VoiceOr(voice: Option<string>): (v: string)
    ensures |v| > 0
    ensures voice.Some? && voice.value != "" ==> v == voice.value
    ensures voice.None? || voice.value == "" ==> v == DefaultVoice
  {
    if voice.Some? && voice.value != "" then voice.value else DefaultVoice
  }

  // ---------------------------------------------------------------------
  // The stream folds

  /** The concatenated payloads of the audio chunks, in stream order. */
  function AudioOf(chunks: seq<Chunk>): seq<byte>
  {
    if |chunks| == 0 then []
    else (if chunks[0].Audio? then chunks[0].data else []) + AudioOf(chunks[1..])
  }

  /** The stream yields no audio exactly when every audio chunk is empty. */
  lemma {:induction false} AudioOfEmpty(chunks: seq<Chunk>)
    ensures |AudioOf(chunks)| == 0 <==> forall i :: 0 <= i < |chunks| && chunks[i].Audio? ==> |chunks[i].data| == 0
  {
    if |chunks| > 0 {
      AudioOfEmpty(chunks[1..]);
      assert forall i :: 1 <= i < |chunks| ==> chunks[i] == chunks[1..][i - 1];
    }
  }

  lemma {:induction false} AudioOfAppend(a: seq<Chunk>, b: seq<Chunk>)
    ensures AudioOf(a + b) == AudioOf(a) + AudioOf(b)
    decreases |a|
  {
    if |a| > 0 {
      assert (a + b)[1..] == a[1..] + b;
      AudioOfAppend(a[1..], b);
    } else {
      assert a + b == b;
    }
  }

  /** Chunks other than audio contribute no bytes: dropping one leaves the audio unchanged. */
  lemma AudioOfDropNonAudio(chunks: seq<Chunk>, i: nat)
    requires i < |chunks| && !chunks[i].Audio?
    ensures AudioOf(chunks[..i] + chunks[i + 1..]) == AudioOf(chunks)
  {
    var pre, post := chunks[..i], chunks[i + 1..];
    AroundIndex(chunks, i);
    AudioOfAppend(pre + [chunks[i]], post);
    AudioOfSnoc(pre, chunks[i]);
    AudioOfAppend(pre, post);
    assert AudioOf(pre) + [] == AudioOf(pre);
  }

  lemma AroundIndex<T>(s: seq<T>, i: nat)
    requires i < |s|
    ensures s == s[..i] + [s[i]] + s[i + 1..]
  {
  }

  /** One more chunk: its payload if it is audio, nothing otherwise. */
  lemma AudioOfSnoc(chunks: seq<Chunk>, c: Chunk)
    ensures AudioOf(chunks + [c]) == AudioOf(chunks) + (if c.Audio? then c.data else [])
  {
    AudioOfAppend(chunks, [c]);
    assert [c][1..] == [];
  }

  /** A word-boundary chunk as a timing in whole milliseconds (floor division). */
  function ToBoundary(c: Chunk): (b: Boundary)
    requires c.WordBoundary?
    ensures b.text == c.text
    ensures b.offsetMs * TicksPerMs <= c.offset < (b.offsetMs + 1) * TicksPerMs
    ensures b.durationMs * TicksPerMs <= c.duration < (b.durationMs + 1) * TicksPerMs
  {
    Boundary(c.text, c.offset / TicksPerMs, c.duration / TicksPerMs)
  }

  /** The word-boundary chunks of the stream, in order. */
  function WordBoundaries(chunks: seq<Chunk>): (ws: seq<Chunk>)
    ensures |ws| <= |chunks|
  {
    if |chunks| == 0 then []
    else (if chunks[0].WordBoundary? then [chunks[0]] else []) + WordBoundaries(chunks[1..])
  }

  /** Every selected chunk is a word boundary taken from the stream. */
  lemma {:induction false} WordBoundariesFromStream(chunks: seq<Chunk>)
    ensures forall k :: 0 <= k < |WordBoundaries(chunks)| ==>
      WordBoundaries(chunks)[k].WordBoundary? && WordBoundaries(chunks)[k] in chunks
  {
    if |chunks| > 0 {
      WordBoundariesFromStream(chunks[1..]);
      var head: seq<Chunk> := if chunks[0].WordBoundary? then [chunks[0]] else [];
      var ws, tail := WordBoundaries(chunks), WordBoundaries(chunks[1..]);
      assert ws == head + tail;
      forall k | 0 <= k < |ws| ensures ws[k].WordBoundary? && ws[k] in chunks {
        if k < |head| {
          assert ws[k] == chunks[0];
        } else {
          assert ws[k] == tail[k - |head|];
          assert tail[k - |head|] in chunks[1..];
        }
      }
    }
  }

  /** One timing per word-boundary chunk, in arrival order. */
  function BoundariesOf(chunks: seq<Chunk>): (bs: seq<Boundary>)
    ensures |bs| == |WordBoundaries(chunks)|
  {
    if |chunks| == 0 then []
    else (if chunks[0].WordBoundary? then [ToBoundary(chunks[0])] else []) + BoundariesOf(chunks[1..])
  }

  /** The k-th timing is the k-th word boundary, converted to milliseconds. */
  lemma {:induction false} BoundariesOfTimings(chunks: seq<Chunk>)
    ensures forall k :: 0 <= k < |WordBoundaries(chunks)| ==> WordBoundaries(chunks)[k].WordBoundary?
    ensures forall k :: 0 <= k < |BoundariesOf(chunks)| ==>
      BoundariesOf(chunks)[k] == ToBoundary(WordBoundaries(chunks)[k])
  {
    WordBoundariesFromStream(chunks);
    if |chunks| > 0 {
      BoundariesOfTimings(chunks[1..]);
      var bs, ws := BoundariesOf(chunks), WordBoundaries(chunks);
      var tb, tw := BoundariesOf(chunks[1..]), WordBoundaries(chunks[1..]);
      if chunks[0].WordBoundary? {
        assert bs == [ToBoundary(chunks[0])] + tb && ws == [chunks[0]] + tw;
        forall k | 1 <= k < |bs| ensures bs[k] == ToBoundary(ws[k]) {
          assert bs[k] == tb[k - 1] && ws[k] == tw[k - 1];
        }
      } else {
        assert bs == tb && ws == tw;
      }
    }
  }

  lemma {:induction false} WordBoundariesAppend(a: seq<Chunk>, b: seq<Chunk>)
    ensures WordBoundaries(a + b) == WordBoundaries(a) + WordBoundaries(b)
    ensures BoundariesOf(a + b) == BoundariesOf(a) + BoundariesOf(b)
    decreases |a|
  {
    if |a| > 0 {
      assert (a + b)[1..] == a[1..] + b;
      WordBoundariesAppend(a[1..], b);
    } else {
      assert a + b == b;
    }
  }

  /** One more chunk: its timing if it is a word boundary, nothing otherwise. */
  lemma BoundariesOfSnoc(chunks: seq<Chunk>, c: Chunk)
    ensures BoundariesOf(chunks + [c]) == BoundariesOf(chunks) + (if c.WordBoundary? then [ToBoundary(c)] else [])
  {
    WordBoundariesAppend(chunks, [c]);
    assert [c][1..] == [];
  }

  lemma {:induction false} NoWordBoundaries(chunks: seq<Chunk>)
    requires forall i :: 0 <= i < |chunks| ==> !chunks[i].WordBoundary?
    ensures WordBoundaries(chunks) == [] && BoundariesOf(chunks) == []
  {
    if |chunks| > 0 {
      NoWordBoundaries(chunks[1..]);
    }
  }

  /** The Python loop of `generate_speech`: append each audio payload to a buffer. */
  method StreamAudio(chunks: seq<Chunk>) returns (buffer: seq<byte>)
    ensures buffer == AudioOf(chunks)
  {
    buffer := [];
    var i := 0;
    while i < |chunks|
      invariant 0 <= i <= |chunks|
      invariant buffer == AudioOf(chunks[..i])
    {
      AudioOfSnoc(chunks[..i], chunks[i]);
      assert chunks[..i + 1] == chunks[..i] + [chunks[i]];
      if chunks[i].Audio? {
        buffer := buffer + chunks[i].data;
      }
      i := i + 1;
    }
    assert chunks[..i] == chunks;
  }

  /** The loop of `generate_speech_with_boundaries`: audio into a buffer, boundaries into a list. */
  method StreamWithBoundaries(chunks: seq<Chunk>) returns (buffer: seq<byte>, boundaries: seq<Boundary>)
    ensures buffer == AudioOf(chunks)
    ensures boundaries == BoundariesOf(chunks)
  {
    buffer := [];
    boundaries := [];
    var i := 0;
    while i < |chunks|
      invariant 0 <= i <= |chunks|
      invariant buffer == AudioOf(chunks[..i])
      invariant boundaries == BoundariesOf(chunks[..i])
    {
      AudioOfSnoc(chunks[..i], chunks[i]);
      BoundariesOfSnoc(chunks[..i], chunks[i]);
      assert chunks[..i + 1] == chunks[..i] + [chunks[i]];
      if chunks[i].Audio? {
        buffer := buffer + chunks[i].data;
      } else if chunks[i].WordBoundary? {
        boundaries := boundaries + [ToBoundary(chunks[i])];
      }
      i := i + 1;
    }
    assert chunks[..i] == chunks;
  }

  const EmptyAudio: Fault := Fault(true, "Edge TTS returned empty audio")

  /** `generate_speech`: the audio bytes, or the exception it raises. */
  function GenerateSpeech(run: EngineRun): (r: Result<seq<byte>, Fault>)
    ensures r.Success? <==> run.raised.None? && |AudioOf(run.chunks)| > 0
    ensures r.Success? ==> r.value == AudioOf(run.chunks)
    ensures run.raised.Some? ==> r == Failure(run.raised.value)
    ensures run.raised.None? && r.Failure? ==> r.error == EmptyAudio
  {
    if run.raised.Some? then Failure(run.raised.value)
    else
      var audio := AudioOf(run.chunks);
      if |audio| == 0 then Failure(EmptyAudio) else Success(audio)
  }

  /** `generate_speech_with_boundaries`: audio and timings, or the exception it raises. */
  function GenerateWithBoundaries(run: EngineRun): (r: Result<(seq<byte>, seq<Boundary>), Fault>)
    ensures r.Success? <==> run.raised.None? && |AudioOf(run.chunks)| > 0
    ensures r.Success? ==> r.value == (AudioOf(run.chunks), BoundariesOf(run.chunks))
    ensures run.raised.Some? ==> r == Failure(run.raised.value)
    ensures run.raised.None? && r.Failure? ==> r.error == EmptyAudio
  {
    if run.raised.Some? then Failure(run.raised.value)
    else
      var audio := AudioOf(run.chunks);
      if |audio| == 0 then Failure(EmptyAudio)
      else Success((audio, BoundariesOf(run.chunks)))
  }

  /** Zero audio bytes is a `ValueError` even when word boundaries arrived. */
  lemma EmptyAudioIsValueError(run: EngineRun)
    requires run.raised.None?
    requires forall i :: 0 <= i < |run.chunks| ==> !run.chunks[i].Audio?
    ensures GenerateWithBoundaries(run) == Failure(EmptyAudio)
    ensures EmptyAudio.valueError
  {
    AudioOfEmpty(run.chunks);
  }

  /** The end of the last word, or 0 without words. */
  function TotalDurationMs(bs: seq<Boundary>): int {
    if |bs| == 0 then 0 else bs[|bs| - 1].offsetMs + bs[|bs| - 1].durationMs
  }

  /**
   The total duration is the end of the stream's last word-boundary chunk,
   in whole milliseconds: each of its two tick counts floored separately.
   */
  lemma TotalDurationOfLastWord(chunks: seq<Chunk>, c: Chunk, tail: seq<Chunk>)
    requires c.WordBoundary?
    requires forall i :: 0 <= i < |tail| ==> !tail[i].WordBoundary?
    ensures var t := TotalDurationMs(BoundariesOf(chunks + [c] + tail));
      && t == c.offset / TicksPerMs + c.duration / TicksPerMs
      && t * TicksPerMs <= c.offset + c.duration < t * TicksPerMs + 2 * TicksPerMs
  {
    WordBoundariesAppend(chunks + [c], tail);
    BoundariesOfSnoc(chunks, c);
    NoWordBoundaries(tail);
  }

  lemma TotalDurationNoWords(chunks: seq<Chunk>)
    requires forall i :: 0 <= i < |chunks| ==> !chunks[i].WordBoundary?
    ensures TotalDurationMs(BoundariesOf(chunks)) == 0
  {
    NoWordBoundaries(chunks);
  }

  // ---------------------------------------------------------------------
  // Endpoints

  /** The breadcrumbs lit on entry: the request, and the truncation if any. */
  function EntryTrail(a: Admission): seq<Led> {
    [Light(LedRequestStart)] + (if a.truncated then [Light(LedTextTruncated)] else [])
  }

  /** POST /synthesize */
  function Synthesize(req: SynthesizeRequest, run: EngineRun): (x: Exchange)
    ensures x.calls == [EngineCall(Admit(req.text).text, VoiceOr(req.voice), false)]
    ensures x.response.status in {200, 400, 500}
  {
    var a := Admit(req.text);
    var call := EngineCall(a.text, VoiceOr(req.voice), false);
    match GenerateSpeech(run)
    case Success(audio) =>
      Exchange([call], EntryTrail(a) + [Light(LedApiCallStart), Light(LedAudioGenerated)],
        AudioResponse(audio, "speech.mp3"))
    case Failure(f) =>
      Exchange([call], EntryTrail(a) + [Light(LedApiCallStart), Fail(LedApiError), Fail(LedRequestError)],
        FaultResponse(f, "TTS generation failed"))
  }

  /** POST /synthesize/advisor/{advisorId} */
  function SynthesizeAdvisor(advisorId: string, req: SynthesizeRequest, run: EngineRun): (x: Exchange)
    ensures |x.calls| <= 1
    ensures x.response.status in {200, 400, 500}
  {
    match Get(AdvisorVoices, advisorId)
    case None =>
      Exchange([], [Light(LedRequestStart), Fail(LedRequestError)],
        ErrorResponse(400, UnknownAdvisorDetail(advisorId)))
    case Some(voice) =>
      var a := Admit(req.text);
      var call := EngineCall(a.text, voice, false);
      match GenerateSpeech(run)
      case Success(audio) =>
        Exchange([call], EntryTrail(a) + [Light(LedApiCallStart), Light(LedAudioGenerated)],
          AudioResponse(audio, advisorId + "_speech.mp3"))
      case Failure(f) =>
        Exchange([call], EntryTrail(a) + [Light(LedApiCallStart), Fail(LedApiError), Fail(LedRequestError)],
          FaultResponse(f, "TTS generation failed"))
  }

  /** POST /synthesize/with-boundaries */
  function SynthesizeWithBoundaries(req: SynthesizeRequest, run: EngineRun): (x: Exchange)
    ensures x.calls == [EngineCall(Admit(req.text).text, VoiceOr(req.voice), true)]
    ensures x.response.status in {200, 400, 500}
  {
    var a := Admit(req.text);
    var call := EngineCall(a.text, VoiceOr(req.voice), true);
    match GenerateWithBoundaries(run)
    case Success((audio, bs)) =>
      Exchange([call],
        EntryTrail(a) + [Light(LedWithBoundariesStart), Light(LedWordBoundariesCaptured), Light(LedWithBoundariesSuccess)],
        Response(200, "application/json", [], Envelope(Base64.Encode(audio), bs, TotalDurationMs(bs))))
    case Failure(f) =>
      Exchange([call],
        EntryTrail(a) + [Light(LedWithBoundariesStart), Fail(LedApiError), Fail(LedRequestError)],
        FaultResponse(f, "TTS generation with boundaries failed"))
  }

  /** GET /health */
  function Health(): (r: Response)
    ensures r.status == 200 && r.body.HealthReport?
    ensures r.body.advisors == Keys(AdvisorVoices) && r.body.maxTextLength == MaxTextLength
  {
    Response(200, "application/json", [], HealthReport("ready", "Edge TTS", Keys(AdvisorVoices), MaxTextLength))
  }

  // ---------------------------------------------------------------------
  // Voice list

  predicate IsEnglish(v: VoiceInfo) { StartsWith(v.locale, "en-") }

  function EntryOf(v: VoiceInfo): VoiceEntry {
    VoiceEntry(v.shortName, v.friendlyName, v.gender, v.locale)
  }

  /** The English voices, in the engine's order. */
  function EnglishVoices(vs: seq<VoiceInfo>): (es: seq<VoiceEntry>)
    ensures forall k :: 0 <= k < |es| ==> StartsWith(es[k].locale, "en-")
    ensures forall v :: v in vs && IsEnglish(v) ==> EntryOf(v) in es
  {
    if |vs| == 0 then []
    else
      var rest := EnglishVoices(vs[1..]);
      var head := if IsEnglish(vs[0]) then [EntryOf(vs[0])] else [];
      assert vs == [vs[0]] + vs[1..];
      head + rest
  }

  /** Every listed entry describes an English voice of the input. */
  lemma {:induction false} EnglishVoicesSound(vs: seq<VoiceInfo>, e: VoiceEntry)
    requires e in EnglishVoices(vs)
    ensures exists v :: v in vs && IsEnglish(v) && EntryOf(v) == e
  {
    assert |vs| > 0;
    var head := if IsEnglish(vs[0]) then [EntryOf(vs[0])] else [];
    assert EnglishVoices(vs) == head + EnglishVoices(vs[1..]);
    if e in head {
      assert vs[0] in vs;
    } else {
      EnglishVoicesSound(vs[1..], e);
      var v :| v in vs[1..] && IsEnglish(v) && EntryOf(v) == e;
      assert v in vs;
    }
  }

  /** GET /voices: `None` when the engine's voice list could not be fetched. */
  function ListVoices(fetched: Option<seq<VoiceInfo>>): (r: Response)
    ensures fetched.None? ==> r == ErrorResponse(500, "Failed to fetch voice list")
    ensures fetched.Some? ==> r.status == 200 && r.body.VoiceList? && r.body.advisorVoices == AdvisorVoices
  {
    match fetched
    case None => ErrorResponse(500, "Failed to fetch voice list")
    case Some(vs) =>
      var es := EnglishVoices(vs);
      Response(200, "application/json", [],
        VoiceList(AdvisorVoices, if |es| <= 20 then es else es[..20]))
  }

  /** The list holds the first twenty English voices, or all of them when there are fewer. */
  lemma ListVoicesFirstTwenty(vs: seq<VoiceInfo>)
    ensures var avail := ListVoices(Some(vs)).body.availableVoices;
      && |avail| <= 20
      && avail == EnglishVoices(vs)[..|avail|]
      && (|EnglishVoices(vs)| <= 20 ==> avail == EnglishVoices(vs))
      && forall k :: 0 <= k < |avail| ==> StartsWith(avail[k].locale, "en-")
  {
  }

  // ---------------------------------------------------------------------
  // The unknown-advisor detail, with Python's list rendering

  /** Python `repr` of a string holding no quote, backslash or control character. */
  function QuoteRepr(s: string): string {
    "'" + s + "'"
  }

  function QuotedAll(ks: seq<string>): (qs: seq<string>)
    ensures |qs| == |ks|
    ensures forall i :: 0 <= i < |ks| ==> qs[i] == QuoteRepr(ks[i])
  {
    seq(|ks|, i requires 0 <= i < |ks| => QuoteRepr(ks[i]))
  }

  /** Python `str(list)` of a list of plain strings. */
  function ListRepr(ks: seq<string>): (r: string)
    ensures StartsWith(r, "[") && EndsWith(r, "]")
    ensures forall i :: 0 <= i < |ks| ==> Contains(r, QuoteRepr(ks[i]))
  {
    var body := Join(QuotedAll(ks), ", ");
    forall i | 0 <= i < |ks|
      ensures Contains("[" + body + "]", QuoteRepr(ks[i]))
    {
      JoinContainsPart(QuotedAll(ks), ", ", i);
      ContainsWithin("[", body, "]", QuoteRepr(ks[i]));
    }
    "[" + body + "]"
  }

  function UnknownAdvisorDetail(advisorId: string): string {
    DetailListing(advisorId, Keys(AdvisorVoices))
  }

  function DetailListing(advisorId: string, ks: seq<string>): string {
    "Unknown advisor '" + advisorId + "'" + ". Available: " + ListRepr(ks)
  }

  // ---------------------------------------------------------------------
  // Properties of the endpoints

  /** Every registry key has a non-empty voice; the short and full advisor ids agree. */
  lemma AdvisorRegistry()
    ensures DistinctKeys(AdvisorVoices)
    ensures forall k :: k in Keys(AdvisorVoices) ==> Get(AdvisorVoices, k).Some? && |Get(AdvisorVoices, k).value| > 0
    ensures Get(AdvisorVoices, "zen") == Get(AdvisorVoices, "zen-master") == Some(DefaultVoice)
    ensures Get(AdvisorVoices, "business") == Get(AdvisorVoices, "business-advisor") == Some("en-US-ChristopherNeural")
  {
    RegistryDistinct();
    RegistryVoicesNonEmpty();
    GetEntry(AdvisorVoices, 0);
    GetEntry(AdvisorVoices, 1);
    GetEntry(AdvisorVoices, 5);
    GetEntry(AdvisorVoices, 6);
  }

  lemma RegistryDistinct()
    ensures DistinctKeys(AdvisorVoices)
  {
  }

  lemma RegistryVoicesNonEmpty()
    ensures forall k :: k in Keys(AdvisorVoices) ==> Get(AdvisorVoices, k).Some? && |Get(AdvisorVoices, k).value| > 0
  {
    var reg := AdvisorVoices;
    assert forall i :: 0 <= i < |reg| ==> |reg[i].1| > 0;
    forall k | k in Keys(reg)
      ensures Get(reg, k).Some? && |Get(reg, k).value| > 0
    {
      var v := Get(reg, k).value;
      assert (k, v) in reg;
    }
  }

  /** The unknown-advisor detail names the id and quotes every registry key. */
  lemma UnknownAdvisorDetailLists(advisorId: string)
    ensures var d := UnknownAdvisorDetail(advisorId);
      && StartsWith(d, "Unknown advisor '" + advisorId + "'")
      && forall k :: k in Keys(AdvisorVoices) ==> Contains(d, QuoteRepr(k))
  {
    DetailListingLists(advisorId, Keys(AdvisorVoices));
  }

  lemma DetailListingLists(advisorId: string, ks: seq<string>)
    ensures var d := DetailListing(advisorId, ks);
      && StartsWith(d, "Unknown advisor '" + advisorId + "'")
      && forall k :: k in ks ==> Contains(d, QuoteRepr(k))
  {
    var head := "Unknown advisor '" + advisorId + "'";
    var intro := head + ". Available: ";
    var listing := ListRepr(ks);
    assert StartsWith(head, head);
    StartsWithAppend(head, ". Available: ", head);
    StartsWithAppend(intro, listing, head);
    forall k | k in ks
      ensures Contains(intro + listing, QuoteRepr(k))
    {
      var i :| 0 <= i < |ks| && ks[i] == k;
      ContainsAfter(intro, listing, QuoteRepr(k));
    }
  }



  /**
   An unknown advisor is answered with 400 naming every registry key, before
   any truncation breadcrumb and without calling the engine.
   */
  lemma UnknownAdvisorRejected(advisorId: string, req: SynthesizeRequest, run: EngineRun)
    requires advisorId !in Keys(AdvisorVoices)
    ensures var x := SynthesizeAdvisor(advisorId, req, run);
      && x.calls == []
      && x.trail == [Light(LedRequestStart), Fail(LedRequestError)]
      && x.response == ErrorResponse(400, UnknownAdvisorDetail(advisorId))
  {
    assert Get(AdvisorVoices, advisorId).None?;
  }

  /**
   A known advisor synthesizes the admitted text with its registry voice and
   answers as `/synthesize` does: 200 with the audio, its byte count and a
   file named after the advisor; 400 for a `ValueError` or empty audio; 500
   otherwise.
   */
  lemma KnownAdvisorRouted(advisorId: string, req: SynthesizeRequest, run: EngineRun)
    requires advisorId in Keys(AdvisorVoices)
    ensures var x := SynthesizeAdvisor(advisorId, req, run);
      && x.calls == [EngineCall(Admit(req.text).text, Get(AdvisorVoices, advisorId).value, false)]
      && (x.response.status == 200 <==> run.raised.None? && |AudioOf(run.chunks)| > 0)
      && (x.response.status == 200 ==>
            && x.response.body == RawAudio(AudioOf(run.chunks)) && x.response.mediaType == "audio/mpeg"
            && Header(x.response, "Content-Disposition") == Some("inline; filename=\"" + (advisorId + "_speech.mp3") + "\"")
            && Header(x.response, "Content-Length").Some?
            && ParseInt(Header(x.response, "Content-Length").value, Ten) == Some(|AudioOf(run.chunks)|))
      && (x.response.status == 400 <==>
            if run.raised.Some? then run.raised.value.valueError else |AudioOf(run.chunks)| == 0)
      && (x.response.status == 400 && run.raised.None? ==> x.response.body == ErrorDetail("Edge TTS returned empty audio"))
      && (x.response.status == 500 ==> x.response.body == ErrorDetail("TTS generation failed"))
      && (x.response.status != 200 ==> x.response.body.ErrorDetail?)
  {
    var voice := Get(AdvisorVoices, advisorId).value;
    var x := SynthesizeAdvisor(advisorId, req, run);
    match GenerateSpeech(run)
    case Success(audio) =>
      assert x.response == AudioResponse(audio, advisorId + "_speech.mp3");
      ParseIntOfIntToString(|audio|, Ten);
    case Failure(f) =>
      assert x.response == FaultResponse(f, "TTS generation failed");
  }

  /** The status of the audio endpoints: 200 with the audio, 400 for a `ValueError`, 500 otherwise. */
  lemma SynthesizeOutcome(req: SynthesizeRequest, run: EngineRun)
    ensures var r := Synthesize(req, run).response;
      && (r.status == 200 <==> run.raised.None? && |AudioOf(run.chunks)| > 0)
      && (r.status == 200 ==> r.body == RawAudio(AudioOf(run.chunks)) && r.mediaType == "audio/mpeg")
      && (r.status == 200 ==> Header(r, "Content-Disposition") == Some("inline; filename=\"speech.mp3\""))
      && (r.status == 400 <==> if run.raised.Some? then run.raised.value.valueError else |AudioOf(run.chunks)| == 0)
      && (r.status == 400 && run.raised.None? ==> r.body == ErrorDetail("Edge TTS returned empty audio"))
      && (r.status == 500 ==> r.body == ErrorDetail("TTS generation failed"))
      && (r.status != 200 ==> r.body.ErrorDetail?)
  {
    var r := Synthesize(req, run).response;
    match GenerateSpeech(run)
    case Success(audio) =>
      assert r == AudioResponse(audio, "speech.mp3");
      assert "inline; filename=\"" + "speech.mp3" + "\"" == "inline; filename=\"speech.mp3\"";
    case Failure(f) =>
      assert r == FaultResponse(f, "TTS generation failed");
  }

  /** A successful audio response declares its byte count, which reads back as that number. */
  lemma ContentLengthIsByteCount(req: SynthesizeRequest, run: EngineRun)
    requires Synthesize(req, run).response.status == 200
    ensures var r := Synthesize(req, run).response;
      && r.body.RawAudio?
      && Header(r, "Content-Length").Some?
      && ParseInt(Header(r, "Content-Length").value, Ten) == Some(|r.body.bytes|)
  {
    var audio := AudioOf(run.chunks);
    ParseIntOfIntToString(|audio|, Ten);
  }

  /** The JSON envelope: the base 64 of the audio, the fold's timings unchanged, and their end. */
  lemma WithBoundariesEnvelope(req: SynthesizeRequest, run: EngineRun)
    ensures var r := SynthesizeWithBoundaries(req, run).response;
      && (r.status == 200 <==> run.raised.None? && |AudioOf(run.chunks)| > 0)
      && (r.status == 200 ==>
            && r.body.Envelope?
            && Base64.Decode(r.body.audio) == Some(AudioOf(run.chunks))
            && r.body.wordBoundaries == BoundariesOf(run.chunks)
            && r.body.totalDurationMs == TotalDurationMs(BoundariesOf(run.chunks)))
      && (r.status == 400 <==> if run.raised.Some? then run.raised.value.valueError else |AudioOf(run.chunks)| == 0)
      && (r.status == 500 ==> r.body == ErrorDetail("TTS generation with boundaries failed"))
      && (r.status != 200 ==> r.body.ErrorDetail?)
  {
    if run.raised.None? && |AudioOf(run.chunks)| > 0 {
      Base64.DecodeEncode(AudioOf(run.chunks));
    }
  }

  function CountLed(trail: seq<Led>, led: Led): nat {
    if |trail| == 0 then 0 else (if trail[0] == led then 1 else 0) + CountLed(trail[1..], led)
  }

  lemma {:induction false} CountLedAppend(a: seq<Led>, b: seq<Led>, led: Led)
    ensures CountLed(a + b, led) == CountLed(a, led) + CountLed(b, led)
    decreases |a|
  {
    if |a| > 0 {
      assert (a + b)[1..] == a[1..] + b;
      CountLedAppend(a[1..], b, led);
    } else {
      assert a + b == b;
    }
  }

  lemma EntryTrailTruncation(a: Admission, tail: seq<Led>)
    requires Light(LedTextTruncated) !in tail
    ensures CountLed(EntryTrail(a) + tail, Light(LedTextTruncated)) == if a.truncated then 1 else 0
  {
    CountLedAppend(EntryTrail(a), tail, Light(LedTextTruncated));
    if CountLed(tail, Light(LedTextTruncated)) > 0 {
      CountLedAbsent(tail, Light(LedTextTruncated));
    }
    assert [Light(LedRequestStart)][1..] == [];
    assert [Light(LedRequestStart), Light(LedTextTruncated)][1..] == [Light(LedTextTruncated)];
  }

  lemma {:induction false} CountLedAbsent(trail: seq<Led>, led: Led)
    requires led !in trail
    ensures CountLed(trail, led) == 0
  {
    if |trail| > 0 {
      assert trail == [trail[0]] + trail[1..];
      CountLedAbsent(trail[1..], led);
    }
  }

  /** Each text endpoint lights the truncation breadcrumb exactly once for text over the limit, else never. */
  lemma TruncationLitOnce(req: SynthesizeRequest, run: EngineRun, advisorId: string)
    ensures CountLed(Synthesize(req, run).trail, Light(LedTextTruncated)) == if |req.text| > MaxTextLength then 1 else 0
    ensures CountLed(SynthesizeWithBoundaries(req, run).trail, Light(LedTextTruncated)) == if |req.text| > MaxTextLength then 1 else 0
    ensures advisorId in Keys(AdvisorVoices) ==>
      CountLed(SynthesizeAdvisor(advisorId, req, run).trail, Light(LedTextTruncated)) == if |req.text| > MaxTextLength then 1 else 0
  {
    var a := Admit(req.text);
    EntryTrailTruncation(a, [Light(LedApiCallStart), Light(LedAudioGenerated)]);
    EntryTrailTruncation(a, [Light(LedApiCallStart), Fail(LedApiError), Fail(LedRequestError)]);
    EntryTrailTruncation(a, [Light(LedWithBoundariesStart), Light(LedWordBoundariesCaptured), Light(LedWithBoundariesSuccess)]);
    EntryTrailTruncation(a, [Light(LedWithBoundariesStart), Fail(LedApiError), Fail(LedRequestError)]);
  }
}
