# Liquid Stories: a Dafny model of its servers, controllers and storybook tools

Liquid Stories is an interactive picture-book project. It has three parts:

- Two speech servers (`Voice-Type/`):
  - an Edge-TTS server that turns text into MP3 audio, optionally with word timings;
  - a Qwen3-TTS server with the same endpoints.
- Front-end controllers for the story pages (`V5/`, `V6/js/`, `V7/`):
  - the stage controller and the callback registries;
  - device detection and the device redirects;
  - the image cache and the mouse and touch handler;
  - the stage timeline.
- Python tools (`V13/`):
  - one generates a storybook's HTML pages from a template and a configuration;
  - two protect the pages for publishing by moving the image paths, adding a protection script and minifying.

This project models each of those parts in Dafny:

- Each server endpoint is a pure function. It takes the request and the result of the engine run, which is a parameter, and returns the response.
- Each front-end method is a step from one controller state to the next. Clocks, the browser's readings and event objects are parameters.
- Each storybook tool is a transformation of strings, and of folders seen as maps from file names to contents. JSON reading and writing are parameters.

One module models each source file:

- `EdgeTts`, `QwenTts`;
- `StoryController`, `Callbacks`;
- `DeviceDetector`, `StageRouter` (V7 device detector), `DeviceRedirect` (V5 device detector);
- `ImageLoader`, `InteractionHandler`, `Timeline`;
- `Storybook`, `SimpleObfuscate`, `Obfuscate`.

Shared modules:

- `AssetPaths`: the image-path rewrite and the protection script, common to both obfuscators.
- `PageScan`: a page read as the statement rewrite reads it, a run of copied characters and whole statements, on which the corrected rewrite is shown to be idempotent.
- `Minify`: the whitespace rewrites.
- `Base64`: section 4 of RFC 4648.
- `Strings`, `OrderedMap`, `Wrappers`: helpers.

## Model

| member | source | states |
|---|---|---|
| EdgeTts.FaultResponse | Voice-Type/tts_edge_server.py:312-317 | a `ValueError` becomes a 400 carrying its own message; any other exception becomes a 500 with the endpoint's generic detail |
| EdgeTts.AudioResponse | Voice-Type/tts_edge_server.py:303-310 | a 200 whose body is the audio, whose Content-Length header is the decimal byte count and whose Content-Disposition names the file inline |
| EdgeTts.Admit | Voice-Type/tts_edge_server.py:287-294 | the text sent on is a prefix of the request text of at most 5000 characters; it is truncated exactly when the request exceeds 5000, and then it is exactly 5000 long |
| EdgeTts.VoiceOr | Voice-Type/tts_edge_server.py:296-297 | an absent or empty voice becomes "en-US-GuyNeural"; any other voice is kept; the result is never empty |
| EdgeTts.AudioOfEmpty | Voice-Type/tts_edge_server.py:145-152 | the stream yields no audio exactly when every audio chunk is empty |
| EdgeTts.AudioOfAppend | Voice-Type/tts_edge_server.py:145-149 | the audio of two streams in a row is the audio of the first followed by the audio of the second |
| EdgeTts.AudioOfDropNonAudio | Voice-Type/tts_edge_server.py:145-147 | dropping a chunk that is not audio leaves the audio unchanged |
| EdgeTts.ToBoundary | Voice-Type/tts_edge_server.py:198-204 | a word boundary keeps its text; its offset and duration in milliseconds are the floor of the tick counts divided by 10000 (bounded from both sides) |
| EdgeTts.WordBoundariesFromStream | Voice-Type/tts_edge_server.py:195-204 | every selected chunk is a word-boundary chunk taken from the stream |
| EdgeTts.WordBoundaries | Voice-Type/tts_edge_server.py:195-204 | no more chunks are selected than the stream holds |
| EdgeTts.BoundariesOf | Voice-Type/tts_edge_server.py:195-204 | one timing per selected word-boundary chunk |
| EdgeTts.BoundariesOfTimings | Voice-Type/tts_edge_server.py:195-204 | the k-th timing is the k-th word-boundary chunk converted to milliseconds, one timing per boundary chunk |
| EdgeTts.WordBoundariesAppend | Voice-Type/tts_edge_server.py:195-204 | boundary selection and timing conversion distribute over concatenated streams |
| EdgeTts.NoWordBoundaries | Voice-Type/tts_edge_server.py:195-204 | a stream without word-boundary chunks yields no timings |
| EdgeTts.StreamAudio | Voice-Type/tts_edge_server.py:142-149 | the loop's buffer is exactly the audio payloads of the stream, in order |
| EdgeTts.StreamWithBoundaries | Voice-Type/tts_edge_server.py:191-206 | the loop's buffer is the audio payloads and its list is the converted word boundaries, both in stream order |
| EdgeTts.GenerateSpeech | Voice-Type/tts_edge_server.py:118-163 | succeeds exactly when the engine raised nothing and some audio arrived, returning that audio; an engine fault is passed through; otherwise the `ValueError` "Edge TTS returned empty audio" |
| EdgeTts.GenerateWithBoundaries | Voice-Type/tts_edge_server.py:166-221 | as for plain speech, and on success also returns the stream's timings |
| EdgeTts.EmptyAudioIsValueError | Voice-Type/tts_edge_server.py:206-209 | a stream with word boundaries but no audio chunk is still the empty-audio `ValueError` |
| EdgeTts.TotalDurationOfLastWord | Voice-Type/tts_edge_server.py:420-424 | the total duration is the last word's offset plus duration, each floored to milliseconds, so it is at most two milliseconds short of the true end |
| EdgeTts.TotalDurationNoWords | Voice-Type/tts_edge_server.py:421-422 | without words the total duration is 0 |
| EdgeTts.Synthesize | Voice-Type/tts_edge_server.py:270-317 | the engine is called once, with the admitted text and the chosen voice and without boundaries; the status is 200, 400 or 500 |
| EdgeTts.SynthesizeAdvisor | Voice-Type/tts_edge_server.py:320-377 | at most one engine call; the status is 200, 400 or 500; the unknown and known advisor cases are in UnknownAdvisorRejected and KnownAdvisorRouted |
| EdgeTts.SynthesizeWithBoundaries | Voice-Type/tts_edge_server.py:380-443 | the engine is called once, with the admitted text, the chosen voice and boundaries requested; the status is 200, 400 or 500 |
| EdgeTts.Health | Voice-Type/tts_edge_server.py:231-239 | a 200 listing the advisor ids in registry order and the 5000-character limit |
| EdgeTts.EnglishVoices | Voice-Type/tts_edge_server.py:250-259 | every entry has an "en-" locale, and every English voice of the input appears |
| EdgeTts.EnglishVoicesSound | Voice-Type/tts_edge_server.py:250-259 | every listed entry describes an English voice of the input |
| EdgeTts.ListVoices | Voice-Type/tts_edge_server.py:242-267 | a failed fetch is a 500 "Failed to fetch voice list"; otherwise a 200 carrying the advisor registry |
| EdgeTts.ListVoicesFirstTwenty | Voice-Type/tts_edge_server.py:261-264 | the list holds the first twenty English voices, or all of them when there are fewer |
| EdgeTts.QuotedAll | Voice-Type/tts_edge_server.py:342 | each advisor key is rendered in Python's quoted form, one per key |
| EdgeTts.ListRepr | Voice-Type/tts_edge_server.py:342 | the rendered list is bracketed and contains every quoted key |
| EdgeTts.AdvisorRegistry | Voice-Type/tts_edge_server.py:90-103 | the keys are distinct, every key has a non-empty voice, and the short and long ids of zen and business name the same voice |
| EdgeTts.UnknownAdvisorDetailLists | Voice-Type/tts_edge_server.py:342 | the unknown-advisor detail starts with the quoted id and contains every registry key in quoted form |
| EdgeTts.UnknownAdvisorRejected | Voice-Type/tts_edge_server.py:338-343 | an unknown advisor is a 400 with that detail, no engine call, and the request and error breadcrumbs only |
| EdgeTts.KnownAdvisorRouted | Voice-Type/tts_edge_server.py:345-377 | a known advisor synthesizes the admitted text with its registry voice; the status is 200 exactly when audio arrived, with the audio as `audio/mpeg`, a Content-Length that reads back as its byte count and the file `{advisorId}_speech.mp3`; 400 for a `ValueError` or empty audio; 500 with "TTS generation failed" otherwise |
| EdgeTts.SynthesizeOutcome | Voice-Type/tts_edge_server.py:270-317 | 200 with MP3 audio exactly when the engine raised nothing and audio arrived; 400 exactly for a `ValueError` or empty audio; 500 otherwise with "TTS generation failed" |
| EdgeTts.ContentLengthIsByteCount | Voice-Type/tts_edge_server.py:303-310 | the Content-Length of a success reads back as the byte count of the body |
| EdgeTts.WithBoundariesEnvelope | Voice-Type/tts_edge_server.py:380-443 | a success carries base 64 that decodes back to the stream's audio, the stream's timings unchanged, and their end; the error statuses as for plain synthesis |
| EdgeTts.CountLedAppend | Voice-Type/tts_edge_server.py:56-64 | breadcrumb counts add up over concatenated trails |
| EdgeTts.EntryTrailTruncation | Voice-Type/tts_edge_server.py:287-294 | the entry trail lights the truncation breadcrumb once for text over the limit and never otherwise |
| EdgeTts.TruncationLitOnce | Voice-Type/tts_edge_server.py:287-294 | every text endpoint lights the truncation breadcrumb exactly once for text over 5000 characters and never otherwise, whatever the engine does |
| QwenTts.MakeRequest | Voice-Type/tts_server.py:47-51 | the text and the instruct are kept as given; an omitted language becomes "English" |
| QwenTts.InstructOr | Voice-Type/tts_server.py:104-105 | an absent or empty description becomes the default English voice description; any other is kept |
| QwenTts.Clamp | Voice-Type/tts_server.py:101-102 | a prefix of the text of at most 5000 characters, equal to the text when it fits and exactly 5000 long otherwise |
| QwenTts.Synthesize | Voice-Type/tts_server.py:84-132 | at most one model call; the status is 200, 400 or 500 |
| QwenTts.SynthesizeAdvisor | Voice-Type/tts_server.py:135-160 | at most one model call; the status is 200, 400, 404 or 500 |
| QwenTts.ListVoices | Voice-Type/tts_server.py:163-176 | a 200 carrying the five advisor profiles |
| QwenTts.Health | Voice-Type/tts_server.py:179-186 | a 200 whose model-loaded flag is whether startup produced a model |
| QwenTts.EmptyTextRejected | Voice-Type/tts_server.py:98-99 | empty text is a 400 "Text required" and the model is never called |
| QwenTts.SynthesizeCallsModel | Voice-Type/tts_server.py:101-132 | non-empty text calls the model once with the clamped text, the language and the description; a result is a WAV 200 with the inline file name, an exception a 500 carrying its message |
| QwenTts.AdvisorProfilesWellFormed | Voice-Type/tts_server.py:55-81 | the profile keys are distinct and each has a non-empty description |
| QwenTts.UnknownAdvisorNotFound | Voice-Type/tts_server.py:150-156 | an unknown advisor is a 404 naming it and every key joined by ", ", without a model call |
| QwenTts.KnownAdvisorUsesProfile | Voice-Type/tts_server.py:158-160 | a known advisor behaves as plain synthesis with the instruct replaced by its profile description |
| Base64.Encode | Voice-Type/tts_edge_server.py:417-418 | the standard padded encoding has four characters for every started group of three octets |
| Base64.EncodeAlphabet | Voice-Type/tts_edge_server.py:417-418 | an encoding is made only of alphabet characters and padding |
| Base64.DecodeEncode | Voice-Type/tts_edge_server.py:417-418 | decoding the encoding of any octets gives those octets back, so the JSON audio field carries the audio losslessly |
| Base64.LastOctet | Voice-Type/tts_edge_server.py:417-418 | a lone final octet encodes to the characters of its top six bits and of its low two bits followed by four zero bits, then two pads |
| Base64.OneOctet | Voice-Type/tts_edge_server.py:417-418 | the octet "f" encodes to "Zg==", as in the test vectors of section 10 of RFC 4648 |
| Base64.TwoOctets | Voice-Type/tts_edge_server.py:417-418 | "fo" encodes to "Zm8=", as in the RFC 4648 test vectors |
| Base64.ThreeOctets | Voice-Type/tts_edge_server.py:417-418 | "foo" encodes to "Zm9v": the alphabet and most-significant-bit-first order of RFC 4648 |
| Base64.SixOctets | Voice-Type/tts_edge_server.py:417-418 | "foobar" encodes to "Zm9vYmFy": the groups are written in order |
| Base64.Decode | Voice-Type/tts_edge_server.py:417-418 | a decodable text has a length that is a multiple of four, and gives at most three octets per group of four and more than three per group but the last |
| Callbacks.Empty | V6/js/story-controller.js:82-88 | a registry holding exactly the given event names, each with no callback |
| Callbacks.EmptyListeners | V6/js/story-controller.js:82-88 | a fresh registry holds no callback for any event name |
| Callbacks.IndexOf | V6/js/story-controller.js:518-525 | the position of the first occurrence, or None exactly when the callback is absent |
| Callbacks.RemoveFirst | V6/js/story-controller.js:518-525 | an absent callback leaves the list as it is; a present one has its first occurrence cut out and nothing else |
| Callbacks.On | V6/js/story-controller.js:507-511 | an unregistered name that a plain object inherits (such as "constructor") makes `push` throw its TypeError, and only such a name fails; otherwise the event names never change, and an unknown event name changes nothing |
| Callbacks.Off | V6/js/story-controller.js:518-525 | an unregistered inherited name makes `indexOf` throw its TypeError, and only such a name fails; otherwise the event names never change, and an unknown event name changes nothing |
| Callbacks.OnListeners | V6/js/interaction-handler.js:493-497 | `on` appends the callback to its event's list when the event is known and leaves every other event's list alone |
| Callbacks.OffListeners | V6/js/interaction-handler.js:504-511 | `off` removes the first registration of the callback from its event's list and leaves every other event's list alone |
| Callbacks.OffUndoesOn | V6/js/story-controller.js:507-525 | `off` undoes an `on` of a callback that was not yet registered for that event |
| StoryController.MakeConfig | V6/js/story-controller.js:8-15 | each option left out takes its default (500 ms, URL persistence on, progress tracking on, no auto advance, 10000 ms); each option given is kept as given, even a falsy one |
| StoryController.StageDataOf | V6/js/story-controller.js:304-306 | found exactly for ids 1 to 5, and then it is the table entry carrying that id |
| StoryController.StagesTable | V6/js/story-controller.js:18-63 | five stages with ids 1 to 5 in order, whose stored percentages are 25 per stage passed |
| StoryController.ProgressPercentage | V6/js/story-controller.js:337-339 | the percentage is 25 per stage passed; on a valid state it lies in [0, 100] and agrees with the current stage's stored percentage |
| StoryController.StageFromUrl | V6/js/story-controller.js:436-453 | a non-empty parameter whose decimal value is a stage of the table replaces the current stage; any other keeps it |
| StoryController.Init | V6/js/story-controller.js:97-111 | the controller starts ready, not transitioning, on a valid stage, and triggers one stage-start event; without URL persistence or a parameter the stage is 1 |
| StoryController.Begin | V6/js/story-controller.js:142-193 | an out-of-range target is refused, the current stage accepted at once, a change during a transition refused; otherwise the stage becomes the target with progress 0 and the transition flag set |
| StoryController.Finish | V6/js/story-controller.js:196-218 | after the wait only the transition flag is cleared |
| StoryController.GoToStage | V6/js/story-controller.js:142-193 | accepted exactly for a target in 1 to 5 that is the current stage or comes while no transition runs; a refused call changes nothing and triggers nothing; an accepted one ends on the target, keeps the options and callbacks, and keeps the state valid |
| StoryController.GoToNextStage | V6/js/story-controller.js:225-233 | at the last stage the call is refused and changes nothing |
| StoryController.GoToPreviousStage | V6/js/story-controller.js:239-247 | at the first stage the call is refused and changes nothing |
| StoryController.Reset | V6/js/story-controller.js:253-256 | accepted exactly when already on stage 1 or while no transition runs, and then it ends on stage 1; a refused reset changes nothing |
| StoryController.UpdateInteractionProgress | V6/js/story-controller.js:292-297 | with tracking off nothing changes; otherwise the progress is clamped into [0, 1], kept when already inside, and nothing else changes |
| StoryController.On | V6/js/story-controller.js:507-511 | fails exactly for an unregistered inherited name; otherwise only the callbacks change, no event name is added or removed, and a registered event gets the callback at the end of its list |
| StoryController.Off | V6/js/story-controller.js:518-525 | fails exactly for an unregistered inherited name; otherwise only the callbacks change, no event name is added or removed, and the event loses the first registration of the callback |
| StoryController.OutOfRangeRefused | V6/js/story-controller.js:143-146 | a target outside 1 to 5 is refused, changes nothing and triggers nothing |
| StoryController.SameStageAccepted | V6/js/story-controller.js:148-151 | the current stage is accepted without a transition and without events |
| StoryController.RefusedWhileTransitioning | V6/js/story-controller.js:153-156 | a change while another is in flight is refused and changes nothing |
| StoryController.SuccessfulTransition | V6/js/story-controller.js:161-218 | an accepted change ends on the target with progress 0, the transition over and the rest of the state kept; the events are transition start, stage complete, transition complete, stage start, and story complete exactly when the target is the last stage |
| StoryController.GoToStagePreservesValid | V6/js/story-controller.js:142-256 | every stage change, next, previous and reset keeps the stage in the table and the progress in [0, 1] |
| StoryController.UpdatePreservesValid | V6/js/story-controller.js:292-297 | progress updates and callback registration keep the state valid |
| StoryController.NextAndPrevious | V6/js/story-controller.js:225-247 | next succeeds exactly below the last stage and then moves up by one; previous succeeds exactly above the first and then moves down by one |
| StoryController.UrlRoundTrip | V6/js/story-controller.js:436-468 | with persistence on, an accepted change writes the target into the URL, and a controller started from that URL begins on the target |
| StoryController.StoryCompleteOnlyOnEntry | V6/js/story-controller.js:214-216 | a call that is refused or stays put triggers no story-complete event and does not change whether the story is complete |
| DeviceDetector.GetDeviceType | V6/js/device-detector.js:78-129 | tablet exactly when the tablet test holds; mobile exactly when it fails and the phone test holds; desktop exactly when both fail |
| DeviceDetector.IsMobile | V6/js/device-detector.js:97-110 | a phone needs a mobile keyword, touch support and a screen narrower than 768 |
| DeviceDetector.IsTablet | V6/js/device-detector.js:116-129 | an agent with "iPad" is a tablet, and so is a touch device with a screen in [768, 1024); without touch a tablet is exactly an agent with "iPad" or a tablet keyword |
| DeviceDetector.FirstRuleMeaning | V6/js/device-detector.js:596-630 | a rule table yields the default when no rule fires, and otherwise the result of the first rule that fires |
| DeviceDetector.OperatingSystem | V6/js/device-detector.js:596-606 | one of the six names, and "Unknown" exactly when none of the six tokens appears |
| DeviceDetector.BrowserName | V6/js/device-detector.js:608-617 | one of the seven names, and "Unknown" exactly when none of the seven tokens appears |
| DeviceDetector.BrowserEngine | V6/js/device-detector.js:624-630 | one of the five names, and "Unknown" exactly when none of the four tokens appears |
| DeviceDetector.OperatingSystemIsFirstMatch | V6/js/device-detector.js:596-606 | the operating-system if-chain is the first-match reading of its rule table |
| DeviceDetector.BrowserNameIsFirstMatch | V6/js/device-detector.js:608-617 | the browser-name if-chain of the method defined last in the class is the first-match reading of its rule table |
| DeviceDetector.BrowserEngineIsFirstMatch | V6/js/device-detector.js:624-630 | the engine if-chain is the first-match reading of its rule table |
| DeviceDetector.TokenAt | V6/js/device-detector.js:619-622 | a token found at a position is one of the seven alternatives followed there by a slash and a digit; none is found exactly when no alternative matches there |
| DeviceDetector.FirstVersionMatch | V6/js/device-detector.js:619-622 | the leftmost position at or after the start where the pattern matches, with nothing matching before it; None when nothing matches |
| DeviceDetector.BrowserVersion | V6/js/device-detector.js:619-622 | a non-empty run of digits, or "Unknown" exactly when the pattern matches nowhere |
| DeviceDetector.CoresOr | V6/js/device-detector.js:283-284 | an absent or zero core count falls back to 4, so the reading is positive |
| DeviceDetector.MemoryOr | V6/js/device-detector.js:286-287 | an absent or zero memory reading falls back to 4, so the reading is non-zero |
| DeviceDetector.ProfileOf | V6/js/device-detector.js:297-300 | high exactly from a score of 150, medium exactly in [80, 150), low exactly below 80 |
| DeviceDetector.PerformanceProfile | V6/js/device-detector.js:280-301 | a device without touch with at least four cores and 4 GB is high; a touch device with one core and at most 1 GB is low |
| DeviceDetector.ProfileMonotone | V6/js/device-detector.js:280-301 | a higher score never yields a lower profile |
| DeviceDetector.DefaultReadingsProfile | V6/js/device-detector.js:280-301 | with both hardware readings absent, a device without touch is high, and a touch device is never low and is high exactly from a width of 1500 |
| DeviceDetector.MoreCoresNeverLower | V6/js/device-detector.js:280-301 | more cores, everything else equal, never lower the profile |
| DeviceDetector.Recommended | V6/js/device-detector.js:309-329 | the damping is always 0.98 and the velocity cap is 3 on phones and 5 elsewhere |
| DeviceDetector.RecommendedTable | V6/js/device-detector.js:309-329 | particles are 5000 or 10000 scaled by 0.6, 1 or 1.2 and floored; the radius is 120, 150 or 165; the frame rate is 30 or 60, cut by 0.7 on low; desktop has twice the phone's particles; a better profile never has fewer particles or a smaller radius |
| DeviceDetector.Detect | V6/js/device-detector.js:25-72 | exactly one of the mobile, tablet and desktop flags is set, the one naming the detected type, and the recommended settings are those of that type and profile |
| DeviceDetector.PerformanceSettingsByType | V6/js/device-detector.js:399-433 | phones get 5000 particles at 30 fps without trails, tablets 7500 at 45 fps with trails, desktops 10000 at 60 fps in maximum quality |
| DeviceDetector.IPadIsTablet | V6/js/device-detector.js:107-129 | any agent containing "iPad" is a tablet and never a phone |
| DeviceDetector.MobileConditions | V6/js/device-detector.js:97-110 | a phone exactly when a mobile keyword appears, "iPad" does not, touch is supported and the screen is narrower than 768 |
| DeviceDetector.TouchTablet | V6/js/device-detector.js:116-129 | a touch device with a screen in [768, 1024), or whose agent says "Mac" without "iPhone", is a tablet |
| DeviceDetector.NoTouchIsNotPhone | V6/js/device-detector.js:97-129 | without touch no device is a phone, and it is a tablet exactly when its agent holds "iPad" or a tablet keyword |
| DeviceDetector.IPhoneIsIos | V6/js/device-detector.js:596-606 | an iPhone agent without "Windows" is iOS |
| DeviceDetector.BrowserNameResolution | V6/js/device-detector.js:608-617 | Chromium Edge is named Edge, Chrome without "Edg" is Chrome, Safari never carries Chrome or Firefox, Opera needs "Opera", and an agent with none of the tokens is Unknown |
| StageRouter.DetectDevice | V7/device-detector.js:7-9 | "mobile" exactly when touch is available, otherwise "desktop" |
| StageRouter.StageOrFirst | V7/device-detector.js:14 | the parsed parameter, or 1 when it is missing, not a number or zero; never zero |
| StageRouter.CurrentStage | V7/device-detector.js:12-16 | always a stage in [1, 4] |
| StageRouter.TransformationFile | V7/device-detector.js:23-28 | a page exists exactly for stages 1 to 4 |
| StageRouter.RouteToTransformation | V7/device-detector.js:19-35 | the route starts with "mobile/" exactly for a touch device and with "desktop/" otherwise, followed by the page of the clamped stage |
| StageRouter.TransformationFileNaming | V7/device-detector.js:25-28 | each stage's page is `liquid-paint-{s}to{s+1}.html` |
| StageRouter.PageName | V7/device-detector.js:25-28 | the page name starts with `liquid-paint-{stage}to` and is an `.html` file |
| StageRouter.FolderPrefix | V7/device-detector.js:19-35 | a route starts with "mobile/" exactly under the mobile folder and with "desktop/" exactly under the desktop folder |
| StageRouter.CurrentStageCases | V7/device-detector.js:12-16 | a missing or non-numeric parameter gives stage 1; a number is clamped into [1, 4] |
| StageRouter.RouteShape | V7/device-detector.js:19-35 | for every numeric parameter the route is the touch folder followed by the clamped stage's page, under "mobile/" exactly for touch devices |
| DeviceRedirect.DevicePrefix | V5/device-detector.js:10-16 | "mobile" exactly for a mobile device, otherwise "desktop" |
| DeviceRedirect.Transformation | V5/device-detector.js:21 | a missing or empty parameter gives "1"; any other is kept; never empty |
| DeviceRedirect.LoadDeviceSpecificFile | V5/device-detector.js:19-30 | no redirect exactly when the path already contains the device folder |
| DeviceRedirect.CaseInsensitive | V5/device-detector.js:11-12 | agents that lower-case alike are classified alike |
| DeviceRedirect.IsMobileDevice | V5/device-detector.js:10-16 | an agent containing "iPhone" or "Android" is mobile whatever its touch points and window |
| DeviceRedirect.DesktopConditions | V5/device-detector.js:10-16 | an agent matching no mobile pattern is mobile exactly with more than one touch point or a window at most 768 wide |
| DeviceRedirect.HtmlFileOfNumber | V5/device-detector.js:23-24 | a numeric parameter n names `liquid-paint-{n}to{n+1}.html`, the same page name as the stage router's for n >= 0 |
| DeviceRedirect.HtmlFile | V5/device-detector.js:23-24 | the page name starts with `liquid-paint-{t}to` and is an `.html` file |
| DeviceRedirect.NonNumeric | V5/device-detector.js:23-24 | a parameter that is not a number names its successor "NaN" |
| DeviceRedirect.DefaultTarget | V5/device-detector.js:19-30 | without a parameter the redirect goes to the device folder's first transformation with `?t=1` |
| DeviceRedirect.TargetIsFinal | V5/device-detector.js:19-30 | the page a redirect leads to, opened under any directory, is not redirected again |
| ImageLoader.MakeConfig | V6/js/image-loader.js:8-15 | each option left out takes its default (base path "./images/", 3 retries, delays 1000/2000/4000, one-hour expiry, fallbacks on); each option given is kept |
| ImageLoader.LoadSingle | V6/js/image-loader.js:116-136 | success exactly for a load event with both dimensions positive; an error event or a zero dimension rejects with the message naming the path |
| ImageLoader.DelayBefore | V6/js/image-loader.js:89-92 | the configured delay for that retry when present and non-zero, 4000 ms past the end of the list, and always positive |
| ImageLoader.LoadWithRetry | V6/js/image-loader.js:83-109 | between 1 and maxRetries + 1 attempts, one configured delay before each retry, every attempt but the last failed; success is the last attempt's image; failure means all attempts failed and carries the exhausted message |
| ImageLoader.Request | V6/js/image-loader.js:29-50 | only a started load takes a fresh load number; errors and fallbacks are untouched |
| ImageLoader.Settle | V6/js/image-loader.js:52-74 | settling never takes a load number |
| ImageLoader.FirstWithPrefix | V6/js/image-loader.js:244-255 | the first entry whose key starts with the prefix, with none before it; None when no key does |
| ImageLoader.GetImage | V6/js/image-loader.js:243-258 | nothing exactly when neither a cached key nor a fallback key starts with the name |
| ImageLoader.PlainTail | V6/js/image-loader.js:235 | the longest suffix free of '/' and '.' |
| ImageLoader.StripExtension | V6/js/image-loader.js:235 | a final dot followed by characters other than '/' and '.' up to the end is removed; a key without one is unchanged |
| ImageLoader.StripExtensionOf | V6/js/image-loader.js:235 | a name with a dotted extension comes back out of the stripping |
| ImageLoader.LoadedImages | V6/js/image-loader.js:234-236 | one name per cached key, in insertion order, each with its extension removed |
| ImageLoader.LoadingProgress | V6/js/image-loader.js:273-287 | the counts are the sizes of the three maps; progress is 25 per loaded image capped at 100, and complete exactly at four |
| ImageLoader.ClearCache | V6/js/image-loader.js:293-308 | in-flight loads are kept; without a name images, fallbacks and errors are emptied; with a name only images change |
| ImageLoader.LiveEntryServed | V6/js/image-loader.js:33-37 | a live cached entry is served as it is and nothing changes |
| ImageLoader.ExpiredEntryDropped | V6/js/image-loader.js:38-40 | an expired entry is removed and not served, and every other cached key is kept |
| ImageLoader.RequestWithoutHit | V6/js/image-loader.js:44-50 | without a live entry, a load in flight is joined and otherwise a new load is started and recorded for the key |
| ImageLoader.ConcurrentRequestsShareLoad | V6/js/image-loader.js:44-50 | a second request while the first load is in flight shares that load and starts no other |
| ImageLoader.SettleOutcome | V6/js/image-loader.js:52-74 | the load is no longer in flight; a success is cached with its time and returned; a failure is recorded and answered with the fallback when fallbacks are on, or passed on when off |
| ImageLoader.SettledImageServed | V6/js/image-loader.js:29-60 | a settled success is served to a later request for the same key while it is live |
| ImageLoader.ClearOneRemovesFirstMatch | V6/js/image-loader.js:294-301 | clearing by name removes only the first cached key starting with the name, or nothing when none does |
| ImageLoader.ProgressEnds | V6/js/image-loader.js:273-287 | no images is zero progress and not complete; four images is 100 and complete |
| InteractionHandler.MakeConfig | V6/js/interaction-handler.js:11-21 | each option left out takes its default (mouse, touch, puck and smoothing on, thresholds 16 and 33 ms, smoothing factor 0.7); an option given wins, as the spread comes last |
| InteractionHandler.Init | V6/js/interaction-handler.js:7-59 | the handler starts inactive with no touches and no primary, has a puck exactly when the puck is enabled, and registers the four event names with no callback |
| InteractionHandler.PushLatency | V6/js/interaction-handler.js:368-373 | the new latency is last; a history under ten grows by it, a full one drops its oldest entry; a history of at most ten stays at most ten |
| InteractionHandler.UpdatePosition | V6/js/interaction-handler.js:328-339 | the old position becomes the previous one, the new one is stored, the time since the last update is pushed onto the history, and nothing else changes |
| InteractionHandler.UpdateVelocity | V6/js/interaction-handler.js:344-362 | only the velocity changes and a velocity-change event carries it; without smoothing the velocity is the displacement since the previous position |
| InteractionHandler.SetPuckState | V6/js/interaction-handler.js:427-453 | without a puck nothing changes; otherwise the state classes become the new state's class, or none for inactive, and nothing else changes |
| InteractionHandler.ShowPuck | V6/js/interaction-handler.js:396-401 | only the visibility flag changes; the puck is visible afterwards exactly when there is one or it was visible already |
| InteractionHandler.HidePuck | V6/js/interaction-handler.js:406-411 | only the visibility flag changes; the puck is visible afterwards exactly when there is none and it was visible already |
| InteractionHandler.MouseEnter | V6/js/interaction-handler.js:169-173 | the handler becomes active at the pointer, the puck is shown as `showPuck` shows it, the touches are left alone, and one mouse start event is emitted at the pointer |
| InteractionHandler.MouseLeave | V6/js/interaction-handler.js:179-183 | the handler becomes inactive where it was, the puck is hidden as `hidePuck` hides it, the touches are left alone, and one mouse end event is emitted at the last position |
| InteractionHandler.MouseMove | V6/js/interaction-handler.js:188-202 | an inactive handler ignores the move |
| InteractionHandler.Dispatch | V6/js/interaction-handler.js:117-135 | mouse events do nothing on a touch device or with the mouse disabled; touch events do nothing unless the device has touch and touch is enabled |
| InteractionHandler.TouchStart | V6/js/interaction-handler.js:221-252 | at most one event per changed touch, each a touch start |
| InteractionHandler.TouchMove | V6/js/interaction-handler.js:257-285 | the touches that are down and the primary touch stay the same, and at most two events are emitted per changed touch |
| InteractionHandler.TouchEnd | V6/js/interaction-handler.js:290-321 | at most one event per changed touch, each a touch end |
| InteractionHandler.On | V6/js/interaction-handler.js:493-497 | registering fails with the TypeError exactly for an unregistered name the object inherits (such as `toString`); otherwise only the callbacks change, and a known event gets the callback at the end of its list |
| InteractionHandler.Off | V6/js/interaction-handler.js:504-511 | removing fails with the TypeError exactly for an unregistered name the object inherits; otherwise only the callbacks change, and the event loses the first registration of the callback |
| InteractionHandler.CallbackRegistration | V6/js/interaction-handler.js:493-511 | an unregistered name a plain object inherits makes both fail; any other name outside the four events is ignored by both; `off` removes only the first registration of the callback, and `on` appends it |
| InteractionHandler.StartOneKeys | V6/js/interaction-handler.js:226-234 | one touch coming down keeps the touches already down and adds its own |
| InteractionHandler.TouchStartAddsAll | V6/js/interaction-handler.js:221-252 | after a touchstart every touch that was down is still down and every changed touch is down |
| InteractionHandler.EndOneKeys | V6/js/interaction-handler.js:293-295 | one touch lifting removes it and brings no touch down |
| InteractionHandler.TouchEndRemovesAll | V6/js/interaction-handler.js:290-321 | after a touchend no touch is newly down and none of the changed touches is still down |
| InteractionHandler.PrimaryTouchHandOver | V6/js/interaction-handler.js:298-317 | when the primary lifts, the earliest remaining touch becomes primary and the tracked position jumps to it without an event; when none remains the handler goes inactive, hides the puck, clears its classes and emits one end event |
| InteractionHandler.NonPrimaryMove | V6/js/interaction-handler.js:262-268 | a move of a non-primary touch updates only its stored position and emits nothing |
| InteractionHandler.PrimaryMove | V6/js/interaction-handler.js:269-282 | a move of the primary touch moves the tracked position, emits the velocity change then the move, and without smoothing the velocity is the displacement |
| InteractionHandler.ZeroIdentifierIsNoPrimary | V6/js/interaction-handler.js:237-250 | a primary touch with identifier 0 counts as no primary, so the next touch takes over and emits a start |
| InteractionHandler.SecondTouchDown | V6/js/interaction-handler.js:234-237 | a touch that comes down while a non-zero touch is primary only enters the touch table |
| InteractionHandler.MouseMoveIgnoredWhileInactive | V6/js/interaction-handler.js:188-189 | a mouse move on an inactive desktop handler changes nothing and emits nothing |
| InteractionHandler.PuckStateClasses | V6/js/interaction-handler.js:431-436 | the puck carries exactly the class of the state, none for inactive, and the last state set wins |
| InteractionHandler.Recent | V6/js/interaction-handler.js:368-373 | at most ten entries |
| InteractionHandler.LatencyWindow | V6/js/interaction-handler.js:368-373 | pushing any sequence of latencies onto a history of at most ten leaves exactly the last ten of everything pushed |
| InteractionHandler.SumBound | V6/js/interaction-handler.js:379-382 | a history whose entries are all at most t sums to at most its length times t |
| InteractionHandler.SumAbove | V6/js/interaction-handler.js:379-382 | a non-empty history whose entries all exceed t sums to more than its length times t |
| InteractionHandler.AverageLatency | V6/js/interaction-handler.js:379-382 | 0 for an empty history; otherwise the average times the number of entries is their sum |
| InteractionHandler.IsLatencyAcceptable | V6/js/interaction-handler.js:388-391 | an acceptable non-empty history holds at least one latency within the device's threshold |
| InteractionHandler.LatencyAcceptableWhenAllWithin | V6/js/interaction-handler.js:379-391 | when every recorded latency is within the device's threshold, the average is acceptable |
| Timeline.NumberOr | V7/timeline-component.js:9-10 | a given non-zero number is kept; an absent or zero one gives the default |
| Timeline.MakeOptions | V7/timeline-component.js:7-13 | four stages and stage 1 unless given non-zero; interactive only when given as true; neither count is ever zero |
| Timeline.Create | V7/timeline-component.js:7-21 | the timeline keeps its options and starts with no reveal |
| Timeline.CircleCount | V7/timeline-component.js:119-132 | one circle per stage 1 to totalStages, none when the count is negative |
| Timeline.CircleClassOf | V7/timeline-component.js:137-146 | a circle is completed exactly before the current stage, active exactly at it, and plain after it |
| Timeline.Display | V7/timeline-component.js:135-146 | one class per circle, circle i showing stage i + 1 |
| Timeline.SetRevealPercentage | V7/timeline-component.js:163-166 | the reveal is clamped into [0, 100], kept when inside, and the options are untouched |
| Timeline.SetCurrentStage | V7/timeline-component.js:168-176 | the stage is replaced, the reveal reset to 0, and the stage is passed to the stage-change callback exactly when there is one |
| Timeline.FileName | V7/timeline-component.js:250 | the text after the path's last `/`, or the whole path when it has none |
| Timeline.InitTimeline | V7/timeline-component.js:244-265 | four stages, no reveal, and interactive only when asked for |
| Timeline.CompletedCount | V7/timeline-component.js:135-146 | exactly the circles before the current stage are completed, and one is active while the stage is in range |
| Timeline.Classes | V7/timeline-component.js:137-146 | n classes, the i-th that of stage from + i + 1 |
| Timeline.CountClasses | V7/timeline-component.js:137-146 | the completed count over a run of stages is the number of them before the current one, and the active count is one exactly when the current stage is in the run |
| Timeline.ProgressWidth | V7/timeline-component.js:152-161 | with the stage in range and the reveal clamped, the bar width lies in [0, 100]; it is 100 at the last stage fully revealed and 0 at the first stage unrevealed |
| Timeline.StageAndRevealKeepBar | V7/timeline-component.js:163-176 | setting an in-range stage and then any reveal keeps the bar in [0, 100] |
| Timeline.OnTransformationComplete | V7/timeline-component.js:220-228 | below the last stage the timeline moves up one stage, resets the reveal, notifies exactly when a callback exists and navigates to the new stage; at the last stage nothing happens |
| Timeline.NavigateToStage | V7/timeline-component.js:178-201 | a navigation happens exactly when interactive and for stages 1 to 4; it goes to the stage router's page for that stage, in the mobile folder for a window at most 768 wide or a touch device and in the desktop folder otherwise |
| Timeline.InitialStage | V7/timeline-component.js:246-254 | a marker in the file name decides the stage; without one the URL parameter does, with 1 when there is none |
| Timeline.MarkerOrder | V7/timeline-component.js:251-254 | the first marker wins in the order 1to2, 2to3, 3to4, 4to5, and a marker names a stage in [1, 4] |
| AssetPaths.FixUrl | V13/simple_obfuscate.py:138-144 | a url already under `assets/` is kept; any other goes under `assets/images/`, as it is, or with every `.png.png` turned into `.png` when the repair is on |
| AssetPaths.FixPagesFails | V13/simple_obfuscate.py:137-144 | the rewrite of the pages raises exactly when some page holds an image field that is not a string |
| AssetPaths.FixPages | V13/simple_obfuscate.py:137-144 | a successful rewrite keeps the number of pages |
| AssetPaths.RewriteConfig | V13/simple_obfuscate.py:137-148 | a success keeps every member but the pages; a configuration without pages comes back as it is; the rewrite fails exactly when some page holds an image field that is not a string |
| AssetPaths.FixPagesShape | V13/simple_obfuscate.py:137-144 | a successful rewrite keeps the page count, every other member and every absent field, and moves each image url as a single url is moved |
| AssetPaths.FixUrlIdempotent | V13/obfuscate.py:194-198 | moving a url twice is moving it once |
| AssetPaths.FixPagesIdempotent | V13/obfuscate.py:152-156 | rewriting rewritten pages changes nothing |
| AssetPaths.RewriteConfigIdempotent | V13/simple_obfuscate.py:137-148 | rewriting a rewritten configuration changes nothing |
| AssetPaths.StatementValue | V13/simple_obfuscate.py:17-18 | a recognised value is non-empty, its statement fits in the text, and the text contains the opening |
| AssetPaths.StatementValueShape | V13/simple_obfuscate.py:17-18 | a recognised statement is the opening, a value without the quote, the quote and `;`, at the front of the text |
| AssetPaths.RewriteStatements | V13/obfuscate.py:136-143 | a page without the statement's opening is left as it is |
| AssetPaths.StatementAtFront | V13/obfuscate.py:129-134 | a statement at the front is recognised with exactly its quoted value |
| AssetPaths.CorrectedStatement | V13/simple_obfuscate.py:21-28 | the corrected rewrite moves the quoted value once and goes on after the statement |
| AssetPaths.AsWrittenStatement | V13/simple_obfuscate.py:21-28 | as written, the statement is rewritten by replacing its value everywhere in the statement text |
| AssetPaths.AsWrittenInsertsTwice | V13/simple_obfuscate.py:25 | a one-character value that also occurs in the statement's opening gets the prefix in both places |
| AssetPaths.CorrectedInsertsOnce | V13/simple_obfuscate.py:25 | the corrected rewrite prefixes only the quoted value, and differs from the rewrite as written on that input |
| AssetPaths.ImageOneOpening | V13/obfuscate.py:140 | the value `e` occurs exactly once in the opening `const image1Url = '`, so it exhibits the double insertion |
| AssetPaths.ClosingBrace | V13/simple_obfuscate.py:31 | where `{.*?};` closes, inside the text |
| AssetPaths.ClosingBraceAfter | V13/simple_obfuscate.py:31 | an object text without `};` and line breaks closes at its own closing brace |
| AssetPaths.EmbeddedAtFront | V13/simple_obfuscate.py:31-48 | an embedded configuration at the front is replaced as a whole and the scan goes on after it |
| AssetPaths.UnparseableKept | V13/simple_obfuscate.py:45-46 | an embedded configuration that is not valid JSON is kept as it is |
| AssetPaths.ParsedRewritten | V13/simple_obfuscate.py:32-46 | a parsed embedded configuration is written back rewritten; if the rewrite raises it is kept as it is |
| AssetPaths.EmbeddedSplit | V13/simple_obfuscate.py:31 | a recognised embedded configuration is the statement text followed by the rest of the page |
| AssetPaths.RewriteEmbedded | V13/obfuscate.py:146-161 | a page in which no position starts the configuration's opening is left as it is |
| AssetPaths.OpeningFreeNotContains | V13/obfuscate.py:146-161 | no position starting the opening is the same as the page not containing `const storyConfig = {`, so a page without it is left as it is |
| AssetPaths.NothingParses | V13/obfuscate.py:158-159 | when no text parses, the page is left as it is |
| AssetPaths.ClosingBraceCloses | V13/simple_obfuscate.py:31 | the position found holds `}` followed by `;` |
| PageScan.ScanRender | V13/simple_obfuscate.py:17-28 | rendering the pieces a page is scanned into gives the page back |
| PageScan.ScanStable | V13/simple_obfuscate.py:17-28 | the pieces of a scan never have a statement starting at a copied character |
| PageScan.RenderScan | V13/simple_obfuscate.py:17-28 | scanning the rendering of such pieces gives them back |
| PageScan.MovedValues | V13/simple_obfuscate.py:21-26 | moving keeps every copied character and every statement in its place; each value ends up under `assets/`, a value already there kept and any other one put under `assets/images/` |
| PageScan.MovedTwice | V13/simple_obfuscate.py:21-26 | moving twice is moving once |
| PageScan.MovedStable | V13/simple_obfuscate.py:21-28 | moving the values of stable pieces keeps them stable, for an opening whose first character does not recur |
| PageScan.NoNewStatement | V13/simple_obfuscate.py:17 | a changed value after an opening that was not a statement does not make it one |
| PageScan.RewriteMoved | V13/obfuscate.py:136-143 | the corrected rewrite is the rendering of the scanned pieces with every value moved |
| PageScan.RewriteScan | V13/obfuscate.py:136-143 | scanning the corrected rewrite gives the moved pieces of the original scan |
| PageScan.RewriteIdempotent | V13/obfuscate.py:136-143 | the corrected rewrite, applied again, changes nothing |
| PageScan.ImageStatementsUnambiguous | V13/obfuscate.py:129-134 | the four image patterns of both quote styles meet that condition |
| AssetPaths.InsertProtection | V13/simple_obfuscate.py:78-84 | the script goes before every `</head>` when there is one and otherwise before every `</body>`, between the same pieces the tag separated; a page with neither tag is unchanged |
| SimpleObfuscate.UpdateImagePaths | V13/simple_obfuscate.py:13-49 | a page with neither image statement nor embedded configuration keeps its paths |
| SimpleObfuscate.ProcessFile | V13/simple_obfuscate.py:86-103 | every processed page is minified: single blanks, no blank between tags, nothing to trim; a page with nothing to move and neither closing tag is only minified |
| SimpleObfuscate.Protect | V13/simple_obfuscate.py:110-159 | the run stops exactly when the source folder is missing, or when its `story-config.json` is not a JSON object or holds an image field that is not a string. A missing folder leaves `dist/` empty. A bad configuration leaves only the processed pages. A finished run holds each source page processed under its name, the folder's configuration rewritten when it has one, and each PNG image copied unchanged |
| SimpleObfuscate.ProcessPages | V13/simple_obfuscate.py:126-128 | the output pages are exactly the source files ending in `.html`, each processed by ProcessFile under its own name |
| SimpleObfuscate.PngFiles | V13/simple_obfuscate.py:155-159 | the copied images are exactly the files ending in `.png`, each with its contents unchanged |
| SimpleObfuscate.UpdateImagePathsOneLetter | V13/simple_obfuscate.py:13-28 | as written, the whole `update_image_paths` turns `const image1Url = 'e';` into `const imagassets/images/e1Url = 'assets/images/e';` |
| SimpleObfuscate.UpdateImagePathsOneLetterCorrected | V13/simple_obfuscate.py:13-28 | corrected, the whole `update_image_paths` moves only the quoted value of that statement: `const image1Url = 'assets/images/e';` |
| Storybook.CleanChar | V13/generate_storybook.py:24 | the lower-cased character is kept when it is a letter, digit, `-` or `_`, and becomes `-` otherwise; the result is always a slug character |
| Storybook.Clean | V13/generate_storybook.py:24 | same length as the title, character by character cleaned |
| Storybook.LeadingRun | V13/generate_storybook.py:25 | the length of the leading run of the character |
| Storybook.TrailingRun | V13/generate_storybook.py:25 | the length of the trailing run of the character |
| Storybook.StripDashes | V13/generate_storybook.py:25 | stripping cuts off an all-hyphen prefix and an all-hyphen suffix and leaves a slice with no hyphen at either end, empty exactly for an all-hyphen input |
| Storybook.StripDashesFixed | V13/generate_storybook.py:25 | a string without hyphens at its ends is its own stripped form |
| Storybook.StripDashesChars | V13/generate_storybook.py:25 | stripping keeps only characters of the input |
| Storybook.Slug | V13/generate_storybook.py:22-25 | the name is the title cleaned character by character and stripped of hyphens, or "my-story" when nothing is left; it is always non-empty, made of slug characters, with no hyphen at either end |
| Storybook.DefaultIsSlug | V13/generate_storybook.py:25-27 | the default name "my-story" is such a name |
| Storybook.SlugFixed | V13/generate_storybook.py:24-25 | a slug is its own slug |
| Storybook.SlugIdempotent | V13/generate_storybook.py:24-25 | the rewrite is idempotent |
| Storybook.SlugOfTitle | V13/generate_storybook.py:24-25 | "Hi Bo!" becomes "hi-bo": capitals lowered, the space and `!` hyphenated, the trailing hyphen stripped |
| Storybook.SlugOfPunctuation | V13/generate_storybook.py:24-25 | an all-punctuation title leaves nothing after stripping and gives "my-story" |
| Storybook.StoryName | V13/generate_storybook.py:12-27 | the first command-line argument wins as given; otherwise it is the slug of the configured title, and "my-story" when no title can be read or there is none |
| Storybook.LogoParts | V13/generate_storybook.py:59-87 | the declaration is empty exactly without a logo url, the target declaration is non-empty exactly with both urls, and without a logo url there is no drawing code |
| Storybook.Values | V13/generate_storybook.py:89-99 | one value per placeholder |
| Storybook.ReplaceFromFree | V13/generate_storybook.py:90-99 | text holding none of the remaining placeholders is left as it is |
| Storybook.PlaceholderKeys | V13/generate_storybook.py:89-99 | ten distinct, non-empty, brace-free key names, each placeholder being the name in double braces |
| Storybook.KeyAtFront | V13/generate_storybook.py:90-99 | a placeholder at the front of a text is matched only by itself |
| Strings.ReplaceConcat | V13/generate_storybook.py:90-99 | replacing in two pieces where no occurrence straddles the join is replacing in each |
| Storybook.GeneratePageFills | V13/generate_storybook.py:50-101 | a template of literal text and placeholders, with no `{{` in any literal or value and none ending in `{`, is filled part by part, each placeholder by its own value |
| Storybook.GeneratePage | V13/generate_storybook.py:50-101 | a template without placeholders is written out unchanged, whatever the page |
| Storybook.NoLogo | V13/generate_storybook.py:84-87 | a page without a logo url gets three empty logo snippets |
| Storybook.PageFileInjective | V13/generate_storybook.py:140 | distinct pages go to distinct files |
| Storybook.PageFileIsHtml | V13/generate_storybook.py:140 | every page file is an `.html` file |
| Storybook.WritePagesElsewhere | V13/generate_storybook.py:129-142 | a file no remaining page is written to keeps what it had |
| Storybook.WritePagesWrites | V13/generate_storybook.py:129-142 | every page whose pageNumber matches its position ends up in its own file with its own generated content |
| Storybook.WritePagesOnly | V13/generate_storybook.py:129-142 | a file that was not there before is the file of a generated page |
| Storybook.WritePages | V13/generate_storybook.py:129-142 | no file is removed, and every file it adds is an `.html` file |
| Storybook.ClearHtml | V13/generate_storybook.py:121-123 | exactly the files not ending in `.html` are kept, with their contents |
| Storybook.ConfigFileNotHtml | V13/generate_storybook.py:147-149 | the copied configuration is not removed with the HTML files |
| Storybook.Generate | V13/generate_storybook.py:103-149 | no configuration fails first, then a missing or empty template; a success names the story as StoryName does and holds the configuration copy in `story-config.json` |
| Storybook.GenerateContents | V13/generate_storybook.py:103-149 | for a configuration holding every member the script reads, the run fails exactly without a configuration or with a missing or empty template; otherwise the folder holds the configuration copy, exactly one generated page per page whose pageNumber matches its position, and every other non-HTML file unchanged |
| Minify.CollapseSpace | V13/simple_obfuscate.py:102 | collapsing never lengthens the text |
| Minify.CollapseHead | V13/simple_obfuscate.py:102 | collapsed text is empty exactly when the input is, and its first character stands for the input's first: a space for a whitespace one, else the same character |
| Minify.CollapseSpaceShape | V13/simple_obfuscate.py:102 | collapsed text has no two whitespace characters in a row, and every whitespace character left is a plain space |
| Minify.CollapseSpaceFixed | V13/obfuscate.py:48 | text already single-spaced with plain spaces only is left as it is |
| Minify.CollapseSpaceIdempotent | V13/obfuscate.py:65 | collapsing twice is collapsing once |
| Minify.CollapseAppend | V13/obfuscate.py:48 | collapsing works piece by piece at a point where no whitespace run is cut |
| Minify.CollapseSpaceFree | V13/obfuscate.py:48 | a whitespace-free prefix is kept as it is |
| Minify.CollapseKeepsFree | V13/obfuscate.py:48 | collapsing brings in no character other than a space |
| Minify.CloseTagGapsFree | V13/simple_obfuscate.py:101 | after closing, no `>`, whitespace run, `<` is left anywhere |
| Minify.CloseTagGaps | V13/simple_obfuscate.py:101 | closing gaps never lengthens the text, keeps it empty exactly when it was empty, and keeps its first character |
| Minify.CollapseKeepsTagsClosed | V13/simple_obfuscate.py:101-102 | collapsing whitespace in gap-free text leaves no `>`, space, `<` |
| Minify.TrailingSpaces | V13/simple_obfuscate.py:103 | the count of whitespace characters the text ends with, within its length |
| Minify.Strip | V13/simple_obfuscate.py:103 | stripping cuts a slice of the text and leaves no whitespace at either end |
| Minify.MinifyHtml | V13/simple_obfuscate.py:100-103 | minified HTML is single-spaced with plain spaces, has no space between `>` and `<`, and no whitespace at either end |
| Minify.DropSpaceAfterFree | V13/obfuscate.py:49-51 | after the rewrite no `c` is followed by whitespace |
| Minify.DropSpaceAfter | V13/obfuscate.py:49-51 | the deletion never lengthens the text |
| Minify.DropHead | V13/obfuscate.py:49-51 | the deletion leaves the text empty exactly when it was empty, and keeps its first character |
| Minify.DropSpaceAfterSingle | V13/obfuscate.py:49-51 | deleting the whitespace after a non-space character never makes a whitespace run longer |
| Minify.DropSpaceAfterKeeps | V13/obfuscate.py:49-51 | deleting the whitespace after `c` keeps the same guarantee for any other character |
| Minify.DropAppend | V13/obfuscate.py:49-51 | the deletion works piece by piece where no whitespace run is cut |
| Minify.DropFree | V13/obfuscate.py:49-51 | a prefix without `c` is kept as it is |
| Minify.DropKeepsFree | V13/obfuscate.py:49-51 | the deletion brings in no character |
| Minify.BlanksFree | V13/obfuscate.py:48 | blank-only text is exactly text without the other five whitespace characters |
| Minify.DropKeepsBlanks | V13/obfuscate.py:49-51 | the deletion keeps every remaining whitespace character a plain space |
| Minify.DropSpaceAfterFixed | V13/obfuscate.py:49-51 | text in which no `c` is followed by whitespace is left as it is |
| Minify.StripBlockComments | V13/obfuscate.py:45 | removing block comments never lengthens the text, and text without `/*` is left as it is |
| Minify.LeadingCommentRemoved | V13/obfuscate.py:45 | a leading comment goes up to its first `*/`, whatever follows |
| Obfuscate.GenerateRandomName | V13/obfuscate.py:19-25 | the name found is the first underscore-prefixed draw not already in use, of one more character than the draw length; there is none exactly when every draw is in use; with nothing in use the first draw wins |
| Obfuscate.Compact | V13/obfuscate.py:48-51 | compacted text is single-spaced, blank-only, and has no whitespace after `;`, `{` or `}` |
| Obfuscate.CompactFixed | V13/obfuscate.py:48-51 | text that is already compact is left as it is |
| Obfuscate.CompactKeepsFree | V13/obfuscate.py:48-51 | compacting brings in no non-space character |
| Obfuscate.CompactAround | V13/obfuscate.py:48-51 | compacting works on each side of a word free of whitespace, `;` and braces separately, keeping the word |
| Obfuscate.ObfuscateCss | V13/obfuscate.py:59-71 | minified CSS is single-spaced, blank-only, and has no whitespace after `;`, `{`, `}` or `:` |
| Obfuscate.CssFixed | V13/obfuscate.py:59-71 | a style sheet already in that form and without `/*` is left as it is |
| Obfuscate.CssIdempotent | V13/obfuscate.py:59-71 | minifying twice is minifying once, unless the first pass joined a `/` and a `*` |
| Obfuscate.KeyAhead | V13/obfuscate.py:44 | where the lazy match stops: a key starts there, before any line break |
| Obfuscate.CommentLength | V13/obfuscate.py:44 | the length of the comment text the corrected stripper removes, within the text |
| Obfuscate.StripLineComments | V13/obfuscate.py:44 | the stripper adds nothing; text without `/` is left as it is, and so, as written, is text without `_` |
| Obfuscate.ProtectNone | V13/obfuscate.py:36-41 | with none of the placeholders present, sheltering changes nothing and records none |
| Obfuscate.RestoreNone | V13/obfuscate.py:54-55 | with none recorded, restoring changes nothing |
| Obfuscate.ObfuscateJavascript | V13/obfuscate.py:27-57 | a script with none of the placeholders is only stripped of comments and compacted |
| Obfuscate.SheltersNothing | V13/obfuscate.py:36-55 | without placeholders, sheltering changes nothing and restoring puts nothing back |
| Obfuscate.OnlyItself | V13/obfuscate.py:31-34 | between brace-free text, the only placeholder found is the one put there |
| Obfuscate.ProtectOne | V13/obfuscate.py:36-41 | one placeholder in brace-free text is replaced by its key in its place, and it alone is recorded |
| Obfuscate.RestoreOne | V13/obfuscate.py:54-55 | restoring a lone key between text without `_` puts its placeholder back |
| Obfuscate.TokenSurvives | V13/obfuscate.py:27-57 | a placeholder in text free of braces, `_` and `/` comes out unchanged in its place, with each side compacted |
| Obfuscate.LineCommentSwallowsCode | V13/obfuscate.py:44-48 | as written, an ordinary line comment stays and its line break becomes a space, so the next line's code ends up inside the comment |
| Obfuscate.CorrectedDropsLineComment | V13/obfuscate.py:44 | corrected, an ordinary line comment goes and its line break stays |
| Obfuscate.NoLineCommentLeft | V13/obfuscate.py:43-44 | the corrected stripper leaves no `//` at all |
| Obfuscate.UpdateImagePaths | V13/obfuscate.py:126-163 | a page with no image statement in either quote style and no embedded configuration keeps its paths |

## Left out

- Real I/O is not modelled. This covers the network, the file system, audio playback, the DOM, CSS, timers and console logging. Where a result depends on it, it is a parameter.
- Threads and asynchrony are not modelled. Every asynchronous operation is one atomic step, and callbacks run in registration order.
- The Edge-TTS and Qwen3-TTS engines are not modelled. An engine run is a parameter: the chunks it yields, or the exception it raises.
- Model loading and the GPU or CPU choice of the Qwen server are not modelled; the loaded model is a parameter.
- The FastAPI routing, the CORS middleware and the startup banner are not modelled. Each endpoint is modelled as a function from its request.
- MP3 encoding is not modelled. Audio is a byte sequence.
- Unicode is not modelled:
  - regex `\s`, `isalnum` and lower-casing follow their ASCII meaning;
  - string lengths count code points, not UTF-8 bytes.
- Floating point is not modelled. JavaScript and Python numbers are exact reals or integers, and JavaScript's printing of numbers is modelled only for integers.
- JSON parsing and printing are parameters of the storybook tools. The JSON syntax is not modelled.
- The logo-drawing script and the protection script are constants whose text is not modelled.
- ImageLoader.getErrors is not modelled. It only lists the error records with a clock reading.
- ImageLoader's fallback drawing on a canvas is a parameter. A negative `maxRetries` is not considered.
- ImageLoader.Request: a `Joined` answer stands for the in-flight promise of `loadImageWithRetry` that the caller awaits (`V6/js/image-loader.js` lines 44-45). That caller gets the load's own outcome. On failure this is the rejection, without the fallback that `Settle` gives the starting caller (lines 61-73). The model has no member for what the joining caller finally receives.
- InteractionHandler is modelled without:
  - getState;
  - the square root in the speed;
  - puck styling and positioning;
  - resize and orientation handling;
  - preventTouchDefaults;
  - destroy.
- DeviceDetector (V6) is modelled without:
  - getCapabilities and getRedirection;
  - getBrowserRecommendations;
  - getScreenInfo and getViewportInfo;
  - the indicator LEDs.
- The first definitions of getBrowserName, getBrowserVersion and getBrowserEngine in `V6/js/device-detector.js` (lines 351-382) are not modelled. Later definitions in the same class body (lines 596-630) replace them, and only those take effect.
- The V5 page name uses JavaScript `parseInt`. A text that does not start with a number gives "NaN". Only decimal and hexadecimal prefixes are modelled.
- Timeline is modelled without the reveal interval, its timers, trackParticleTransformation and the HTML and CSS creation.
- Storybook.GenerateContents and Storybook.Generate: StoryConfig and PageData hold every member the script reads, so its KeyError crashes are not modelled, and "fails exactly" holds only for such configurations. The crashes, all in `V13/generate_storybook.py`, are:
  - a configuration without `pages` (line 127);
  - a page without `pageNumber` (line 130);
  - a generated page without `backboardTexts` (line 57), `image1Url` or `image2Url` (lines 93-94), or a configuration without `story` or `story.title` (line 90);
  - a skipped page without `image1Url` or `image2Url`, in the closing summary (line 155).
- Storybook.GenerateContents: every one of those crashes comes after the folder's `*.html` files were deleted (lines 121-123). The first three leave the folder cleared, holding the pages written before the crash, and without the `story-config.json` copy. The last comes after the copy, so the folder is complete but the run still fails. A crashed run is not modelled as an outcome, and neither is a `pageNumber` that is not an integer.
- AssetPaths.FixPagesFails covers only a page whose image field is not a string. The Config and Page types assume `pages` is a list of objects. A `pages` that is not a list, or an entry that is not an object, can also raise (`V13/simple_obfuscate.py` lines 137-144, `V13/obfuscate.py` lines 194-198), and that is not modelled.
- Storybook does not tell an empty JSON object apart from a missing configuration. The script treats both as missing.
- The `process_file` of `V13/obfuscate.py` (lines 99-112) is not modelled. This is the part that extracts the `<style>` and `<script>` blocks and replaces the first occurrence of each. The CSS and script minifiers it calls are modelled.
- The `main` of `V13/obfuscate.py` is left out except for its configuration rewrite (lines 193-198). The `main` of `V13/simple_obfuscate.py` is modelled by SimpleObfuscate.Protect.
- SimpleObfuscate.Protect: the configuration is read with the JSON parser parameter, so a text that is not valid JSON (`json.load` at line 135, which nothing catches) and a top-level value that is not an object (`config_data.get` at line 138) both read as None and stop the run the same way. The model does not tell the two errors apart. The reason strings of a stopped run are labels, not the Python exception messages.
- The pathlib glob details are not modelled. This includes hidden files and case sensitivity. A page is any file name ending in `.html`, and an image is any name ending in `.png`.
- Obfuscate.GenerateRandomName takes a finite list of draws in place of the endless `while True` loop and of `random.choices`. Running out of draws yields None, a case the source never reaches.
- Obfuscate.TokenSurvives: the contract covers only a placeholder between text free of braces, `_` and `/`. A script with several placeholders, with keys of its own, or with a `//` or `/*` near a placeholder is not covered. Widening it means tracking every placeholder and key through six successive `str.replace` passes and both comment strippers at once; the single-placeholder case already shows that sheltering and restoring are inverse around the minifier.
- Storybook.GeneratePageFills: the fill is proved only for literals and values with no `{{` and not ending in `{`. A value that itself holds a placeholder is replaced again by a later pass in the source, and that cascade is not modelled as a fill.
- SimpleObfuscate.UpdateImagePaths and Obfuscate.UpdateImagePaths: idempotence is proved for each corrected statement rewrite on its own (PageScan.RewriteIdempotent), not for the whole chain of rewrites with the embedded configuration.
- EdgeTts.TotalDurationMs carries no contract of its own. Its meaning, the end of the last word in the stream, is stated by EdgeTts.TotalDurationOfLastWord and EdgeTts.TotalDurationNoWords.

## Findings

| source | as written | input that shows it | evidently intended | confidence | as-written member | corrected member |
|---|---|---|---|---|---|---|
| V13/simple_obfuscate.py:25 | The matched statement is rewritten with `match.group(0).replace(image_path, prefix + image_path)`, which replaces every occurrence of the path inside the whole statement, the variable name included. V13/obfuscate.py:140 does the same. | `const image1Url = 'e';` becomes `const imagassets/images/e1Url = 'assets/images/e';` | only the quoted path gets the `assets/images/` prefix: `const image1Url = 'assets/images/e';` | not executed | AssetPaths.AsWrittenInsertsTwice, SimpleObfuscate.UpdateImagePathsOneLetter | AssetPaths.CorrectedInsertsOnce, SimpleObfuscate.UpdateImagePathsOneLetterCorrected |
| V13/obfuscate.py:44 | The comment pattern `//.*?(?=__PLACEHOLDER_)` removes a line comment only when a placeholder key follows it on the same line. An ordinary comment stays, and line 48 then turns its line break into a space. | `// note` followed by a line break and `run();` gives `// note run();`, so the call is commented out | every `//` comment is removed up to its line break, and a key after it is kept | not executed | Obfuscate.LineCommentSwallowsCode | Obfuscate.NoLineCommentLeft |
