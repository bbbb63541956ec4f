# Pitch-roast core, modelled in Dafny

The application listens to a founder pitching a slide deck and interrupts with spoken "roasts". Three parts of it hold the decision logic, and this project models those three and proves properties about them:

- **The live roast session controller** (`hooks/use-roast-session.ts`). It merges speech-recognition hypotheses into an utterance buffer and schedules analyses with two single-slot timers. Before asking the analysis endpoint, it runs an ordered gate of early returns. It moves the consumed and analysed watermarks, and drives the voice channel's pending / speaking / idle flags, including a 3000 ms fail-safe. It is modelled as the class `RoastSession.Session`, whose fields mirror the refs. Each event is a method:
  - a message arrives;
  - a timer fires;
  - an analysis is attempted or completes;
  - a speech request succeeds or fails;
  - playback starts, resumes or stops, or the audio stream fails.

  Time is a `nat` argument. Each timer slot holds `Option<deadline>`. The analysis verdict and the speech outcome are method parameters.
- **The rule-based interrupt detector** (`lib/interrupt-detector.ts`). It is the class `InterruptDetection.InterruptDetector`, with a chunk buffer bounded at 10, a word counter, a pace and a map of lower-cased slide texts. Its rules are checked in a fixed priority order: buzzword, speed, contradiction, emotion. Each rule is a first-match search over fixed tables, and each is specified by "first index" contracts.
- **The feedback log** (`lib/feedback-store.ts`):
  - the store operations, as pure session-to-session functions (`FeedbackStore`);
  - section-title inference;
  - the overall statistics;
  - the per-section grouping `deriveSectionSummaries`. This is a method (`FeedbackSections.DeriveSectionSummaries`) made of three loops: pre-fill the map from the sections, file each entry (pages kept sorted by insertion), then filter. A stable sort by first page and then by latest time follows. Each pass is proved against a specification of what the map holds.

Supporting modules:
- `Wrappers` holds `Option`.
- `Text` holds the JavaScript string operations the core uses, stated on `seq<char>`: `trim` and the white-space set, `includes`, `slice`, `join`, `toLowerCase` on ASCII, and `String(n)`.
- `FaceSignal` holds the face-detection record that the controller and the detector read.

Three behaviours of the code are easy to misread, and the model follows the code in each:

- **Deltas are separated by a space.** A hypothesis that extends the cached partial contributes only its suffix, but the suffix is appended after a space. So a run of cumulative hypotheses does not rebuild the final hypothesis in the buffer:
  - `CumulativeDeltas` proves that the deltas *concatenate* to it;
  - `BufferJoinsDeltas` proves that the buffer holds them *joined by spaces*.
- **The consumed watermark can pass the end of the transcript.** One might expect `lastConsumedIdx <= |transcript|` to hold always; the code does not keep it. The fail-safe frees the voice channel while a speech request is still open, so a new analysis can start. A late speech answer then empties the transcript, and the analysis's `finally` sets both watermarks to the length it captured earlier. `StaleWatermark` shows this, so the invariant is not part of `Session.Valid`.
- **Timers are armed while the voice channel is busy.** Messages schedule analyses even while a roast is pending or playing; the analysis then stops at the gate's first check.

## Model

| member | source | states |
|---|---|---|
| RoastSession.DeltaCompletes | hooks/use-roast-session.ts:496-507 | when the hypothesis extends a non-empty cached partial, the cache followed by the delta is the hypothesis again; otherwise the delta is the whole hypothesis; finality plays no part; the delta is never longer than the hypothesis |
| RoastSession.CumulativeDeltas | hooks/use-roast-session.ts:496-513 | for provisional hypotheses that each extend the previous one, the cache followed by the concatenated deltas is the last hypothesis |
| RoastSession.ExtendShape | hooks/use-roast-session.ts:515-520 | appending a delta keeps the old buffer as a prefix, puts exactly one space after a non-empty buffer, ends with the delta, and grows by exactly that much |
| RoastSession.BufferJoinsDeltas | hooks/use-roast-session.ts:515-520 | starting from an empty buffer, non-empty deltas appended in turn leave the deltas joined by single spaces |
| RoastSession.Session.constructor | hooks/use-roast-session.ts:51-63 | every flag is false, every timer slot is empty, the strings and roast list are empty, every watermark and timestamp is zero |
| RoastSession.Session.OnTranscript | hooks/use-roast-session.ts:488-537 | a missing or blank hypothesis changes nothing; otherwise it takes the hypothesis in (see `TakeHypothesis`); the buffer only grows, the old buffer stays a prefix, and the transcript keeps mirroring the buffer |
| RoastSession.Session.TakeHypothesis | hooks/use-roast-session.ts:494-536 | the partial cache becomes the hypothesis if provisional and empty if final; a non-blank delta is appended to the buffer and mirrored in the transcript; the analysis timer is set to fire now exactly on `.`/`!`/`?` in the delta or more than 150 characters past the analysed watermark, and is otherwise left as it was; the silence timer is re-armed at now + 2000 |
| RoastSession.Session.ScheduleAnalysis | hooks/use-roast-session.ts:403-414 | the analysis slot holds exactly the new deadline, replacing any earlier one |
| RoastSession.Session.StartUtteranceTimer | hooks/use-roast-session.ts:416-425 | the silence slot holds exactly the new deadline, replacing any earlier one |
| RoastSession.Session.FireAnalysisTimer | hooks/use-roast-session.ts:408-411 | a due analysis timer empties its slot and makes an analysis attempt with the outcome `AnalyzePitch` states |
| RoastSession.Session.FireUtteranceTimer | hooks/use-roast-session.ts:419-422 | a due silence timer empties its slot and asks for an analysis at once |
| RoastSession.GateIsSearch | hooks/use-roast-session.ts:308-351 | the chain of early returns is the search for the first failing check in the list Checks, which has the controller's order |
| RoastSession.GateFindsFirstFailure | hooks/use-roast-session.ts:308-351 | an attempt goes through exactly when no check fails; a stopped attempt is stopped by a failing check, and no failing check comes earlier in the order |
| RoastSession.FaceSkipsTextChecks | hooks/use-roast-session.ts:322-347 | with a face in view and deck text present, the attempt is admitted once the voice channel is free, no analysis runs, both quiet periods are over and the transcript has grown past the watermark |
| RoastSession.BlankIsTooShort | hooks/use-roast-session.ts:322-327 | a blank unconsumed text always also fails the 24-character check |
| RoastSession.DeckSummaryFallsBack | hooks/use-roast-session.ts:333-335 | a given deck summary is used as is; otherwise the summary is a prefix of the deck text of at most 1200 characters (exactly 1200 when the text is that long); it is empty only when both are |
| RoastSession.RecentDeltaIsTail | hooks/use-roast-session.ts:321-329 | the unconsumed text is what follows the consumed watermark, and is empty past the transcript's end; what is sent is a tail of it, all of it when it has at most 500 characters, and exactly 500 otherwise |
| RoastSession.RoastTexts | hooks/use-roast-session.ts:377 | the previous roasts are sent as their texts, one per roast, in order |
| RoastSession.NewRoast | hooks/use-roast-session.ts:113-118 | a recorded roast has the given text, is critical, is stamped with the clock, and its id is the decimal spelling of the clock, which reads back as the clock |
| RoastSession.Session.AnalyzePitch | hooks/use-roast-session.ts:306-379 | if the gate stops the attempt, nothing changes and the stopping check is reported; otherwise the analysis is marked running, the transcript length is captured, and the request carries the recent delta, face, page text, deck summary and roast texts |
| RoastSession.Session.CompleteAnalysis | hooks/use-roast-session.ts:381-393 | whatever the verdict, the analysis stops running, is stamped, and both watermarks take the length captured when it started; a verdict that interrupts with a non-empty message roasts first, any other verdict leaves the voice channel, the roasts and the open requests alone |
| RoastSession.Session.TriggerRoast | hooks/use-roast-session.ts:97-119 | pending is set, the fail-safe is re-armed at now + 3000, exactly one critical roast is appended, and one more speech request is open |
| RoastSession.Session.SpeakSucceeded | hooks/use-roast-session.ts:289-296 | transcript and buffer are emptied, both watermarks are zero, the roast time is stamped, and one request fewer is open; the partial cache is not touched |
| RoastSession.Session.SpeakFailed | hooks/use-roast-session.ts:298-303 | both voice flags drop, the fail-safe is cancelled, and one request fewer is open |
| RoastSession.Session.PlaybackStarted | hooks/use-roast-session.ts:254-258 | nothing changes when the element is already playing; otherwise speaking replaces pending, the fail-safe is cancelled and the element plays |
| RoastSession.Session.PlaybackStopped | hooks/use-roast-session.ts:174-183 | playback ends or the element refuses to start: both voice flags drop, the fail-safe is cancelled and the element is not playing |
| RoastSession.Session.StreamFailed | hooks/use-roast-session.ts:274-281 | a broken stream drops both voice flags and cancels the fail-safe, but leaves the element as it was, so buffered audio still blocks analysis |
| RoastSession.Session.BlobPlaybackStarted | hooks/use-roast-session.ts:143-168 | a whole downloaded clip starts: speaking is set and the element plays, pending and the fail-safe are left as they were |
| RoastSession.Session.ResumedAfterPause | hooks/use-roast-session.ts:184-190 | a pause before the end makes the element play again, the voice flags untouched |
| RoastSession.Session.FireSpeechTimeout | hooks/use-roast-session.ts:101-108 | a due fail-safe drops both voice flags and pauses the element |
| RoastSession.FailSafeDuringClip | hooks/use-roast-session.ts:101-108 | on the whole-clip path the fail-safe is still armed during playback; once it goes off and the pause handler resumes the clip, the clip plays with both voice flags down |
| RoastSession.StaleWatermark | hooks/use-roast-session.ts:388-393 | from a reachable state (an analysis in flight with a non-empty captured length, a speech request still open), a late speech answer followed by the completion leaves the consumed watermark past the end of the emptied transcript |
| InterruptDetection.InterruptDetector.constructor | lib/interrupt-detector.ts:74-84 | the configuration is the defaults overridden rule by rule; buffer, counters and slides start empty |
| InterruptDetection.FirstContained | lib/interrupt-detector.ts:132 | the word found is the earliest of the list that occurs in the text; none is found exactly when no word occurs |
| InterruptDetection.DetectBuzzwords | lib/interrupt-detector.ts:128-143 | disabled means none; otherwise none exactly when no buzzword occurs in the lower-cased transcript, and a result is the earliest buzzword that occurs, as a keyword with confidence 1.0 |
| InterruptDetection.DetectSpeed | lib/interrupt-detector.ts:148-160 | a trigger exactly when the rule is on and the pace is above the threshold; it reports the pace, with confidence (pace − threshold) / 40 below 40 words per minute over and 1 from there on, always in (0, 1] |
| InterruptDetection.FirstContradiction | lib/interrupt-detector.ts:174-186 | none exactly when no pattern has its claim on the slide and a phrase in the speech; otherwise the first such pattern with its first phrase found in the speech |
| InterruptDetection.InterruptDetector.DetectContradiction | lib/interrupt-detector.ts:165-189 | disabled, or a slide without stored or with empty text, means none; otherwise the loop returns the first applicable pattern and its first phrase, in the message format, with confidence 0.9 |
| InterruptDetection.DetectEmotionIssue | lib/interrupt-detector.ts:195-244 | disabled or no face means none; fear above the threshold always reports (the numbers message while money is talked about, the fear message otherwise); a happy face reports exactly above 0.7 on a critical topic; an angry one exactly above the threshold while talking competition; any other emotion never; the confidence is the face's |
| InterruptDetection.FirstTrigger | lib/interrupt-detector.ts:104-122 | the first present candidate in order, and none exactly when all are absent |
| InterruptDetection.InterruptDetector.Analyze | lib/interrupt-detector.ts:96-123 | the chunk is recorded and the pace updated first; the result is the first present trigger in the order buzzword, speed (on the updated pace), contradiction, emotion |
| InterruptDetection.InterruptDetector.LoadPitchDeck | lib/interrupt-detector.ts:89-91 | the slide now maps to its lower-cased content; every other slide keeps what it had, or stays absent |
| InterruptDetection.InterruptDetector.UpdateTranscriptBuffer | lib/interrupt-detector.ts:249-256 | the new buffer is the last 10 of the old buffer followed by the chunk, and never more than 10 chunks |
| InterruptDetection.FeedKeepsMostRecent | lib/interrupt-detector.ts:249-256 | for any number of chunks fed in, the buffer holds exactly the most recent 10 (or all of them), in arrival order |
| InterruptDetection.WordCount | lib/interrupt-detector.ts:262 | a chunk counts at least one word, blank ones included |
| InterruptDetection.WordCountOfWords | lib/interrupt-detector.ts:262 | words separated by single spaces count as exactly as many words as there are |
| InterruptDetection.InterruptDetector.UpdateSpeechSpeed | lib/interrupt-detector.ts:261-273 | the word count grows by the chunk's words; the pace becomes words over elapsed minutes when time has passed, and is kept otherwise |
| InterruptDetection.InterruptDetector.GetContext | lib/interrupt-detector.ts:278-282 | the last up to three chunks joined by single spaces, empty for an empty buffer |
| InterruptDetection.InterruptDetector.Reset | lib/interrupt-detector.ts:287-292 | the buffer is empty and both counters are zero; slides and configuration are untouched |
| FeedbackStore.SafeParse | lib/feedback-store.ts:57-66 | a missing or empty raw text, a parse failure, a non-object and an object without an entries array all give the empty log; otherwise the parsed entries and start time are returned |
| FeedbackStore.SplitLines | lib/feedback-store.ts:141 | at least one piece, and no piece contains a line feed |
| FeedbackStore.SplitLinesRoundTrip | lib/feedback-store.ts:141 | the pieces joined by line feeds give the text back, less the carriage return of each `\r\n` line end |
| FeedbackStore.SplitLinesJoinBack | lib/feedback-store.ts:141 | a text without carriage returns is exactly its pieces joined by line feeds |
| FeedbackStore.FirstNonBlankIsFirst | lib/feedback-store.ts:142 | the line found is not blank and every line before it is; none is found exactly when every line is blank |
| FeedbackStore.InferSectionTitlePrecedence | lib/feedback-store.ts:132-149 | a non-blank provided title wins trimmed; otherwise non-blank page text gives its first non-blank line, trimmed and cut to 80 characters; otherwise "Page N" |
| FeedbackStore.InferSectionTitleNotBlank | lib/feedback-store.ts:132-149 | whichever rule applies, the title is never blank |
| FeedbackStore.StartSession | lib/feedback-store.ts:83-95 | entries are kept; a non-zero start time is kept; an absent (or zero) start time becomes now |
| FeedbackStore.StartSessionIdempotent | lib/feedback-store.ts:90-94 | starting a second time changes nothing once a non-zero stamp is there |
| FeedbackStore.Append | lib/feedback-store.ts:96-118 | the old entries are kept as a prefix and exactly one entry follows, carrying the id, the clock and the input fields, with a given title winning verbatim over the inferred one; an existing start time is kept, otherwise it becomes now |
| FeedbackStore.Clear | lib/feedback-store.ts:119-125 | no entries and no start time |
| FeedbackStore.PageSet | lib/feedback-store.ts:231 | exactly the page numbers some entry has |
| FeedbackStore.PageSetAtMostEntries | lib/feedback-store.ts:231 | there are no more distinct pages than entries |
| FeedbackStore.MaxCreatedAt | lib/feedback-store.ts:232-235 | an upper bound of every creation time that is attained (or is the starting value) |
| FeedbackStore.DeriveOverallSummary | lib/feedback-store.ts:230-241 | the number of entries; the number of distinct pages, at most that; the latest creation time, attained by an entry and absent exactly when there are none |
| FeedbackSections.PageRange | lib/feedback-store.ts:166-169 | the pages from start to end in increasing order, none for an inverted range |
| FeedbackSections.Covering | lib/feedback-store.ts:182-184 | the first section whose range holds the page, none exactly when no range does |
| FeedbackSections.TitleFor | lib/feedback-store.ts:178-188 | the first covering section's title, or the entry's own title when there is no map or no section covers the page |
| FeedbackSections.EachEntryUnderOneTitle | lib/feedback-store.ts:176-209 | every entry is listed under its own title as often as it occurs in the session, and under no other title |
| FeedbackSections.SectionOrder | lib/feedback-store.ts:162-174 | the pre-filled keys are the sections' titles, each once |
| FeedbackSections.LastWithTitle | lib/feedback-store.ts:163-173 | the surviving pre-filled section for a title has that title, and there is one exactly when some section has it |
| FeedbackSections.InsertPageMembers | lib/feedback-store.ts:202-205 | adding a page adds exactly that page |
| FeedbackSections.InsertPageSorted | lib/feedback-store.ts:202-205 | adding an unlisted page to a sorted list keeps it sorted without repeats |
| FeedbackSections.SummaryLatest | lib/feedback-store.ts:193-207 | the latest time bounds every filed entry and is attained by one, or is 0 for a pre-filled summary |
| FeedbackSections.MinPage | lib/feedback-store.ts:223-224 | the smallest page, none for an empty list |
| FeedbackSections.BeforeOrder | lib/feedback-store.ts:222-227 | the comparator is irreflexive, asymmetric, ties exactly on equal keys, and transitive through a non-inversion |
| FeedbackSections.SortSummariesCorrect | lib/feedback-store.ts:222-227 | the sort keeps the summaries (as a multiset), orders them by first page then latest time, and keeps tied summaries in the map's key order |
| FeedbackSections.PrefillSections | lib/feedback-store.ts:162-174 | the map holds one empty summary per section title, with the page range of the last section of that title and latest time 0, in first-seen key order |
| FeedbackSections.FileEntries | lib/feedback-store.ts:176-209 | after filing, each title maps to a summary of exactly the entries filed under it in session order, pages sorted without repeats and covering the range and the entries, and the latest time, with keys in insertion order |
| FeedbackSections.FileStep | lib/feedback-store.ts:190-208 | filing one more entry, as a new summary or by extending the existing one, keeps what `FileEntries` states |
| FeedbackSections.KeepFilled | lib/feedback-store.ts:220-221 | the values are taken in key order and exactly those with entries are kept |
| FeedbackSections.SortKeepsSummaries | lib/feedback-store.ts:220-227 | the sorted list holds the same summaries and its titles stay distinct |
| FeedbackSections.DeriveSectionSummaries | lib/feedback-store.ts:151-228 | one summary per title that has entries, titles distinct, every session entry under the summary of its title; each summary holds exactly its entries in session order, sorted unique pages and its latest time; sorted by first page then latest time, ties in map order |
| Text.Trim | lib/feedback-store.ts:137 | the result is a piece of the text with only white space before and after it; it is empty exactly when the text is all white space, and otherwise starts and ends with a non-white-space character |
| Text.ContainsIff | lib/interrupt-detector.ts:132 | `includes` holds exactly when the word occurs at some position |
| Text.NatToStringRoundTrip | hooks/use-roast-session.ts:114 | the decimal spelling of a number reads back as that number |

## Left out

- The Deepgram WebSocket, the token fetch, `getUserMedia`, `MediaRecorder` and teardown are device and network I/O. Only the `(hypothesis, isFinal)` message reaches the model.
- The MediaSource and blob audio pipeline (chunk queue, `appendNext`, `pump`, object URLs) is browser media plumbing. It is reduced to events: streamed playback started, whole-clip playback started, playback resumed after a pause, playback stopped, and the stream failed.
- The two whole-clip paths (no streaming support, and a stream buffer that cannot be set up) only set speaking when the clip starts. Pending stays set and the fail-safe stays armed until the clip ends, unlike the streaming path.
- RoastSession.Session.BlobPlaybackStarted: one event stands for both whole-clip paths. The second of them keeps the streaming path's `onended` handler, which the model treats the same as the first path's.
- RoastSession.Session.PlaybackStarted: the playback events may arrive in any order, including orders the browser never produces, and the model does not record which handlers are still attached. In one order the browser can produce, the stream fails within the 500 ms start delay and the handlers are cleared; the delayed start then sets speaking, and no handler is left to clear it. The model does not single out that case.
- The `fetch` calls to the analysis and speech endpoints are network calls. The verdict (`Verdict`, with the catch folded into `Failed`) and the speech outcome are method inputs.
- The emotion description formatted with `toFixed` is float-to-string formatting. The request carries the face data itself.
- `Date.now` is an input. Where the code reads the clock twice within one synchronous step, as in the roast's id and timestamp, the model uses one `now`.
- RoastSession.Session.StartUtteranceTimer: the default delay of 1200 ms is never used by a caller, so the delay is always passed in.
- RoastSession.Heard: a message without a hypothesis is read as an empty one; the code's optional chaining does the same.
- InterruptDetection.InterruptDetector.UpdateSpeechSpeed: the `lastWordTime` clock field is not modelled; the minutes since the previous chunk are a parameter, and the pace is a `real` rather than a float.
- Text.ToLower: lower-cases ASCII letters only; JavaScript's `toLowerCase` is full Unicode. Lengths and slices count characters, where JavaScript counts UTF-16 code units.
- FeedbackSections.SortSummaries: JavaScript's sort is modelled as a stable insertion sort, which is what current engines guarantee. An empty page list counts as an infinite first page, as `Math.min()` does.
- FeedbackStore.MakeEntry: the input keys are modelled as present or absent. An input whose `sectionTitle` key is present but set to `undefined` would, through the spread, overwrite the inferred title with `undefined`; the model treats it as absent.
- Local-storage persistence, `load`, `JSON.parse` itself (its outcome is a `Parsed` input to `SafeParse`), `getId` (the id is an input), `subscribe` and the listener notifications are foreign I/O.
- FeedbackStore.StartSession: the store persists and notifies only when it stamps a time. The model returns the session that results, unchanged when nothing is stamped.
- Concurrency is modelled as interleaved event steps. Each method is one synchronous stretch of the code between two awaits.
