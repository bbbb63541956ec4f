/** The live roast session controller: the refs one session owns, the events
    that reach it (a speech-recognition hypothesis, a timer going off, the
    analysis endpoint answering, the speech endpoint answering, the audio
    element starting or stopping) and the decisions it takes on each.

    Time is the number of milliseconds `now` handed to every event that reads
    the clock. A timer slot holds the deadline it was armed for, or `None`.
    The analysis verdict and the outcome of a speech request arrive as
    arguments; the collaborators' refs (deck text, page texts, face data) come
    in as a `Context`. */
module RoastSession {
  import opened Wrappers
  import opened Text
  import opened FaceSignal

  /** The shortest gap between the start of one analysis and the last one's end. */
  const MinAnalysisIntervalMs: nat := 1500
  /** The fewest trimmed characters of new speech worth analysing without a face. */
  const MinUtteranceChars: nat := 24
  /** How long after a roast was handed to speech no new analysis starts. */
  const RoastCooldownMs: nat := 3000
  /** How long a roast may wait for playback before the fail-safe unblocks analysis. */
  const SpeechFailSafeMs: nat := 3000
  /** The silence after which the utterance timer asks for an analysis. */
  const SilenceDelayMs: nat := 2000
  /** Unanalysed buffer length above which an analysis is asked for at once. */
  const LongBufferChars: nat := 150
  /** How much of the unconsumed transcript is sent for analysis: its tail. */
  const RecentDeltaChars: nat := 500
  /** How much of the deck text stands in for a missing deck summary. */
  const DeckSummaryChars: nat := 1200

  datatype Severity = Info | Warning | Critical

  datatype RoastMessage = RoastMessage(id: string, text: string, severity: Severity, timestamp: nat)

  /** What the analysis endpoint answered. `Failed` is a rejected request or a
      body that is not JSON; both land in the same `catch`. */
  datatype Verdict = Failed | Replied(shouldInterrupt: bool, roastMessage: string)

  /** The collaborators' refs that analysis reads. */
  datatype Context = Context(
    pdfText: string, pageTexts: seq<string>, deckSummary: string,
    currentPage: int, faceData: Option<FaceData>)

  /** The body posted to the analysis endpoint; the face data stands in for
      its formatted description. */
  datatype OracleRequest = OracleRequest(
    transcript: string, faceData: Option<FaceData>, pageText: string,
    deckSummary: string, previousRoasts: seq<string>)

  /** The early returns of an analysis, one per check. */
  datatype Check =
    | VoiceBusy        // speaking, or a roast waiting for playback
    | AudioPlaying     // the audio element is not paused
    | AlreadyAnalyzing
    | TooSoon          // less than the minimum interval since the last analysis
    | NothingNew       // the transcript is no longer than the analysed watermark
    | NothingToSay     // the unconsumed text is blank and there is no face
    | TooShort         // the unconsumed text is too short and there is no face
    | NoContext        // no deck text, no page text and no summary
    | NothingRecent    // the tail to be sent is blank and there is no face
    | CoolingDown      // a roast was handed to speech too recently

  /** The checks in the order the controller makes them. */
  const Checks: seq<Check> := [
    VoiceBusy, AudioPlaying, AlreadyAnalyzing, TooSoon, NothingNew,
    NothingToSay, TooShort, NoContext, NothingRecent, CoolingDown
  ]

  /** What an analysis attempt did: stopped at a check, or sent a request. */
  datatype Outcome = Suppressed(check: Check) | Requested(request: OracleRequest)

  // ---------------------------------------------------------------------
  // Transcript accumulation

  /** The trimmed text of a hypothesis; a message without one reads as empty. */
  function Heard(hypothesis: Option<string>): string {
    Trim(hypothesis.GetOr([]))
  }

  /** The new text a hypothesis brings: what lies past the cached partial when
      the hypothesis extends it, otherwise the whole hypothesis. The rule does
      not depend on whether the hypothesis is final. */
  function Delta(lastPartial: string, heard: string): string {
    if lastPartial != [] && lastPartial <= heard then heard[|lastPartial|..] else heard
  }

  /** The cached partial followed by the delta gives back the hypothesis
      when the hypothesis extends the cache; otherwise the delta is the
      whole hypothesis. */
  lemma DeltaCompletes(lastPartial: string, heard: string)
    ensures lastPartial != [] && lastPartial <= heard ==> lastPartial + Delta(lastPartial, heard) == heard
    ensures !(lastPartial != [] && lastPartial <= heard) ==> Delta(lastPartial, heard) == heard
    ensures |Delta(lastPartial, heard)| <= |heard|
  {
  }

  /** The partial cache after a hypothesis: the hypothesis while it is
      provisional, nothing once it is final. */
  function NextPartial(heard: string, isFinal: bool): string {
    if isFinal then [] else heard
  }

  /** The buffer with a delta appended, separated by one space from text
      already there. */
  function Extend(buffer: string, d: string): string {
    if buffer != [] then buffer + " " + d else d
  }

  /** Extending keeps the old buffer as a prefix, puts exactly one space
      between it and the delta when it is not empty, and ends with the delta. */
  lemma ExtendShape(buffer: string, d: string)
    ensures var r := Extend(buffer, d);
      && buffer <= r
      && |r| == |buffer| + (if buffer == [] then 0 else 1) + |d|
      && r[|r| - |d|..] == d
      && (buffer != [] ==> r[|buffer|] == ' ')
  {
  }

  /** `/[.!?]/.test(d)`. */
  predicate HasPunctuation(d: string) {
    '.' in d || '!' in d || '?' in d
  }

  /** Whether a message asks for an analysis at once: the delta ends a
      sentence, or the buffer has run more than `LongBufferChars` past the
      analysed watermark. */
  predicate AnalyzeNow(d: string, bufferLength: nat, lastAnalyzedLen: nat) {
    HasPunctuation(d) || bufferLength - lastAnalyzedLen > LongBufferChars
  }

  /** The deltas of a run of hypotheses, the cache starting at `partial` and
      every hypothesis being provisional. */
  function Deltas(partial: string, hs: seq<string>): seq<string>
    decreases |hs|
  {
    if hs == [] then [] else [Delta(partial, hs[0])] + Deltas(hs[0], hs[1..])
  }

  function Concat(ss: seq<string>): string {
    if ss == [] then [] else ss[0] + Concat(ss[1..])
  }

  /** Each hypothesis of the run extends the one before it, the first one
      extending the cache. */
  predicate Cumulative(partial: string, hs: seq<string>) {
    && (hs != [] ==> partial <= hs[0])
    && forall i :: 0 <= i < |hs| - 1 ==> hs[i] <= hs[i + 1]
  }

  /** For cumulative provisional hypotheses the deltas add up, without any
      separator, to the last hypothesis past the cache. */
  lemma {:induction false} CumulativeDeltas(partial: string, hs: seq<string>)
    requires hs != [] && Cumulative(partial, hs)
    ensures partial + Concat(Deltas(partial, hs)) == hs[|hs| - 1]
    decreases |hs|
  {
    var d := Delta(partial, hs[0]);
    DeltaCompletes(partial, hs[0]);
    assert partial + d == hs[0];
    if |hs| == 1 {
      assert Deltas(partial, hs) == [d];
      assert Concat([d]) == d + Concat([]);
    } else {
      var rest := hs[1..];
      assert Cumulative(hs[0], rest) by {
        forall i | 0 <= i < |rest| - 1 ensures rest[i] <= rest[i + 1] {
          assert rest[i] == hs[i + 1] && rest[i + 1] == hs[i + 2];
        }
      }
      CumulativeDeltas(hs[0], rest);
      assert Concat(Deltas(partial, hs)) == d + Concat(Deltas(hs[0], rest));
    }
  }

  /** The buffer after appending each delta in turn. */
  function ExtendAll(buffer: string, ds: seq<string>): string {
    if ds == [] then buffer else Extend(ExtendAll(buffer, ds[..|ds| - 1]), ds[|ds| - 1])
  }

  lemma {:induction false} JoinNonEmpty(parts: seq<string>, sep: string)
    requires parts != [] && parts[0] != []
    ensures Join(parts, sep) != []
    decreases |parts|
  {
    if |parts| > 1 {
      JoinNonEmpty(parts[..|parts| - 1], sep);
    }
  }

  /** Starting from an empty buffer, non-empty deltas end up space-separated:
      the buffer holds the deltas joined with single spaces. */
  lemma {:induction false} BufferJoinsDeltas(ds: seq<string>)
    requires forall i :: 0 <= i < |ds| ==> ds[i] != []
    ensures ExtendAll([], ds) == Join(ds, " ")
    decreases |ds|
  {
    if |ds| > 1 {
      var init := ds[..|ds| - 1];
      BufferJoinsDeltas(init);
      JoinNonEmpty(init, " ");
    }
  }

  // ---------------------------------------------------------------------
  // The analysis gate

  /** Everything an analysis attempt reads, taken at the moment it starts. */
  datatype GateInput = GateInput(
    speaking: bool, pending: bool, audioPlaying: bool, analyzing: bool,
    now: nat, lastAnalysisAt: nat, lastRoastAt: nat,
    transcript: string, lastAnalyzedLen: nat, lastConsumedIdx: nat,
    ctx: Context)

  /** `pageTexts[currentPage - 1] || ""`: the current page's text, empty when
      the page number is out of range. */
  function PageText(ctx: Context): string {
    if 1 <= ctx.currentPage <= |ctx.pageTexts| then ctx.pageTexts[ctx.currentPage - 1] else []
  }

  /** The deck summary, or else the start of the deck text. */
  function DeckSummary(ctx: Context): string {
    if ctx.deckSummary != [] then ctx.deckSummary else Take(ctx.pdfText, DeckSummaryChars)
  }

  /** A deck summary that was given is used as it is; otherwise the deck
      text stands in, cut to `DeckSummaryChars`. The context is empty only
      when both are. */
  lemma DeckSummaryFallsBack(ctx: Context)
    ensures ctx.deckSummary != [] ==> DeckSummary(ctx) == ctx.deckSummary
    ensures ctx.deckSummary == [] ==> DeckSummary(ctx) <= ctx.pdfText && |DeckSummary(ctx)| <= DeckSummaryChars
    ensures ctx.deckSummary == [] && |ctx.pdfText| >= DeckSummaryChars ==> |DeckSummary(ctx)| == DeckSummaryChars
    ensures DeckSummary(ctx) == [] <==> ctx.deckSummary == [] && ctx.pdfText == []
  {
  }

  /** The transcript past the consumed watermark; empty past its end. */
  function Unconsumed(g: GateInput): string {
    Drop(g.transcript, g.lastConsumedIdx)
  }

  /** The text sent for analysis: the last `RecentDeltaChars` characters of
      the unconsumed transcript, or all of it when shorter. */
  function RecentDelta(g: GateInput): string {
    TakeLast(Unconsumed(g), RecentDeltaChars)
  }

  /** What is sent is a tail of what follows the consumed watermark: all of
      it when short, exactly `RecentDeltaChars` characters otherwise. */
  lemma RecentDeltaIsTail(g: GateInput)
    ensures g.lastConsumedIdx <= |g.transcript| ==>
      g.transcript == g.transcript[..g.lastConsumedIdx] + Unconsumed(g)
    ensures g.lastConsumedIdx >= |g.transcript| ==> Unconsumed(g) == []
    ensures var u := Unconsumed(g); var r := RecentDelta(g);
      && |r| <= |u| && u == u[..|u| - |r|] + r
      && (|u| <= RecentDeltaChars ==> r == u)
      && (|u| > RecentDeltaChars ==> |r| == RecentDeltaChars)
  {
    var u := Unconsumed(g);
    var r := RecentDelta(g);
    assert u == u[..|u| - |r|] + r;
  }

  /** Whether a check stops the attempt described by `g`. */
  predicate Fails(c: Check, g: GateInput) {
    match c
    case VoiceBusy => g.speaking || g.pending
    case AudioPlaying => g.audioPlaying
    case AlreadyAnalyzing => g.analyzing
    case TooSoon => g.now - g.lastAnalysisAt < MinAnalysisIntervalMs
    case NothingNew => |g.transcript| <= g.lastAnalyzedLen
    case NothingToSay => AllWhitespace(Unconsumed(g)) && g.ctx.faceData.None?
    case TooShort => |Trim(Unconsumed(g))| < MinUtteranceChars && g.ctx.faceData.None?
    case NoContext => g.ctx.pdfText == [] && PageText(g.ctx) == [] && DeckSummary(g.ctx) == []
    case NothingRecent => AllWhitespace(RecentDelta(g)) && g.ctx.faceData.None?
    case CoolingDown => g.now - g.lastRoastAt < RoastCooldownMs
  }

  /** Where a check stands in the controller's order. */
  function Position(c: Check): (k: nat)
    ensures k < |Checks| && Checks[k] == c
  {
    match c
    case VoiceBusy => 0
    case AudioPlaying => 1
    case AlreadyAnalyzing => 2
    case TooSoon => 3
    case NothingNew => 4
    case NothingToSay => 5
    case TooShort => 6
    case NoContext => 7
    case NothingRecent => 8
    case CoolingDown => 9
  }

  /** The checks are listed once each. */
  lemma PositionOfCheck(k: nat)
    requires k < |Checks|
    ensures Position(Checks[k]) == k
  {
    if k == 0 {} else if k == 1 {} else if k == 2 {} else if k == 3 {} else if k == 4 {}
    else if k == 5 {} else if k == 6 {} else if k == 7 {} else if k == 8 {} else {}
  }

  /** The first check from position `k` on that stops the attempt. */
  function GateFrom(g: GateInput, k: nat): Option<Check>
    decreases |Checks| - k
  {
    if k >= |Checks| then None
    else if Fails(Checks[k], g) then Some(Checks[k])
    else GateFrom(g, k + 1)
  }

  /** One step of the search, at the check in position `k`. */
  lemma GateStep(g: GateInput, k: nat, c: Check)
    requires k < |Checks| && Checks[k] == c
    ensures GateFrom(g, k) == if Fails(c, g) then Some(c) else GateFrom(g, k + 1)
  {
  }

  /** The controller's chain of early returns: the check that stops an
      attempt, or none. */
  function Gate(g: GateInput): Option<Check> {
    if Fails(VoiceBusy, g) then Some(VoiceBusy)
    else if Fails(AudioPlaying, g) then Some(AudioPlaying)
    else if Fails(AlreadyAnalyzing, g) then Some(AlreadyAnalyzing)
    else if Fails(TooSoon, g) then Some(TooSoon)
    else if Fails(NothingNew, g) then Some(NothingNew)
    else if Fails(NothingToSay, g) then Some(NothingToSay)
    else if Fails(TooShort, g) then Some(TooShort)
    else if Fails(NoContext, g) then Some(NoContext)
    else if Fails(NothingRecent, g) then Some(NothingRecent)
    else if Fails(CoolingDown, g) then Some(CoolingDown)
    else None
  }

  /** The chain is the search for the first failing check of `Checks`. */
  lemma GateIsSearch(g: GateInput)
    ensures Gate(g) == GateFrom(g, 0)
  {
    GateStep(g, 0, VoiceBusy);
    GateStep(g, 1, AudioPlaying);
    GateStep(g, 2, AlreadyAnalyzing);
    GateStep(g, 3, TooSoon);
    GateStep(g, 4, NothingNew);
    GateStep(g, 5, NothingToSay);
    GateStep(g, 6, TooShort);
    GateStep(g, 7, NoContext);
    GateStep(g, 8, NothingRecent);
    GateStep(g, 9, CoolingDown);
    assert GateFrom(g, 10) == None;
  }

  lemma {:induction false} GateFromFirst(g: GateInput, k: nat)
    ensures GateFrom(g, k).Some? ==> k <= Position(GateFrom(g, k).value) && Fails(GateFrom(g, k).value, g)
    ensures forall c: Check :: Fails(c, g) && k <= Position(c) ==>
      GateFrom(g, k).Some? && Position(GateFrom(g, k).value) <= Position(c)
    decreases |Checks| - k
  {
    if k < |Checks| {
      PositionOfCheck(k);
      GateFromFirst(g, k + 1);
    }
  }

  /** An attempt goes through exactly when no check fails; one that is
      stopped is stopped by a failing check that no other failing check
      precedes in the controller's order. */
  lemma GateFindsFirstFailure(g: GateInput)
    ensures Gate(g).None? <==> forall c: Check :: !Fails(c, g)
    ensures Gate(g).Some? ==> Fails(Gate(g).value, g)
    ensures forall c: Check :: Fails(c, g) ==> Gate(g).Some? && Position(Gate(g).value) <= Position(c)
  {
    GateIsSearch(g);
    GateFromFirst(g, 0);
  }

  /** With a face in view the three text checks cannot fail: an attempt is
      admitted as soon as the voice channel is free, no analysis is running,
      both quiet periods are over, the transcript has grown past the
      watermark and there is deck text. */
  lemma FaceSkipsTextChecks(g: GateInput)
    requires g.ctx.faceData.Some? && g.ctx.pdfText != []
    requires !g.speaking && !g.pending && !g.audioPlaying && !g.analyzing
    requires g.now >= g.lastAnalysisAt + MinAnalysisIntervalMs && g.now >= g.lastRoastAt + RoastCooldownMs
    requires |g.transcript| > g.lastAnalyzedLen
    ensures Gate(g).None?
  {
  }

  /** A blank unconsumed text is always too short, so the fifth check could
      be dropped without changing which attempts get through. */
  lemma BlankIsTooShort(g: GateInput)
    requires Fails(NothingToSay, g)
    ensures Fails(TooShort, g)
  {
  }

  function RoastTexts(roasts: seq<RoastMessage>): (r: seq<string>)
    ensures |r| == |roasts|
    ensures forall i :: 0 <= i < |r| ==> r[i] == roasts[i].text
  {
    if roasts == [] then [] else RoastTexts(roasts[..|roasts| - 1]) + [roasts[|roasts| - 1].text]
  }

  /** The request an admitted attempt sends. */
  function Request(g: GateInput, roasts: seq<RoastMessage>): OracleRequest {
    OracleRequest(RecentDelta(g), g.ctx.faceData, PageText(g.ctx), DeckSummary(g.ctx), RoastTexts(roasts))
  }

  /** Whether a verdict makes the controller roast: it says to interrupt
      and carries a non-empty message. */
  predicate Interrupts(v: Verdict) {
    v.Replied? && v.shouldInterrupt && v.roastMessage != []
  }

  /** The roast `triggerRoast` records; both its id and its timestamp come
      from the clock. */
  function NewRoast(text: string, now: nat): (m: RoastMessage)
    ensures m.text == text && m.severity == Critical && m.timestamp == now
    ensures m.id == NatToString(now) && DecimalValue(m.id) == now
  {
    NatToStringRoundTrip(now);
    RoastMessage(NatToString(now), text, Critical, now)
  }

  // ---------------------------------------------------------------------
  // The controller

  class Session {
    var isAnalyzing: bool
    var isSpeaking: bool
    var isSpeechPending: bool
    /** The fail-safe timer armed by the last roast. */
    var speechTimer: Option<nat>
    /** The timer that runs an analysis. */
    var analysisTimer: Option<nat>
    /** The silence timer. */
    var utteranceTimer: Option<nat>
    var transcript: string
    var lastConsumedIdx: nat
    var lastAnalyzedLen: nat
    var lastAnalysisAt: nat
    var lastRoastAt: nat
    var partialCache: string
    var utteranceBuffer: string
    var roasts: seq<RoastMessage>
    /** The audio element is not paused. */
    var audioPlaying: bool
    /** The transcript length captured by the analysis in flight. */
    var processedLength: nat
    /** Roasts handed to the speech endpoint that it has not answered yet. */
    var speakRequests: nat

    /** The transcript ref always mirrors the utterance buffer, the two
        watermarks are always assigned together, and every roast is critical. */
    predicate Valid()
      reads this
    {
      && transcript == utteranceBuffer
      && lastConsumedIdx == lastAnalyzedLen
      && forall i :: 0 <= i < |roasts| ==> roasts[i].severity == Critical
    }

    constructor ()
      ensures Valid()
      ensures !isAnalyzing && !isSpeaking && !isSpeechPending && !audioPlaying
      ensures speechTimer.None? && analysisTimer.None? && utteranceTimer.None?
      ensures transcript == [] && partialCache == [] && utteranceBuffer == [] && roasts == []
      ensures lastConsumedIdx == 0 && lastAnalyzedLen == 0 && lastAnalysisAt == 0 && lastRoastAt == 0
      ensures processedLength == 0 && speakRequests == 0
    {
      isAnalyzing, isSpeaking, isSpeechPending, audioPlaying := false, false, false, false;
      speechTimer, analysisTimer, utteranceTimer := None, None, None;
      transcript, partialCache, utteranceBuffer, roasts := [], [], [], [];
      lastConsumedIdx, lastAnalyzedLen, lastAnalysisAt, lastRoastAt := 0, 0, 0, 0;
      processedLength, speakRequests := 0, 0;
    }

    /** What an analysis starting now would read. */
    function Snapshot(now: nat, ctx: Context): GateInput
      reads this
    {
      GateInput(isSpeaking, isSpeechPending, audioPlaying, isAnalyzing, now, lastAnalysisAt,
                lastRoastAt, transcript, lastAnalyzedLen, lastConsumedIdx, ctx)
    }

    /** `scheduleAnalysis(delayMs)`: the analysis timer is re-armed, replacing
        any deadline it held. */
    method ScheduleAnalysis(delayMs: nat, now: nat)
      modifies this`analysisTimer
      ensures analysisTimer == Some(now + delayMs)
    {
      analysisTimer := Some(now + delayMs);
    }

    /** `startUtteranceTimer(delayMs)`: the silence timer is re-armed,
        replacing any deadline it held. */
    method StartUtteranceTimer(delayMs: nat, now: nat)
      modifies this`utteranceTimer
      ensures utteranceTimer == Some(now + delayMs)
    {
      utteranceTimer := Some(now + delayMs);
    }

    /** A speech-recognition message. A message whose hypothesis is missing
        or blank once trimmed changes nothing; any other is taken in. */
    method OnTranscript(hypothesis: Option<string>, isFinal: bool, now: nat)
      requires Valid()
      modifies this`partialCache, this`utteranceBuffer, this`transcript,
               this`analysisTimer, this`utteranceTimer
      ensures Valid()
      ensures Heard(hypothesis) == [] ==> unchanged(this)
      ensures Heard(hypothesis) != [] ==> Took(Heard(hypothesis), isFinal, now)
      ensures old(utteranceBuffer) <= utteranceBuffer
    {
      var heard := Heard(hypothesis);
      if heard == [] {
        return;
      }
      TakeHypothesis(heard, isFinal, now);
    }

    /** The state after the non-empty hypothesis `heard` has been taken in:
        the delta against the cached partial is appended to the buffer when it
        is not blank, the cache is replaced or cleared, an analysis is asked
        for at once on punctuation or a long buffer, and the silence timer is
        re-armed. */
    twostate predicate Took(heard: string, isFinal: bool, now: nat)
      reads this
    {
      var d := Delta(old(partialCache), heard);
      && partialCache == NextPartial(heard, isFinal)
      && utteranceBuffer == (if AllWhitespace(d) then old(utteranceBuffer) else Extend(old(utteranceBuffer), d))
      && transcript == utteranceBuffer
      && analysisTimer == (if AnalyzeNow(d, |utteranceBuffer|, lastAnalyzedLen) then Some(now) else old(analysisTimer))
      && utteranceTimer == Some(now + SilenceDelayMs)
    }

    method TakeHypothesis(heard: string, isFinal: bool, now: nat)
      requires Valid()
      modifies this`partialCache, this`utteranceBuffer, this`transcript,
               this`analysisTimer, this`utteranceTimer
      ensures Valid()
      ensures Took(heard, isFinal, now)
      ensures old(utteranceBuffer) <= utteranceBuffer
    {
      var delta := Delta(partialCache, heard);
      partialCache := NextPartial(heard, isFinal);
      if !AllWhitespace(delta) {
        ExtendShape(utteranceBuffer, delta);
        utteranceBuffer := Extend(utteranceBuffer, delta);
        transcript := utteranceBuffer;
      }
      if AnalyzeNow(delta, |utteranceBuffer|, lastAnalyzedLen) {
        ScheduleAnalysis(0, now);
      }
      StartUtteranceTimer(SilenceDelayMs, now);
    }

    /** `analyzePitch` up to its request: the checks in order, each an early
        return that changes nothing; an admitted attempt marks the analysis as
        running and captures the transcript length. */
    method AnalyzePitch(now: nat, ctx: Context) returns (outcome: Outcome)
      requires Valid()
      modifies this`isAnalyzing, this`processedLength
      ensures Valid()
      ensures var g := old(Snapshot(now, ctx));
        match Gate(g)
        case Some(c) => outcome == Suppressed(c) && unchanged(this)
        case None => outcome == Requested(Request(g, roasts)) && isAnalyzing && processedLength == |transcript|
    {
      var g := Snapshot(now, ctx);
      var stop := Gate(g);
      if stop.Some? {
        return Suppressed(stop.value);
      }
      isAnalyzing := true;
      processedLength := |transcript|;
      outcome := Requested(Request(g, roasts));
    }

    /** The analysis timer goes off: its slot is emptied and an analysis is
        attempted. */
    method FireAnalysisTimer(now: nat, ctx: Context) returns (outcome: Outcome)
      requires Valid() && analysisTimer.Some? && analysisTimer.value <= now
      modifies this`analysisTimer, this`isAnalyzing, this`processedLength
      ensures Valid() && analysisTimer.None?
      ensures var g := old(Snapshot(now, ctx));
        match Gate(g)
        case Some(c) => outcome == Suppressed(c) && isAnalyzing == old(isAnalyzing)
                        && processedLength == old(processedLength)
        case None => outcome == Requested(Request(g, roasts)) && isAnalyzing && processedLength == |transcript|
    {
      analysisTimer := None;
      outcome := AnalyzePitch(now, ctx);
    }

    /** The silence timer goes off: its slot is emptied and an analysis is
        asked for at once. */
    method FireUtteranceTimer(now: nat)
      requires utteranceTimer.Some? && utteranceTimer.value <= now
      modifies this`utteranceTimer, this`analysisTimer
      ensures utteranceTimer.None? && analysisTimer == Some(now)
    {
      utteranceTimer := None;
      ScheduleAnalysis(0, now);
    }

    /** The part of `triggerRoast` before its first wait: the roast blocks
        further analysis, arms the fail-safe, is recorded as critical and is
        handed to the speech endpoint. */
    method TriggerRoast(text: string, now: nat)
      requires Valid()
      modifies this`isSpeechPending, this`speechTimer, this`roasts, this`speakRequests
      ensures Valid()
      ensures isSpeechPending && speechTimer == Some(now + SpeechFailSafeMs)
      ensures roasts == old(roasts) + [NewRoast(text, now)]
      ensures speakRequests == old(speakRequests) + 1
    {
      isSpeechPending := true;
      speechTimer := Some(now + SpeechFailSafeMs);
      roasts := roasts + [NewRoast(text, now)];
      speakRequests := speakRequests + 1;
    }

    /** The analysis endpoint answers (or fails) for the attempt in flight:
        an interrupting verdict roasts first, then the analysis stops running,
        is stamped, and both watermarks move to the length captured when it
        started, however the transcript has changed since. */
    method CompleteAnalysis(verdict: Verdict, now: nat)
      requires Valid() && isAnalyzing
      modifies this`isAnalyzing, this`lastAnalysisAt, this`lastAnalyzedLen, this`lastConsumedIdx,
               this`isSpeechPending, this`speechTimer, this`roasts, this`speakRequests
      ensures Valid()
      ensures !isAnalyzing && lastAnalysisAt == now
      ensures lastAnalyzedLen == old(processedLength) && lastConsumedIdx == old(processedLength)
      ensures Interrupts(verdict) ==>
        && isSpeechPending && speechTimer == Some(now + SpeechFailSafeMs)
        && roasts == old(roasts) + [NewRoast(verdict.roastMessage, now)]
        && speakRequests == old(speakRequests) + 1
      ensures !Interrupts(verdict) ==>
        && isSpeechPending == old(isSpeechPending) && speechTimer == old(speechTimer)
        && roasts == old(roasts) && speakRequests == old(speakRequests)
    {
      if Interrupts(verdict) {
        TriggerRoast(verdict.roastMessage, now);
      }
      isAnalyzing := false;
      lastAnalysisAt := now;
      lastAnalyzedLen := processedLength;
      lastConsumedIdx := processedLength;
    }

    /** The speech endpoint answers with audio: the transcript and buffer are
        emptied, both watermarks go back to zero and the roast is stamped; the
        partial cache is kept, since the recogniser's utterance is still open. */
    method SpeakSucceeded(now: nat)
      requires Valid() && speakRequests > 0
      modifies this`transcript, this`utteranceBuffer, this`lastConsumedIdx, this`lastAnalyzedLen,
               this`lastRoastAt, this`speakRequests
      ensures Valid()
      ensures transcript == [] && utteranceBuffer == []
      ensures lastConsumedIdx == 0 && lastAnalyzedLen == 0 && lastRoastAt == now
      ensures speakRequests == old(speakRequests) - 1
    {
      transcript := [];
      lastRoastAt := now;
      lastConsumedIdx := 0;
      lastAnalyzedLen := 0;
      utteranceBuffer := [];
      speakRequests := speakRequests - 1;
    }

    /** The speech request fails or returns no audio: both voice flags drop
        and the fail-safe is cancelled. */
    method SpeakFailed()
      requires speakRequests > 0
      modifies this`isSpeaking, this`isSpeechPending, this`speechTimer, this`speakRequests
      ensures !isSpeaking && !isSpeechPending && speechTimer.None?
      ensures speakRequests == old(speakRequests) - 1
    {
      isSpeaking := false;
      isSpeechPending := false;
      speechTimer := None;
      speakRequests := speakRequests - 1;
    }

    /** The streamed audio has buffered and playback is due. If the element
        is already playing nothing happens; otherwise speaking replaces
        pending, the fail-safe is cancelled and the element plays. */
    method PlaybackStarted()
      modifies this`isSpeaking, this`isSpeechPending, this`speechTimer, this`audioPlaying
      ensures old(audioPlaying) ==> unchanged(this)
      ensures !old(audioPlaying) ==> isSpeaking && !isSpeechPending && speechTimer.None? && audioPlaying
    {
      if audioPlaying {
        return;
      }
      isSpeaking := true;
      isSpeechPending := false;
      speechTimer := None;
      audioPlaying := true;
    }

    /** Playback ends (a media element that reaches its end is paused) or
        the element refuses to start: both voice flags drop, the fail-safe is
        cancelled and the element is not playing. */
    method PlaybackStopped()
      modifies this`isSpeaking, this`isSpeechPending, this`speechTimer, this`audioPlaying
      ensures !isSpeaking && !isSpeechPending && speechTimer.None? && !audioPlaying
    {
      isSpeaking := false;
      isSpeechPending := false;
      speechTimer := None;
      audioPlaying := false;
    }

    /** Playback of a whole downloaded clip starts, on browsers without
        streaming support or when the stream's buffer cannot be set up:
        speaking is set and the element plays, but pending stays as it was and
        the fail-safe stays armed until playback ends. */
    method BlobPlaybackStarted()
      modifies this`isSpeaking, this`audioPlaying
      ensures isSpeaking && audioPlaying
    {
      isSpeaking := true;
      audioPlaying := true;
    }

    /** The element was paused before its end and the `onpause` handler asks
        it to play again; the voice flags are not touched. */
    method ResumedAfterPause()
      modifies this`audioPlaying
      ensures audioPlaying
    {
      audioPlaying := true;
    }

    /** Reading the audio stream fails: both voice flags drop and the
        fail-safe is cancelled, but the element is not paused, so audio
        already buffered keeps playing and keeps blocking analysis. */
    method StreamFailed()
      modifies this`isSpeaking, this`isSpeechPending, this`speechTimer
      ensures !isSpeaking && !isSpeechPending && speechTimer.None?
    {
      isSpeaking := false;
      isSpeechPending := false;
      speechTimer := None;
    }

    /** The fail-safe goes off: both voice flags drop and the element is
        paused. On the streaming path playback has not started yet, so this
        unblocks analysis; on the whole-clip path see `FailSafeDuringClip`. */
    method FireSpeechTimeout(now: nat)
      requires speechTimer.Some? && speechTimer.value <= now
      modifies this`isSpeaking, this`isSpeechPending, this`speechTimer, this`audioPlaying
      ensures !isSpeaking && !isSpeechPending && speechTimer.None? && !audioPlaying
    {
      isSpeechPending := false;
      isSpeaking := false;
      speechTimer := None;
      audioPlaying := false;
    }
  }
  /** On the whole-clip path the fail-safe stays armed while the clip plays.
      When it goes off mid-clip it drops both voice flags and pauses the
      element, and the pause handler starts the clip again: the clip plays on
      with the voice channel marked free, and only the element's own check
      keeps analysis away. */
  method FailSafeDuringClip(s: Session, now: nat)
    requires s.speechTimer.Some? && s.speechTimer.value <= now
    modifies s
    ensures !s.isSpeaking && !s.isSpeechPending && s.audioPlaying && s.speechTimer.None?
  {
    s.BlobPlaybackStarted();
    s.FireSpeechTimeout(now);
    s.ResumedAfterPause();
  }

  /** A speech answer that arrives while an analysis is in flight leaves
      the consumed watermark past the end of the transcript. The state this
      starts from is reachable: the speech fail-safe frees the voice channel
      while the speech request is still open (`FireSpeechTimeout` leaves
      `speakRequests` alone), and the gate does not look at open requests, so
      a second analysis can start and capture the grown transcript. The late
      answer then empties the transcript, and the completing analysis moves
      both watermarks to the length it captured. */
  method StaleWatermark(s: Session, answeredAt: nat, completedAt: nat, verdict: Verdict)
    requires s.Valid() && s.isAnalyzing && s.speakRequests > 0 && s.processedLength > 0
    modifies s
    ensures s.Valid() && s.transcript == []
    ensures s.lastConsumedIdx == old(s.processedLength) > |s.transcript|
  {
    s.SpeakSucceeded(answeredAt);
    s.CompleteAnalysis(verdict, completedAt);
  }
}
