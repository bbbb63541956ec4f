/** The rule-based interrupt detector: a bounded buffer of recent transcript
    chunks, the lower-cased text of each slide, and four detectors consulted
    in a fixed priority order (buzzword, speed, contradiction, emotion). */
module InterruptDetection {
  import opened Wrappers
  import opened Text
  import opened FaceSignal

  datatype Rule = Rule(enabled: bool, threshold: real)

  datatype Config = Config(buzzwords: Rule, speed: Rule, contradiction: Rule, emotion: Rule)

  /** A partial configuration: the rules a caller chose to override. */
  datatype ConfigOverrides = ConfigOverrides(
    buzzwords: Option<Rule>, speed: Option<Rule>,
    contradiction: Option<Rule>, emotion: Option<Rule>)

  /** The speed threshold is in words per minute. */
  const DefaultConfig: Config :=
    Config(Rule(true, 0.8), Rule(true, 160.0), Rule(true, 0.7), Rule(true, 0.6))

  /** How many transcript chunks the buffer keeps. */
  const MaxChunks: nat := 10

  /** How many recent chunks `GetContext` hands to the language model. */
  const ContextChunks: nat := 3

  const Buzzwords: seq<string> := [
    "synergy", "disruptive", "game-changing", "revolutionary",
    "paradigm shift", "leverage", "circle back", "touch base",
    "low-hanging fruit", "move the needle", "unicorn", "moonshot",
    "autopilot", "os for retail",
    "hassle-free",
    "autonomous",
    "real-time",
    "optimize", "automate", "improve",
    "ai-powered", "computer vision", "llm-powered"
  ]

  /** A claim on a slide (`slide`) and the phrases in speech that contradict it. */
  datatype ContradictionPattern = ContradictionPattern(slide: string, speech: seq<string>)

  const ContradictionPatterns: seq<ContradictionPattern> := [
    ContradictionPattern("tam", ["small market", "niche", "limited", "few customers"]),
    ContradictionPattern("$42b", ["hard to scale", "difficult market", "slow adoption"]),
    ContradictionPattern("expertise from experts",
      ["still learning", "figuring out", "not sure", "trying to understand"]),
    ContradictionPattern("ceo", ["first time", "never done this", "new to"]),
    ContradictionPattern("break-even at 18 months",
      ["need more funding", "burn rate high", "running out"]),
    ContradictionPattern("$120m arr", ["hard to acquire customers", "slow sales", "no traction"]),
    ContradictionPattern("profitable", ["losing money", "negative margin", "high costs"]),
    ContradictionPattern("no hardware replacement",
      ["need to install", "hardware required", "buy equipment"]),
    ContradictionPattern("autonomous", ["manual", "human in loop", "requires supervision"]),
    ContradictionPattern("real-time", ["delay", "batch processing", "takes time"]),
    ContradictionPattern("no competitors",
      ["amazon", "walmart", "target", "kroger", "shelf engine", "focal systems"])
  ]

  const MoneyTalk: seq<string> :=
    ["million", "revenue", "equity", "valuation", "funding", "ask", "raising"]
  const CriticalTopics: seq<string> :=
    ["problem", "trillion", "loss", "retailers lose", "out-of-stock"]
  const CompetitiveTalk: seq<string> :=
    ["competitor", "market", "player", "existing solution"]

  /** The confidence above which a happy face during a critical topic is flagged;
      unlike the other emotion rules it does not come from the configuration. */
  const OverconfidenceThreshold: real := 0.7

  datatype TriggerType = Keyword | Speed | Contradiction | Emotion

  /** The trigger's `value`, which is a string or a number. */
  datatype TriggerValue = StringValue(text: string) | NumberValue(number: real)

  datatype Trigger = Trigger(kind: TriggerType, value: TriggerValue, confidence: real)

  /** `{ ...DEFAULT_CONFIG, ...overrides }`. */
  function MergeConfig(o: ConfigOverrides): Config {
    Config(o.buzzwords.GetOr(DefaultConfig.buzzwords), o.speed.GetOr(DefaultConfig.speed),
           o.contradiction.GetOr(DefaultConfig.contradiction), o.emotion.GetOr(DefaultConfig.emotion))
  }

  /** `words.find(w => text.includes(w))`, as the position of the word found:
      the earliest word of the list that occurs in `text`. */
  function FirstContained(words: seq<string>, text: string): (r: Option<nat>)
    ensures r.Some? ==> r.value < |words| && Contains(text, words[r.value])
    ensures r.Some? ==> forall j :: 0 <= j < r.value ==> !Contains(text, words[j])
    ensures r.None? <==> forall j :: 0 <= j < |words| ==> !Contains(text, words[j])
  {
    if words == [] then None
    else if Contains(text, words[0]) then Some(0)
    else
      match FirstContained(words[1..], text)
      case None => None
      case Some(k) => Some(k + 1)
  }

  /** `words.some(w => text.includes(w))`. */
  predicate AnyContained(words: seq<string>, text: string) {
    exists j :: 0 <= j < |words| && Contains(text, words[j])
  }

  /** `find` comes back empty exactly when `some` is false. */
  lemma NoneContainedNotAny(words: seq<string>, text: string)
    ensures FirstContained(words, text).None? <==> !AnyContained(words, text)
  {
    if FirstContained(words, text).Some? {
      assert Contains(text, words[FirstContained(words, text).value]);
    }
  }

  /** The buzzword rule: the first buzzword of the list that occurs in the
      lower-cased transcript, reported with full confidence. */
  function DetectBuzzwords(config: Config, transcript: string): (r: Option<Trigger>)
    ensures !config.buzzwords.enabled ==> r.None?
    ensures config.buzzwords.enabled ==>
      (r.None? <==> forall j :: 0 <= j < |Buzzwords| ==> !Contains(ToLower(transcript), Buzzwords[j]))
    ensures r.Some? ==>
      exists i :: 0 <= i < |Buzzwords| && Contains(ToLower(transcript), Buzzwords[i])
        && (forall j :: 0 <= j < i ==> !Contains(ToLower(transcript), Buzzwords[j]))
        && r.value == Trigger(Keyword, StringValue(Buzzwords[i]), 1.0)
  {
    if !config.buzzwords.enabled then None
    else
      match FirstContained(Buzzwords, ToLower(transcript))
      case None => None
      case Some(i) => Some(Trigger(Keyword, StringValue(Buzzwords[i]), 1.0))
  }

  function Min(a: real, b: real): real {
    if a <= b then a else b
  }

  /** The speed rule: a pace above the threshold, with a confidence that grows
      by one for every 40 words per minute over it and is capped at one. */
  function DetectSpeed(config: Config, wordsPerMinute: real): (r: Option<Trigger>)
    ensures r.Some? <==> config.speed.enabled && wordsPerMinute > config.speed.threshold
    ensures r.Some? ==> r.value.kind == Speed && r.value.value == NumberValue(wordsPerMinute)
    ensures r.Some? ==> 0.0 < r.value.confidence <= 1.0
    ensures r.Some? && wordsPerMinute >= config.speed.threshold + 40.0 ==> r.value.confidence == 1.0
    ensures r.Some? && wordsPerMinute < config.speed.threshold + 40.0 ==>
      r.value.confidence == (wordsPerMinute - config.speed.threshold) / 40.0
  {
    if !config.speed.enabled then None
    else if wordsPerMinute > config.speed.threshold then
      Some(Trigger(Speed, NumberValue(wordsPerMinute),
                   Min((wordsPerMinute - config.speed.threshold) / 40.0, 1.0)))
    else None
  }

  /** A pattern applies when its claim is on the slide and one of its phrases
      is in the lower-cased speech. */
  predicate Fires(p: ContradictionPattern, slideContent: string, lowerTranscript: string) {
    Contains(slideContent, p.slide) && AnyContained(p.speech, lowerTranscript)
  }

  /** The first pattern, in list order, that applies, paired with the first of
      its phrases that occurs in the speech. */
  function FirstContradiction(patterns: seq<ContradictionPattern>, slideContent: string,
                              lowerTranscript: string): (r: Option<(nat, nat)>)
    ensures r.None? <==> forall j :: 0 <= j < |patterns| ==> !Fires(patterns[j], slideContent, lowerTranscript)
    ensures r.Some? ==>
      var (j, k) := r.value;
      && j < |patterns| && k < |patterns[j].speech|
      && Contains(slideContent, patterns[j].slide)
      && Contains(lowerTranscript, patterns[j].speech[k])
      && (forall k' :: 0 <= k' < k ==> !Contains(lowerTranscript, patterns[j].speech[k']))
      && (forall j' :: 0 <= j' < j ==> !Fires(patterns[j'], slideContent, lowerTranscript))
  {
    if patterns == [] then None
    else
      var phrase := FirstContained(patterns[0].speech, lowerTranscript);
      if Contains(slideContent, patterns[0].slide) && phrase.Some? then Some((0, phrase.value))
      else
        match FirstContradiction(patterns[1..], slideContent, lowerTranscript)
        case None => None
        case Some((j, k)) => Some((j + 1, k))
  }

  /** When no pattern before `i` applies, pattern `i`'s claim is on the slide
      and `k` is its first phrase in the speech, the search finds `(i, k)`. */
  lemma {:induction false} FirstContradictionAt(patterns: seq<ContradictionPattern>, slideContent: string,
                                                lowerTranscript: string, i: nat, k: nat)
    requires i < |patterns|
    requires forall j :: 0 <= j < i ==> !Fires(patterns[j], slideContent, lowerTranscript)
    requires Contains(slideContent, patterns[i].slide)
    requires FirstContained(patterns[i].speech, lowerTranscript) == Some(k)
    ensures FirstContradiction(patterns, slideContent, lowerTranscript) == Some((i, k))
  {
    if i > 0 {
      assert !Fires(patterns[0], slideContent, lowerTranscript);
      var rest := patterns[1..];
      forall j | 0 <= j < i - 1 ensures !Fires(rest[j], slideContent, lowerTranscript) {
        assert rest[j] == patterns[j + 1];
      }
      FirstContradictionAt(rest, slideContent, lowerTranscript, i - 1, k);
      if FirstContained(patterns[0].speech, lowerTranscript).Some? {
        var q := FirstContained(patterns[0].speech, lowerTranscript).value;
        assert AnyContained(patterns[0].speech, lowerTranscript) by {
          assert Contains(lowerTranscript, patterns[0].speech[q]);
        }
      }
    }
  }

  function ContradictionMessage(slide: string, phrase: string): string {
    "Slide says \"" + slide + "\" but you mentioned \"" + phrase + "\""
  }

  /** The messages of the four emotion rules. */
  const NumbersMessage: string := "Nervous about the numbers? VCs notice that."
  const SmileMessage: string := "Why smile? $1.1 trillion lost is serious."
  const DefensiveMessage: string := "Defensive about competitors? Red flag."
  const FearMessage: string := "You look terrified. VCs can smell fear."

  /** The emotion rule, checked in order: fear while talking money, a happy face
      on a critical topic, anger while talking competition, then fear alone.
      Each dominant emotion settles the outcome on its own: fear above the
      threshold always reports (with the money message when money is talked
      about), a happy face only above 0.7 on a critical topic, an angry one
      only above the threshold while talking competition, any other never. */
  function DetectEmotionIssue(config: Config, face: Option<FaceData>, transcript: string): (r: Option<Trigger>)
    ensures !config.emotion.enabled || face.None? ==> r.None?
    ensures r.Some? ==> r.value.kind == Emotion && r.value.confidence == face.value.confidence
    ensures config.emotion.enabled && face.Some? ==>
      var f := face.value;
      var lower := ToLower(transcript);
      && (f.dominantEmotion == "fearful" ==>
            (r.Some? <==> f.confidence > config.emotion.threshold)
            && (r.Some? ==> r.value.value == StringValue(if AnyContained(MoneyTalk, lower) then NumbersMessage else FearMessage)))
      && (f.dominantEmotion == "happy" ==>
            (r.Some? <==> f.confidence > OverconfidenceThreshold && AnyContained(CriticalTopics, lower))
            && (r.Some? ==> r.value.value == StringValue(SmileMessage)))
      && (f.dominantEmotion == "angry" ==>
            (r.Some? <==> f.confidence > config.emotion.threshold && AnyContained(CompetitiveTalk, lower))
            && (r.Some? ==> r.value.value == StringValue(DefensiveMessage)))
      && (f.dominantEmotion !in {"fearful", "happy", "angry"} ==> r.None?)
  {
    if !config.emotion.enabled || face.None? then None
    else
      var f := face.value;
      var lower := ToLower(transcript);
      if AnyContained(MoneyTalk, lower) && f.dominantEmotion == "fearful"
         && f.confidence > config.emotion.threshold then
        Some(Trigger(Emotion, StringValue(NumbersMessage), f.confidence))
      else if AnyContained(CriticalTopics, lower) && f.dominantEmotion == "happy"
              && f.confidence > OverconfidenceThreshold then
        Some(Trigger(Emotion, StringValue(SmileMessage), f.confidence))
      else if AnyContained(CompetitiveTalk, lower) && f.dominantEmotion == "angry"
              && f.confidence > config.emotion.threshold then
        Some(Trigger(Emotion, StringValue(DefensiveMessage), f.confidence))
      else if f.dominantEmotion == "fearful" && f.confidence > config.emotion.threshold then
        Some(Trigger(Emotion, StringValue(FearMessage), f.confidence))
      else None
  }

  /** The first candidate that is present, in the order given. */
  function FirstTrigger(candidates: seq<Option<Trigger>>): (r: Option<Trigger>)
    ensures r.None? <==> forall i :: 0 <= i < |candidates| ==> candidates[i].None?
    ensures r.Some? ==>
      exists i :: 0 <= i < |candidates| && candidates[i] == r
        && forall j :: 0 <= j < i ==> candidates[j].None?
  {
    if candidates == [] then None
    else if candidates[0].Some? then candidates[0]
    else
      var r := FirstTrigger(candidates[1..]);
      assert r.Some? ==> (exists i :: 1 <= i < |candidates| && candidates[i] == r
                           && forall j :: 1 <= j < i ==> candidates[j].None?) by {
        if r.Some? {
          var i :| 0 <= i < |candidates| - 1 && candidates[1..][i] == r
            && forall j :: 0 <= j < i ==> candidates[1..][j].None?;
          assert candidates[i + 1] == r;
          assert forall j :: 1 <= j < i + 1 ==> candidates[j] == candidates[1..][j - 1];
        }
      }
      r
  }

  /** The chunk buffer after one more chunk: appended at the end, and the oldest
      chunk dropped once there are more than `MaxChunks`. */
  function PushChunk(buffer: seq<string>, chunk: string): seq<string> {
    var b := buffer + [chunk];
    if |b| > MaxChunks then b[1..] else b
  }

  /** The buffer after feeding `chunks` one at a time into an empty buffer. */
  function Feed(chunks: seq<string>): seq<string> {
    if chunks == [] then [] else PushChunk(Feed(chunks[..|chunks| - 1]), chunks[|chunks| - 1])
  }

  /** However many chunks arrive, the buffer holds exactly the most recent
      `MaxChunks` of them (or all, when fewer arrived), in arrival order. */
  lemma {:induction false} FeedKeepsMostRecent(chunks: seq<string>)
    ensures Feed(chunks) == TakeLast(chunks, MaxChunks)
    ensures |Feed(chunks)| <= MaxChunks
  {
    if chunks != [] {
      var n := |chunks|;
      var init, last := chunks[..n - 1], chunks[n - 1];
      FeedKeepsMostRecent(init);
      var kept := TakeLast(init, MaxChunks);
      assert Feed(chunks) == PushChunk(kept, last);
      if n - 1 < MaxChunks {
        assert kept + [last] == chunks;
      } else {
        assert kept == init[n - 1 - MaxChunks..];
        assert kept + [last] == chunks[n - 1 - MaxChunks..];
        assert chunks[n - 1 - MaxChunks..][1..] == chunks[n - MaxChunks..];
      }
    }
  }

  /** White-space runs in `s`: what `s.split(/\s+/)` cuts at. */
  function WhitespaceRuns(s: string): nat {
    if s == [] then 0
    else if IsWhitespace(s[0]) && (|s| == 1 || !IsWhitespace(s[1])) then 1 + WhitespaceRuns(s[1..])
    else WhitespaceRuns(s[1..])
  }

  /** `transcript.trim().split(/\s+/).length`: one more than the gaps between
      words, so a blank transcript still counts as one word. */
  function WordCount(transcript: string): (n: nat)
    ensures n >= 1
  {
    1 + WhitespaceRuns(Trim(transcript))
  }

  /** A word: a non-empty run of characters that are not white space. */
  predicate IsWord(w: string) {
    w != [] && forall i :: 0 <= i < |w| ==> !IsWhitespace(w[i])
  }

  lemma {:induction false} NoRunsInWord(w: string)
    requires forall i :: 0 <= i < |w| ==> !IsWhitespace(w[i])
    ensures WhitespaceRuns(w) == 0
    decreases |w|
  {
    if w != [] {
      NoRunsInWord(w[1..]);
    }
  }

  /** Runs do not cross a join after a text ending in a non-white-space character. */
  lemma {:induction false} RunsAppend(x: string, y: string)
    requires x != [] && !IsWhitespace(x[|x| - 1])
    ensures WhitespaceRuns(x + y) == WhitespaceRuns(x) + WhitespaceRuns(y)
    decreases |x|
  {
    assert (x + y)[0] == x[0];
    if |x| == 1 {
      assert (x + y)[1..] == y;
    } else {
      assert (x + y)[1..] == x[1..] + y;
      assert (x + y)[1] == x[1];
      RunsAppend(x[1..], y);
    }
  }

  /** Words joined by single spaces: the text starts with the first word's
      first character, ends with the last word's last character, and has one
      white-space run fewer than there are words. */
  lemma {:induction false} JoinedWords(ws: seq<string>)
    requires |ws| >= 1 && forall i :: 0 <= i < |ws| ==> IsWord(ws[i])
    ensures var j := Join(ws, " "); var last := ws[|ws| - 1];
      && IsWord(ws[0]) && IsWord(last)
      && j != [] && j[0] == ws[0][0] && j[|j| - 1] == last[|last| - 1]
      && WhitespaceRuns(j) == |ws| - 1
    decreases |ws|
  {
    if |ws| == 1 {
      NoRunsInWord(ws[0]);
    } else {
      var init := ws[..|ws| - 1];
      var last := ws[|ws| - 1];
      assert forall i :: 0 <= i < |init| ==> init[i] == ws[i];
      JoinedWords(init);
      var a := Join(init, " ");
      var tail := " " + last;
      assert Join(ws, " ") == a + tail;
      RunsAppend(a, tail);
      NoRunsInWord(last);
      assert tail[1..] == last;
      assert WhitespaceRuns(tail) == 1;
    }
  }

  /** The count `split` gives on words separated by single spaces is the
      number of words. */
  lemma WordCountOfWords(ws: seq<string>)
    requires |ws| >= 1 && forall i :: 0 <= i < |ws| ==> IsWord(ws[i])
    ensures WordCount(Join(ws, " ")) == |ws|
  {
    JoinedWords(ws);
    var j := Join(ws, " ");
    assert !IsWhitespace(j[0]) && !IsWhitespace(j[|j| - 1]);
    TrimOfTrimmed(j);
  }

  /** The pace after a chunk of `words` words that took `elapsedMinutes`:
      that chunk's words per minute, or the previous pace when no time has
      passed. */
  function Pace(words: nat, elapsedMinutes: real, previous: real): real {
    if elapsedMinutes > 0.0 then PerMinute(words, elapsedMinutes) else previous
  }

  function PerMinute(words: nat, elapsedMinutes: real): real
    requires elapsedMinutes > 0.0
  {
    (words as real) / elapsedMinutes
  }

  class InterruptDetector {
    var config: Config
    var transcriptBuffer: seq<string>
    var wordsPerMinute: real
    var wordCount: nat
    var slideContext: map<int, string>

    ghost predicate Valid()
      reads this
    {
      |transcriptBuffer| <= MaxChunks
    }

    /** `new InterruptDetector(overrides)`. */
    constructor (overrides: ConfigOverrides)
      ensures Valid()
      ensures config == MergeConfig(overrides)
      ensures transcriptBuffer == [] && wordsPerMinute == 0.0 && wordCount == 0
      ensures slideContext == map[]
    {
      config := MergeConfig(overrides);
      transcriptBuffer := [];
      wordsPerMinute := 0.0;
      wordCount := 0;
      slideContext := map[];
    }

    /** Stores the slide's text, lower-cased, replacing what that slide had. */
    method LoadPitchDeck(slideNumber: int, content: string)
      modifies this`slideContext
      ensures slideContext == old(slideContext)[slideNumber := ToLower(content)]
      ensures slideNumber in slideContext && slideContext[slideNumber] == ToLower(content)
      ensures forall n :: n != slideNumber ==>
        (n in slideContext <==> n in old(slideContext))
        && (n in slideContext ==> slideContext[n] == old(slideContext)[n])
    {
      slideContext := slideContext[slideNumber := ToLower(content)];
    }

    /** Appends the chunk and drops the oldest one past `MaxChunks`. */
    method UpdateTranscriptBuffer(transcript: string)
      requires Valid()
      modifies this`transcriptBuffer
      ensures Valid()
      ensures transcriptBuffer == PushChunk(old(transcriptBuffer), transcript)
      ensures transcriptBuffer == TakeLast(old(transcriptBuffer) + [transcript], MaxChunks)
    {
      transcriptBuffer := transcriptBuffer + [transcript];
      if |transcriptBuffer| > MaxChunks {
        transcriptBuffer := transcriptBuffer[1..];
      }
    }

    /** Adds the chunk's words to the count and, when some time has passed since
        the previous chunk, sets the pace to this chunk's words over that time. */
    method UpdateSpeechSpeed(transcript: string, elapsedMinutes: real)
      modifies this`wordCount, this`wordsPerMinute
      ensures wordCount == old(wordCount) + WordCount(transcript)
      ensures wordsPerMinute == Pace(WordCount(transcript), elapsedMinutes, old(wordsPerMinute))
    {
      var words := WordCount(transcript);
      wordCount := wordCount + words;
      if elapsedMinutes > 0.0 {
        wordsPerMinute := PerMinute(words, elapsedMinutes);
      }
    }

    /** The contradiction rule: silent when disabled or when the slide has no
        stored text; otherwise the first applicable pattern, reported with the
        first of its phrases that the speaker used. */
    method DetectContradiction(transcript: string, currentSlide: int) returns (r: Option<Trigger>)
      ensures !config.contradiction.enabled ==> r.None?
      ensures currentSlide !in slideContext || slideContext[currentSlide] == [] ==> r.None?
      ensures r == ContradictionFor(transcript, currentSlide)
    {
      if !config.contradiction.enabled {
        return None;
      }
      if currentSlide !in slideContext || slideContext[currentSlide] == [] {
        return None;
      }
      var slideContent := slideContext[currentSlide];
      var lowerTranscript := ToLower(transcript);
      var patterns := ContradictionPatterns;
      var i := 0;
      while i < |patterns|
        invariant 0 <= i <= |patterns|
        invariant forall j :: 0 <= j < i ==> !Fires(patterns[j], slideContent, lowerTranscript)
      {
        var pattern := patterns[i];
        NoneContainedNotAny(pattern.speech, lowerTranscript);
        if Contains(slideContent, pattern.slide) {
          var found := FirstContained(pattern.speech, lowerTranscript);
          if found.Some? {
            FirstContradictionAt(patterns, slideContent, lowerTranscript, i, found.value);
            return Some(Trigger(Contradiction,
                                StringValue(ContradictionMessage(pattern.slide, pattern.speech[found.value])),
                                0.9));
          }
        }
        i := i + 1;
      }
      return None;
    }

    /** Records the chunk, updates the pace, then reports the first rule that
        fires in the order buzzword, speed, contradiction, emotion. */
    method Analyze(transcript: string, face: Option<FaceData>, currentSlide: int,
                   elapsedMinutes: real) returns (r: Option<Trigger>)
      requires Valid()
      modifies this`transcriptBuffer, this`wordCount, this`wordsPerMinute
      ensures Valid()
      ensures transcriptBuffer == TakeLast(old(transcriptBuffer) + [transcript], MaxChunks)
      ensures wordCount == old(wordCount) + WordCount(transcript)
      ensures wordsPerMinute == Pace(WordCount(transcript), elapsedMinutes, old(wordsPerMinute))
      ensures r == FirstTrigger([
        DetectBuzzwords(config, transcript),
        DetectSpeed(config, wordsPerMinute),
        ContradictionFor(transcript, currentSlide),
        DetectEmotionIssue(config, face, transcript)])
    {
      UpdateTranscriptBuffer(transcript);
      UpdateSpeechSpeed(transcript, elapsedMinutes);
      r := DetectBuzzwords(config, transcript);
      if r.None? {
        r := DetectSpeed(config, wordsPerMinute);
        if r.None? {
          r := DetectContradiction(transcript, currentSlide);
          if r.None? {
            r := DetectEmotionIssue(config, face, transcript);
          }
        }
      }
      FirstOfFour(DetectBuzzwords(config, transcript), DetectSpeed(config, wordsPerMinute),
                  ContradictionFor(transcript, currentSlide), DetectEmotionIssue(config, face, transcript));
    }

    /** The trigger `DetectContradiction` reports. */
    function ContradictionFor(transcript: string, currentSlide: int): Option<Trigger>
      reads this
    {
      if !config.contradiction.enabled then None
      else if currentSlide !in slideContext || slideContext[currentSlide] == [] then None
      else
        match FirstContradiction(ContradictionPatterns, slideContext[currentSlide], ToLower(transcript))
        case None => None
        case Some((j, k)) =>
          Some(Trigger(Contradiction,
                       StringValue(ContradictionMessage(ContradictionPatterns[j].slide,
                                                        ContradictionPatterns[j].speech[k])),
                       0.9))
    }

    /** The last three chunks (or fewer), joined by single spaces. */
    function GetContext(): (r: string)
      reads this
      ensures transcriptBuffer == [] ==> r == []
      ensures |transcriptBuffer| == 1 ==> r == transcriptBuffer[0]
      ensures |transcriptBuffer| == 2 ==> r == transcriptBuffer[0] + " " + transcriptBuffer[1]
      ensures |transcriptBuffer| >= 3 ==>
        var n := |transcriptBuffer|;
        r == transcriptBuffer[n - 3] + " " + transcriptBuffer[n - 2] + " " + transcriptBuffer[n - 1]
    {
      var recent := TakeLast(transcriptBuffer, ContextChunks);
      JoinUpToThree(recent, " ");
      var n := |transcriptBuffer|;
      assert n >= 3 ==> recent == transcriptBuffer[n - 3..];
      Join(recent, " ")
    }

    /** Empties the buffer and zeroes the counters; slides and rules stay. */
    method Reset()
      modifies this`transcriptBuffer, this`wordsPerMinute, this`wordCount
      ensures Valid()
      ensures transcriptBuffer == [] && wordsPerMinute == 0.0 && wordCount == 0
    {
      transcriptBuffer := [];
      wordsPerMinute := 0.0;
      wordCount := 0;
    }
  }

  /** `Join` spelled out for at most three parts. */
  lemma JoinUpToThree(parts: seq<string>, sep: string)
    ensures |parts| == 2 ==> Join(parts, sep) == parts[0] + sep + parts[1]
    ensures |parts| == 3 ==> Join(parts, sep) == parts[0] + sep + parts[1] + sep + parts[2]
  {
    if |parts| == 2 {
      assert parts[..1] == [parts[0]];
    } else if |parts| == 3 {
      assert parts[..2][..1] == [parts[0]];
      assert parts[..2] == [parts[0], parts[1]];
    }
  }

  /** `FirstTrigger` of four candidates, unfolded. */
  lemma FirstOfFour(a: Option<Trigger>, b: Option<Trigger>, c: Option<Trigger>, d: Option<Trigger>)
    ensures FirstTrigger([a, b, c, d]) ==
      if a.Some? then a else if b.Some? then b else if c.Some? then c else d
  {
    assert [d][1..] == [];
    assert FirstTrigger([d]) == d;
    assert [c, d][1..] == [d];
    assert FirstTrigger([c, d]) == if c.Some? then c else d;
    assert [b, c, d][1..] == [c, d];
    assert FirstTrigger([b, c, d]) == if b.Some? then b else if c.Some? then c else d;
    assert [a, b, c, d][1..] == [b, c, d];
  }
}
