/** The post-session feedback log: the entries recorded during a session, the
    section title each entry is filed under, and the session-to-session
    operations of the store. Reading and writing local storage, the listener
    set, identifier generation and the clock are outside: ids, times and the
    parsed stored value are parameters. */
module FeedbackStore {
  import opened Wrappers
  import opened Text

  /** What a caller hands to `append`; the optional fields are `None` when absent. */
  datatype EntryInput = EntryInput(
    pageNumber: int,
    roast: string,
    transcript: string,
    pageText: Option<string>,
    deckSummary: Option<string>,
    sectionTitle: Option<string>)

  datatype FeedbackEntry = FeedbackEntry(
    id: string,
    createdAt: int,
    sectionTitle: string,
    pageNumber: int,
    roast: string,
    transcript: string,
    pageText: Option<string>,
    deckSummary: Option<string>)

  datatype Session = Session(entries: seq<FeedbackEntry>, startTime: Option<int>)

  /** A value `JSON.parse` may produce from stored text, as far as `safeParse`
      looks at it: an object with its `entries` (present only when it is an
      array) and `startTime`, or anything else (null, a primitive, an array). */
  datatype Parsed =
    | NotAnObject
    | ParsedObject(entries: Option<seq<FeedbackEntry>>, startTime: Option<int>)

  const EmptySession: Session := Session([], None)

  /** Longest title taken from page text. */
  const MaxTitleChars: nat := 80

  /** `safeParse(raw)`, with `parsed` the outcome of `JSON.parse(raw)` (`None`
      when it throws): the stored session when the text parses to an object
      whose `entries` is an array, and an empty log in every other case. */
  function SafeParse(raw: Option<string>, parsed: Option<Parsed>): (s: Session)
    ensures raw.None? || raw == Some([]) ==> s == EmptySession
    ensures parsed.None? || parsed == Some(NotAnObject) ==> s == EmptySession
    ensures (parsed.Some? && parsed.value.ParsedObject? && parsed.value.entries.None?) ==> s == EmptySession
    ensures (raw.Some? && raw.value != [] && parsed.Some? && parsed.value.ParsedObject?
             && parsed.value.entries.Some?) ==>
      s == Session(parsed.value.entries.value, parsed.value.startTime)
  {
    if raw.None? || raw.value == [] then EmptySession
    else
      match parsed
      case None => EmptySession
      case Some(NotAnObject) => EmptySession
      case Some(ParsedObject(entries, startTime)) =>
        if entries.None? then EmptySession else Session(entries.value, startTime)
  }

  /** `text.split(/\r?\n/)`: the pieces between line feeds, each losing the
      carriage return that stood right before its line feed. */
  function SplitLines(text: string): (lines: seq<string>)
    ensures |lines| >= 1
    ensures forall i :: 0 <= i < |lines| ==> '\n' !in lines[i]
    decreases |text|
  {
    if '\n' !in text then [text]
    else
      var k := IndexOf(text, '\n');
      var line := text[..k];
      var head := StripCR(line);
      assert '\n' !in line;
      assert '\n' !in head by { assert head <= line; }
      [head] + SplitLines(text[k + 1..])
  }

  /** A line without the carriage return it may end with. */
  function StripCR(line: string): (r: string)
    ensures r <= line
  {
    if line != [] && line[|line| - 1] == '\r' then line[..|line| - 1] else line
  }

  /** The text with every carriage return that stands right before a line
      feed removed: what the pieces of `SplitLines` join back to. */
  function DropCRBeforeLF(s: string): string
    decreases |s|
  {
    if s == [] then []
    else if |s| >= 2 && s[0] == '\r' && s[1] == '\n' then DropCRBeforeLF(s[1..])
    else [s[0]] + DropCRBeforeLF(s[1..])
  }

  /** Without a line feed there is nothing to drop. */
  lemma {:induction false} DropCRWithoutLF(s: string)
    requires '\n' !in s
    ensures DropCRBeforeLF(s) == s
    decreases |s|
  {
    if s != [] {
      assert '\n' !in s[1..];
      DropCRWithoutLF(s[1..]);
      assert s == [s[0]] + s[1..];
    }
  }

  /** Without a carriage return there is nothing to drop either. */
  lemma {:induction false} DropCRWithoutCR(s: string)
    requires '\r' !in s
    ensures DropCRBeforeLF(s) == s
    decreases |s|
  {
    if s != [] {
      assert '\r' !in s[1..];
      DropCRWithoutCR(s[1..]);
      assert s == [s[0]] + s[1..];
    }
  }

  /** Dropping across the first line feed: the first line loses its final
      carriage return and the rest is dropped on its own. */
  lemma {:induction false} DropCRAtFirstLF(text: string, k: nat)
    requires k < |text| && text[k] == '\n' && '\n' !in text[..k]
    ensures DropCRBeforeLF(text) == StripCR(text[..k]) + "\n" + DropCRBeforeLF(text[k + 1..])
    decreases k
  {
    if k == 0 {
      assert text == [text[0]] + text[1..];
    } else if k == 1 && text[0] == '\r' {
      var rest := text[1..];
      assert rest[0] == '\n' && rest[1..] == text[2..];
      assert DropCRBeforeLF(rest) == [rest[0]] + DropCRBeforeLF(rest[1..]);
    } else {
      assert text[0] != '\n' by { assert text[0] == text[..k][0]; }
      assert !(text[0] == '\r' && text[1] == '\n') by {
        if text[0] == '\r' {
          assert k >= 2 && text[..k][1] == text[1];
        }
      }
      var rest := text[1..];
      var line := rest[..k - 1];
      assert line == text[1..k];
      assert '\n' !in line by {
        forall i | 0 <= i < k - 1 ensures line[i] != '\n' {
          assert line[i] == text[..k][i + 1];
        }
      }
      DropCRAtFirstLF(rest, k - 1);
      assert rest[k..] == text[k + 1..];
      assert text[..k] == [text[0]] + rest[..k - 1];
      if k >= 2 {
        assert StripCR(text[..k]) == [text[0]] + StripCR(rest[..k - 1]);
      }
    }
  }

  /** `Join` with one more part in front. */
  lemma {:induction false} JoinCons(head: string, rest: seq<string>, sep: string)
    requires rest != []
    ensures Join([head] + rest, sep) == head + sep + Join(rest, sep)
    decreases |rest|
  {
    var parts := [head] + rest;
    if |rest| == 1 {
      assert parts[..1] == [head];
    } else {
      assert parts[..|parts| - 1] == [head] + rest[..|rest| - 1];
      JoinCons(head, rest[..|rest| - 1], sep);
    }
  }

  /** Joining the lines with line feeds gives the text back, less the
      carriage returns of its `\r\n` line ends. */
  lemma {:induction false} SplitLinesRoundTrip(text: string)
    ensures Join(SplitLines(text), "\n") == DropCRBeforeLF(text)
    decreases |text|
  {
    if '\n' !in text {
      DropCRWithoutLF(text);
    } else {
      var k := IndexOf(text, '\n');
      SplitLinesRoundTrip(text[k + 1..]);
      JoinCons(StripCR(text[..k]), SplitLines(text[k + 1..]), "\n");
      DropCRAtFirstLF(text, k);
    }
  }

  /** A text without carriage returns is exactly its lines joined by line feeds. */
  lemma SplitLinesJoinBack(text: string)
    requires '\r' !in text
    ensures Join(SplitLines(text), "\n") == text
  {
    SplitLinesRoundTrip(text);
    DropCRWithoutCR(text);
  }

  /** The position of the first `c` in `s`. */
  function IndexOf(s: string, c: char): (k: nat)
    requires c in s
    ensures k < |s| && s[k] == c && c !in s[..k]
  {
    if s[0] == c then 0
    else
      var k := IndexOf(s[1..], c) + 1;
      assert s[1..][..k - 1] == s[1..k];
      k
  }

  /** `lines.find(l => l.trim().length > 0)`, as the position of the line found. */
  function FirstNonBlank(lines: seq<string>): (r: Option<nat>)
    ensures r.Some? ==> r.value < |lines|
  {
    if lines == [] then None
    else if !IsBlank(lines[0]) then Some(0)
    else
      match FirstNonBlank(lines[1..])
      case None => None
      case Some(i) => Some(i + 1)
  }

  /** The line found is the first that is not blank, and none is found exactly
      when every line is blank. */
  lemma {:induction false} FirstNonBlankIsFirst(lines: seq<string>)
    ensures var r := FirstNonBlank(lines);
      && (r.Some? ==> !IsBlank(lines[r.value]) && forall j :: 0 <= j < r.value ==> IsBlank(lines[j]))
      && (r.None? <==> forall i :: 0 <= i < |lines| ==> IsBlank(lines[i]))
  {
    if lines != [] && IsBlank(lines[0]) {
      var rest := lines[1..];
      FirstNonBlankIsFirst(rest);
      forall j | 0 <= j < |rest| ensures rest[j] == lines[j + 1] {}
      if FirstNonBlank(rest).None? {
        forall i | 0 <= i < |lines| ensures IsBlank(lines[i]) {
          if i > 0 { assert lines[i] == rest[i - 1]; }
        }
      } else {
        var k := FirstNonBlank(rest).value;
        forall j | 0 <= j < k + 1 ensures IsBlank(lines[j]) {
          if j > 0 { assert lines[j] == rest[j - 1]; }
        }
      }
    }
  }

  /** `inferSectionTitle(provided, pageText, pageNumber)`. */
  function InferSectionTitle(provided: Option<string>, pageText: Option<string>, pageNumber: int): string {
    if provided.Some? && !IsBlank(provided.value) then Trim(provided.value)
    else if pageText.Some? && pageText.value != [] && FirstNonBlank(SplitLines(pageText.value)).Some? then
      var lines := SplitLines(pageText.value);
      Take(Trim(lines[FirstNonBlank(lines).value]), MaxTitleChars)
    else "Page " + IntToString(pageNumber)
  }

  /** The title precedence: a provided non-blank title, trimmed; otherwise the
      first non-blank line of the page text (see `FirstNonBlankIsFirst`),
      trimmed and cut to 80 characters; otherwise "Page N". */
  lemma InferSectionTitlePrecedence(provided: Option<string>, pageText: Option<string>, pageNumber: int)
    ensures provided.Some? && !IsBlank(provided.value) ==>
      InferSectionTitle(provided, pageText, pageNumber) == Trim(provided.value)
    ensures (provided.None? || IsBlank(provided.value)) && pageText.Some? && !IsBlank(pageText.value) ==>
      var lines := SplitLines(pageText.value);
      && FirstNonBlank(lines).Some?
      && InferSectionTitle(provided, pageText, pageNumber) == Take(Trim(lines[FirstNonBlank(lines).value]), MaxTitleChars)
    ensures (provided.None? || IsBlank(provided.value)) && (pageText.None? || IsBlank(pageText.value)) ==>
      InferSectionTitle(provided, pageText, pageNumber) == "Page " + IntToString(pageNumber)
  {
    if pageText.Some? && !IsBlank(pageText.value) {
      SomeLineNotBlank(pageText.value);
    } else if pageText.Some? && pageText.value != [] {
      BlankTextHasBlankLines(pageText.value);
    }
  }

  /** Whichever rule applies, the inferred title is never blank. */
  lemma InferSectionTitleNotBlank(provided: Option<string>, pageText: Option<string>, pageNumber: int)
    ensures |InferSectionTitle(provided, pageText, pageNumber)| > 0
    ensures !IsBlank(InferSectionTitle(provided, pageText, pageNumber))
  {
    var title := InferSectionTitle(provided, pageText, pageNumber);
    if provided.Some? && !IsBlank(provided.value) {
      TrimOfTrimmed(Trim(provided.value));
    } else if pageText.Some? && pageText.value != [] && FirstNonBlank(SplitLines(pageText.value)).Some? {
      var lines := SplitLines(pageText.value);
      FirstNonBlankIsFirst(lines);
      var t := Trim(lines[FirstNonBlank(lines).value]);
      assert title == Take(t, MaxTitleChars);
      assert title != [] && title[0] == t[0];
      TrimStartOfNonWhitespace(title);
    } else {
      var digits := "Page " + IntToString(pageNumber);
      assert !IsWhitespace(digits[0]);
      TrimStartOfNonWhitespace(digits);
    }
  }

  /** A text that starts with a non-white-space character does not trim to nothing. */
  lemma TrimStartOfNonWhitespace(s: string)
    requires s != [] && !IsWhitespace(s[0])
    ensures !IsBlank(s)
  {
    assert !AllWhitespace(s);
  }

  /** Every character of the text, other than the line feeds, lies in one of its lines. */
  lemma {:induction false} LinesCoverText(text: string, c: char)
    requires c in text && c != '\n' && c != '\r'
    ensures exists i :: 0 <= i < |SplitLines(text)| && c in SplitLines(text)[i]
    decreases |text|
  {
    if '\n' in text {
      var k := IndexOf(text, '\n');
      var line := text[..k];
      var head := if line != [] && line[|line| - 1] == '\r' then line[..|line| - 1] else line;
      assert SplitLines(text) == [head] + SplitLines(text[k + 1..]);
      if c in line {
        var p :| 0 <= p < |line| && line[p] == c;
        assert p < |head| && head[p] == c;
        assert c in SplitLines(text)[0];
      } else {
        var p :| 0 <= p < |text| && text[p] == c;
        assert p > k;
        assert text[k + 1..][p - k - 1] == c;
        LinesCoverText(text[k + 1..], c);
        var i :| 0 <= i < |SplitLines(text[k + 1..])| && c in SplitLines(text[k + 1..])[i];
        assert SplitLines(text)[i + 1] == SplitLines(text[k + 1..])[i];
      }
    } else {
      assert SplitLines(text) == [text];
      assert c in SplitLines(text)[0];
    }
  }

  /** A text that is not blank has a line that is not blank. */
  lemma SomeLineNotBlank(text: string)
    requires !IsBlank(text)
    ensures FirstNonBlank(SplitLines(text)).Some?
  {
    assert !AllWhitespace(text);
    var p :| 0 <= p < |text| && !IsWhitespace(text[p]);
    var c := text[p];
    LinesCoverText(text, c);
    var lines := SplitLines(text);
    var i :| 0 <= i < |lines| && c in lines[i];
    var q :| 0 <= q < |lines[i]| && lines[i][q] == c;
    assert !AllWhitespace(lines[i]);
    assert !IsBlank(lines[i]);
    FirstNonBlankIsFirst(lines);
  }

  /** Every line of a text made of white space is made of white space. */
  lemma {:induction false} WhitespaceLines(text: string)
    requires AllWhitespace(text)
    ensures forall i :: 0 <= i < |SplitLines(text)| ==> AllWhitespace(SplitLines(text)[i])
    decreases |text|
  {
    if '\n' in text {
      var k := IndexOf(text, '\n');
      var line := text[..k];
      var head := if line != [] && line[|line| - 1] == '\r' then line[..|line| - 1] else line;
      assert AllWhitespace(head) by {
        forall q | 0 <= q < |head| ensures IsWhitespace(head[q]) {
          assert head[q] == text[q];
        }
      }
      var rest := text[k + 1..];
      assert AllWhitespace(rest) by {
        forall q | 0 <= q < |rest| ensures IsWhitespace(rest[q]) {
          assert rest[q] == text[k + 1 + q];
        }
      }
      WhitespaceLines(rest);
      var lines := SplitLines(text);
      assert lines == [head] + SplitLines(rest);
      forall i | 0 <= i < |lines| ensures AllWhitespace(lines[i]) {
        if i > 0 { assert lines[i] == SplitLines(rest)[i - 1]; }
      }
    } else {
      assert SplitLines(text) == [text];
    }
  }

  /** A blank text has only blank lines. */
  lemma BlankTextHasBlankLines(text: string)
    requires IsBlank(text)
    ensures FirstNonBlank(SplitLines(text)).None?
  {
    var lines := SplitLines(text);
    WhitespaceLines(text);
    forall i | 0 <= i < |lines| ensures IsBlank(lines[i]) {
      assert AllWhitespace(lines[i]);
    }
    FirstNonBlankIsFirst(lines);
  }

  /** `feedbackStore.startSession()`: stamps the start time when there is none
      (JavaScript also treats a stored zero as none); otherwise nothing changes. */
  function StartSession(s: Session, now: int): (r: Session)
    ensures r.entries == s.entries
    ensures s.startTime.Some? && s.startTime.value != 0 ==> r == s
    ensures s.startTime.None? || s.startTime == Some(0) ==> r.startTime == Some(now)
  {
    if s.startTime.None? || s.startTime.value == 0 then Session(s.entries, Some(now)) else s
  }

  /** Starting a session twice changes nothing the second time, as long as the
      first stamp is a real (non-zero) time. */
  lemma StartSessionIdempotent(s: Session, first: int, second: int)
    requires first != 0
    ensures StartSession(StartSession(s, first), second) == StartSession(s, first)
  {
  }

  /** The entry `append` builds: the inferred title first, then every field of
      the input spread over it, so a title given by the caller wins verbatim. */
  function MakeEntry(input: EntryInput, id: string, now: int): FeedbackEntry {
    var inferred := InferSectionTitle(input.sectionTitle, input.pageText, input.pageNumber);
    FeedbackEntry(id, now, input.sectionTitle.GetOr(inferred), input.pageNumber, input.roast,
                  input.transcript, input.pageText, input.deckSummary)
  }

  /** `feedbackStore.append(input)` on the loaded session `s`, with `id` the
      generated identifier and `now` the clock. */
  function Append(s: Session, input: EntryInput, id: string, now: int): (r: Session)
    ensures |r.entries| == |s.entries| + 1
    ensures r.entries[..|s.entries|] == s.entries
    ensures r.startTime == if s.startTime.Some? then s.startTime else Some(now)
    ensures var e := r.entries[|s.entries|];
      && e.id == id && e.createdAt == now
      && e.pageNumber == input.pageNumber && e.roast == input.roast && e.transcript == input.transcript
      && e.pageText == input.pageText && e.deckSummary == input.deckSummary
      && (input.sectionTitle.Some? ==> e.sectionTitle == input.sectionTitle.value)
      && (input.sectionTitle.None? ==> e.sectionTitle == InferSectionTitle(None, input.pageText, input.pageNumber))
  {
    Session(s.entries + [MakeEntry(input, id, now)], Some(s.startTime.GetOr(now)))
  }

  /** `feedbackStore.clear()`: no entries and no start time. */
  function Clear(): (r: Session)
    ensures r.entries == [] && r.startTime.None?
  {
    EmptySession
  }

  datatype OverallSummary = OverallSummary(totalEntries: nat, uniquePages: nat, latestAt: Option<int>)

  /** The distinct page numbers of the entries. */
  function PageSet(entries: seq<FeedbackEntry>): (pages: set<int>)
    ensures forall p :: p in pages <==> exists e :: e in entries && e.pageNumber == p
  {
    if entries == [] then {}
    else
      var init := entries[..|entries| - 1];
      var last := entries[|entries| - 1];
      assert forall e :: e in entries <==> e in init || e == last;
      PageSet(init) + {last.pageNumber}
  }

  /** There are no more distinct pages than entries. */
  lemma {:induction false} PageSetAtMostEntries(entries: seq<FeedbackEntry>)
    ensures |PageSet(entries)| <= |entries|
  {
    if entries != [] {
      PageSetAtMostEntries(entries[..|entries| - 1]);
    }
  }

  /** The largest `createdAt`, starting from `init`. */
  function MaxCreatedAt(init: int, entries: seq<FeedbackEntry>): (m: int)
    ensures m >= init && forall e :: e in entries ==> e.createdAt <= m
    ensures m == init || exists e :: e in entries && e.createdAt == m
  {
    if entries == [] then init
    else
      var m := MaxCreatedAt(init, entries[..|entries| - 1]);
      var last := entries[|entries| - 1];
      assert forall e :: e in entries <==> e in entries[..|entries| - 1] || e == last;
      if last.createdAt > m then last.createdAt else m
  }

  /** `deriveOverallSummary(session)`: how many entries, how many distinct pages
      they are on (never more than the entries), and the latest creation time,
      absent exactly when there are no entries. */
  function DeriveOverallSummary(s: Session): (o: OverallSummary)
    ensures o.totalEntries == |s.entries|
    ensures o.uniquePages == |PageSet(s.entries)| && o.uniquePages <= o.totalEntries
    ensures o.latestAt.None? <==> s.entries == []
    ensures o.latestAt.Some? ==>
      (forall e :: e in s.entries ==> e.createdAt <= o.latestAt.value)
      && exists e :: e in s.entries && e.createdAt == o.latestAt.value
  {
    PageSetAtMostEntries(s.entries);
    var latest := if s.entries == [] then None
                  else Some(MaxCreatedAt(s.entries[0].createdAt, s.entries[1..]));
    assert s.entries != [] ==>
      (s.entries[0] in s.entries && forall e :: e in s.entries[1..] ==> e in s.entries);
    OverallSummary(|s.entries|, |PageSet(s.entries)|, latest)
  }
}
