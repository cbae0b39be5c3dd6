/**
 * `detectPlatform` and `parseFile`: which parser a file goes to, decided
 * from its first non-blank line and, failing that, from a message-line
 * pattern anywhere in the raw text.
 */
module Routing {
  import opened Wrappers
  import opened Text
  import opened DateTime
  import opened Grammar
  import opened Model
  import opened Builder
  import opened Parser
  import opened Seqs

  /** The answer of `detectPlatform`. */
  datatype Format = MultiFormat | SingleFormat(platform: Platform) | UnknownFormat

  // ---------------------------------------------------------------------------
  // header lines

  /** The platform a header line such as `[Insta]` names. */
  function HeaderPlatform(line: string): (r: Option<Platform>)
    ensures r.Some? <==> IsPlatformHeader(line)
  {
    if line == "[WhatsApp]" then Some(WhatsApp)
    else if line == "[Insta]" then Some(Instagram)
    else if line == "[Discord]" then Some(Discord)
    else if line == "[SMS]" then Some(Sms)
    else None
  }

  /** The header line of each platform. */
  function HeaderOf(p: Platform): (h: string)
    ensures IsPlatformHeader(h) && ',' !in h
  {
    match p
    case WhatsApp => "[WhatsApp]"
    case Instagram => "[Insta]"
    case Discord => "[Discord]"
    case Sms => "[SMS]"
  }

  /** Every platform has a header, and the header names it back. */
  lemma HeaderRoundTrip(p: Platform)
    ensures HeaderPlatform(HeaderOf(p)) == Some(p)
  {
  }

  /**
   * A header's bracketed word, used as a section token of the multi format,
   * maps to the same platform.
   */
  lemma HeaderAgreesWithSections(line: string)
    requires IsPlatformHeader(line)
    ensures MapPlatformName(line[1..|line| - 1]) == HeaderPlatform(line).value
  {
    MapPlatformNameTokens();
    assert "[WhatsApp]"[1..9] == "WhatsApp";
    assert "[Insta]"[1..6] == "Insta";
    assert "[Discord]"[1..8] == "Discord";
    assert "[SMS]"[1..4] == "SMS";
  }

  // ---------------------------------------------------------------------------
  // detection

  /** The first non-blank line of the raw text, trimmed. */
  function FirstLine(content: string): (r: Option<string>)
    ensures r.Some? ==> r.value != "" && IsTrimmed(r.value)
  {
    var lines := FilterNonBlank(SplitOn(content, '\n'));
    if |lines| == 0 then None else Some(Trim(lines[0]))
  }

  /** Blank lines before the first line are skipped. */
  lemma FirstLineSkipsBlank(blank: string, rest: string)
    requires '\n' !in blank && !NonBlank(blank)
    ensures FirstLine(blank + "\n" + rest) == FirstLine(rest)
  {
    SplitAfterFreePrefix(blank, '\n', rest);
    FilterNonBlankAppend([blank], SplitOn(rest, '\n'));
    assert FilterNonBlank([blank]) == [] by {
      assert [blank][..0] == [];
    }
  }

  /** A non-blank first line is the first line. */
  lemma FirstLineOf(first: string, rest: string)
    requires '\n' !in first && NonBlank(first)
    ensures FirstLine(first + "\n" + rest) == Some(Trim(first))
  {
    SplitAfterFreePrefix(first, '\n', rest);
    FilterNonBlankAppend([first], SplitOn(rest, '\n'));
    assert FilterNonBlank([first]) == [first] by {
      assert [first][..0] == [];
    }
  }

  /** When no header decides: the message-line pattern, else unknown. */
  function ByPattern(content: string): (r: Format)
    ensures r != MultiFormat
    ensures r.SingleFormat? <==> DetectorMatches(content)
    ensures r.SingleFormat? ==> r.platform == WhatsApp
  {
    if DetectorMatches(content) then SingleFormat(WhatsApp) else UnknownFormat
  }

  /**
   * `detectPlatform`: the first non-blank line decides when it is `[Multi]`
   * or a platform header; otherwise a message line anywhere in the raw text
   * means WhatsApp.
   */
  function DetectPlatform(content: string): (r: Format)
    ensures r == MultiFormat <==> FirstLine(content) == Some("[Multi]")
    ensures r == UnknownFormat <==>
      !DetectorMatches(content) && (FirstLine(content).None? || (FirstLine(content).value != "[Multi]" && !IsPlatformHeader(FirstLine(content).value)))
    ensures r.SingleFormat? && r.platform != WhatsApp ==> FirstLine(content) == Some(HeaderOf(r.platform))
  {
    match FirstLine(content)
    case None => ByPattern(content)
    case Some(first) =>
      if first == "[Multi]" then MultiFormat
      else
        match HeaderPlatform(first)
        case Some(p) => SingleFormat(p)
        case None => ByPattern(content)
  }

  /** A word in brackets is trimmed and non-blank. */
  lemma BracketedIsTrimmed(h: string)
    requires |h| >= 2 && h[0] == '[' && h[|h| - 1] == ']'
    ensures Trim(h) == h && NonBlank(h)
  {
    assert IsTrimmed(h) by {
      assert !IsSpace(h[0]) && !IsSpace(h[|h| - 1]);
    }
    TrimCharacterised("", h, "");
    assert "" + h + "" == h;
  }

  /** A file that starts with a platform header goes to that platform's parser. */
  lemma DetectHeader(p: Platform, rest: string)
    ensures DetectPlatform(HeaderOf(p) + "\n" + rest) == SingleFormat(p)
  {
    var h := HeaderOf(p);
    assert FirstLine(h + "\n" + rest) == Some(h) by {
      assert '\n' !in h;
      BracketedIsTrimmed(h);
      FirstLineOf(h, rest);
    }
    assert h != "[Multi]" && HeaderPlatform(h) == Some(p);
  }

  /** A file that starts with `[Multi]` goes to the multi-section parser. */
  lemma DetectMulti(rest: string)
    ensures DetectPlatform("[Multi]\n" + rest) == MultiFormat
  {
    var h := "[Multi]";
    assert FirstLine(h + "\n" + rest) == Some(h) by {
      assert '\n' !in h;
      BracketedIsTrimmed(h);
      FirstLineOf(h, rest);
    }
    assert "[Multi]\n" + rest == h + "\n" + rest;
  }

  // ---------------------------------------------------------------------------
  // routing

  /** The parser the detected format selects. */
  function Route(f: Format, content: string, fileName: string, now: Timestamp): (cs: seq<Conversation>)
    ensures f == UnknownFormat ==> cs == []
    ensures f.SingleFormat? ==> |cs| == 1 && cs[0].platform == f.platform && cs[0].id == fileName
    ensures f == MultiFormat ==> forall k :: 0 <= k < |cs| ==> cs[k].customName.Some? && |cs[k].messages| > 0
  {
    match f
    case MultiFormat =>
      ParseMultiFormatSections(content, fileName, now);
      ParseMultiFormat(content, fileName, now)
    case SingleFormat(p) => [ParseMessages(content, fileName, p, now)]
    case UnknownFormat => []
  }

  /** `parseFile`. */
  function ParseFile(content: string, fileName: string, now: Timestamp): (cs: seq<Conversation>)
    ensures DetectPlatform(content) == UnknownFormat ==> cs == []
    ensures DetectPlatform(content).SingleFormat? ==> |cs| == 1 && cs[0].platform == DetectPlatform(content).platform
  {
    Route(DetectPlatform(content), content, fileName, now)
  }

  /**
   * What holds of every list of conversations a file yields: the record
   * invariants, parsed text messages, and no two messages of the file with
   * the same id, also as rendered strings.
   */
  ghost predicate FileInvariants(cs: seq<Conversation>) {
    var ms := AllMessages(cs);
    && (forall c :: c in cs ==> WellFormed(c))
    && (forall m :: m in ms ==> ParsedMessage(m))
    && IdsUnique(ms)
    && RenderedUnique(ms)
  }

  lemma MultiMessageParsed(content: string, fileName: string, now: Timestamp, m: Message)
    requires m in AllMessages(ParseMultiFormat(content, fileName, now))
    ensures ParsedMessage(m)
  {
    ParseMultiFormatMessages(content, fileName, now);
  }

  lemma MultiFileInvariants(content: string, fileName: string, now: Timestamp)
    ensures FileInvariants(ParseMultiFormat(content, fileName, now))
  {
    var cs := ParseMultiFormat(content, fileName, now);
    var ms := AllMessages(cs);
    assert forall c :: c in cs ==> WellFormed(c) by {
      ParseMultiFormatSections(content, fileName, now);
      forall c | c in cs
        ensures WellFormed(c)
      {
        var k :| 0 <= k < |cs| && cs[k] == c;
      }
    }
    forall m | m in ms
      ensures ParsedMessage(m)
    {
      MultiMessageParsed(content, fileName, now, m);
    }
    assert IdsUnique(ms) by {
      ParseMultiFormatIdsUnique(content, fileName, now);
    }
    assert RenderedUnique(ms) by {
      ParseMultiFormatMessages(content, fileName, now);
    }
  }

  lemma SingleFileInvariants(content: string, fileName: string, p: Platform, now: Timestamp)
    ensures FileInvariants([ParseMessages(content, fileName, p, now)])
  {
    var c := ParseMessages(content, fileName, p, now);
    ParseMessagesSound(content, fileName, p, now);
    ParseMessagesRenderedIdsUnique(content, fileName, p, now);
    OneConversationInvariants(c);
  }

  /** A single conversation satisfies the invariants when its own messages do. */
  lemma OneConversationInvariants(c: Conversation)
    requires WellFormed(c) && IdsUnique(c.messages) && RenderedUnique(c.messages)
    requires forall m :: m in c.messages ==> ParsedMessage(m)
    ensures FileInvariants([c])
  {
    AllMessagesOfOne(c);
  }

  /** Whatever the format, what a file yields satisfies the invariants. */
  lemma RouteInvariants(f: Format, content: string, fileName: string, now: Timestamp)
    ensures FileInvariants(Route(f, content, fileName, now))
  {
    match f
    case MultiFormat => MultiFileInvariants(content, fileName, now);
    case SingleFormat(p) => SingleFileInvariants(content, fileName, p, now);
    case UnknownFormat =>
  }

  // ---------------------------------------------------------------------------
  // detection looks at the raw text

  /**
   * As written, detection reads the raw text while both parsers first strip
   * the control characters. A one-line WhatsApp export that starts with a
   * left-to-right mark or a byte-order mark is reported unknown and dropped,
   * although parsing it would give its message.
   */
  lemma MarkedExportIsDropped(mark: char, line: string, fileName: string, now: Timestamp)
    requires mark == '\U{200E}' || mark == '\U{FEFF}'
    requires LineFields(line).Some? && NoLineTerminator(line)
    requires forall i :: 0 <= i < |line| ==> !IsControl(line[i])
    ensures DetectPlatform([mark] + line) == UnknownFormat
    ensures ParseFile([mark] + line, fileName, now) == []
    ensures |ParseMessages([mark] + line, fileName, WhatsApp, now).messages| == 1
  {
    assert DetectPlatform([mark] + line) == UnknownFormat by {
      MarkedExportUnknown(mark, line);
    }
    MarkedExportParses(mark, line, fileName, now);
  }

  /** The raw marked line is one line that starts with the mark, so detection finds nothing. */
  lemma MarkedExportUnknown(mark: char, line: string)
    requires mark == '\U{200E}' || mark == '\U{FEFF}'
    requires LineFields(line).Some? && NoLineTerminator(line)
    ensures DetectPlatform([mark] + line) == UnknownFormat
  {
    var comma := MarkedLineFacts(mark, line);
    forall i | 0 <= i < |[mark] + line|
      ensures !IsLineTerminator(([mark] + line)[i])
    {
      if i > 0 {
        assert ([mark] + line)[i] == line[i - 1];
      }
    }
    UnknownWithoutBracket([mark] + line, comma);
  }

  /** The facts about a marked message line the proofs share: where its comma is. */
  lemma MarkedLineFacts(mark: char, line: string) returns (comma: nat)
    requires LineFields(line).Some?
    ensures 1 <= comma < |line| + 1 && ([mark] + line)[comma] == ',' && line[comma - 1] == ','
    ensures |line| > 0 && line[0] == '['
  {
    MatchMessageLineSound(line);
    var p := MatchMessageLine(line).value;
    var ws :| MessageLineShape(line, p, ws);
    assert line == "[" + p.date + "," + ws + p.time + "]" + (p.senderField + ":" + p.tail);
    assert line[1 + |p.date|] == ',';
    comma := 2 + |p.date|;
  }

  /** Lines holding a comma are neither headers nor the `[Multi]` marker. */
  lemma HeadersHaveNoComma(s: string)
    requires ',' in s
    ensures s != "[Multi]" && !IsPlatformHeader(s)
  {
    assert ',' !in "[Multi]";
    assert ',' !in "[WhatsApp]" && ',' !in "[Insta]" && ',' !in "[Discord]" && ',' !in "[SMS]";
  }

  /** A single line that holds a comma has itself, trimmed, as first line, which is no header. */
  lemma OneLineFirstLine(content: string, comma: int)
    requires '\n' !in content && 0 <= comma < |content| && content[comma] == ','
    ensures FirstLine(content) == Some(Trim(content))
    ensures Trim(content) != "[Multi]" && !IsPlatformHeader(Trim(content))
  {
    SplitOfFree(content, '\n');
    TrimKeepsNonSpace(content, comma);
    assert FilterNonBlank([content]) == [content] by {
      assert [content][..0] == [];
    }
    HeadersHaveNoComma(Trim(content));
  }

  /** One line that does not start with `[` and holds a comma is detected as unknown. */
  lemma UnknownWithoutBracket(content: string, comma: int)
    requires NoLineTerminator(content) && |content| > 0 && content[0] != '['
    requires 0 <= comma < |content| && content[comma] == ','
    ensures DetectPlatform(content) == UnknownFormat
  {
    assert '\n' !in content by {
      forall i | 0 <= i < |content|
        ensures content[i] != '\n'
      {
        assert !IsLineTerminator(content[i]);
      }
    }
    OneLineFirstLine(content, comma);
    DetectorNeedsBracket(content);
  }

  /** Stripping removes the mark and nothing else. */
  lemma StripMark(mark: char, line: string)
    requires IsControl(mark)
    requires forall i :: 0 <= i < |line| ==> !IsControl(line[i])
    ensures StripControls([mark] + line) == line
  {
    StripControlsAppend([mark], line);
    assert StripControls([mark]) == "" by {
      assert [mark][..0] == "";
    }
    StripControlsFree(line);
  }

  /** A text that strips to one non-blank line has that line as its only content line. */
  lemma ContentLinesOfOne(content: string, line: string)
    requires StripControls(content) == line && '\n' !in line && NonBlank(line)
    ensures ContentLines(content) == [line]
  {
    SplitOfFree(line, '\n');
    assert FilterNonBlank([line]) == [line] by {
      assert [line][..0] == [];
    }
  }

  /** The messages of a single content line that yields one: exactly that one. */
  lemma SingleMessagesOfOne(line: string, tag: string)
    requires SingleLineMessage(line, tag, 0).Some?
    ensures SingleMessages([line], tag) == [SingleLineMessage(line, tag, 0).value]
  {
    var pick := LinePick(tag);
    NumberedOne(line, pick);
  }

  /** A message line that is not a header yields a message wherever it stands. */
  lemma MessageLineYields(line: string, tag: string, i: nat)
    requires LineFields(line).Some? && !IsPlatformHeader(Trim(line))
    ensures SingleLineMessage(line, tag, i).Some?
  {
  }

  /** A file whose only content line is a message line that is not a header has one message. */
  lemma OneLineOneMessage(content: string, line: string, fileName: string, p: Platform, now: Timestamp)
    requires ContentLines(content) == [line]
    requires LineFields(line).Some? && !IsPlatformHeader(Trim(line))
    ensures |ParseMessages(content, fileName, p, now).messages| == 1
  {
    var lines := ContentLines(content);
    var tag := PlatformName(p);
    var ms := SingleMessages(lines, tag);
    assert |ms| == 1 by {
      MessageLineYields(line, tag, 0);
      SingleMessagesOfOne(line, tag);
    }
    var c := ParseMessages(content, fileName, p, now);
    assert |multiset(c.messages)| == |multiset(ms)|;
  }

  /** What stripping leaves of a marked message line: the line, one line long, no header. */
  lemma MarkedLineStrips(mark: char, line: string) returns (comma: nat)
    requires mark == '\U{200E}' || mark == '\U{FEFF}'
    requires LineFields(line).Some? && NoLineTerminator(line)
    requires forall i :: 0 <= i < |line| ==> !IsControl(line[i])
    ensures StripControls([mark] + line) == line && '\n' !in line
    ensures 0 <= comma < |line| && line[comma] == ','
  {
    var c := MarkedLineFacts(mark, line);
    comma := c - 1;
    StripMark(mark, line);
    forall i | 0 <= i < |line|
      ensures line[i] != '\n'
    {
      assert !IsLineTerminator(line[i]);
    }
  }

  /** Parsing the marked export strips the mark and keeps the message. */
  lemma MarkedExportParses(mark: char, line: string, fileName: string, now: Timestamp)
    requires mark == '\U{200E}' || mark == '\U{FEFF}'
    requires LineFields(line).Some? && NoLineTerminator(line)
    requires forall i :: 0 <= i < |line| ==> !IsControl(line[i])
    ensures |ParseMessages([mark] + line, fileName, WhatsApp, now).messages| == 1
  {
    var comma := MarkedLineStrips(mark, line);
    OneLineFirstLine(line, comma);
    ContentLinesOfOne([mark] + line, line);
    OneLineOneMessage([mark] + line, line, fileName, WhatsApp, now);
  }

  /** Once stripped, the marked export is detected as WhatsApp. */
  lemma MarkedExportDetected(mark: char, line: string)
    requires mark == '\U{200E}' || mark == '\U{FEFF}'
    requires LineFields(line).Some? && NoLineTerminator(line)
    requires forall i :: 0 <= i < |line| ==> !IsControl(line[i])
    ensures DetectPlatform(StripControls([mark] + line)) == SingleFormat(WhatsApp)
  {
    var comma := MarkedLineStrips(mark, line);
    OneLineFirstLine(line, comma);
    SplitOfFree(line, '\n');
    LineDetected(line, line, 0);
  }

  /** Detection on the text the parsers see: with the control characters stripped. */
  function DetectPlatformFixed(content: string): (r: Format)
    ensures r == DetectPlatform(StripControls(content))
  {
    DetectPlatform(StripControls(content))
  }

  /** `parseFile` with the corrected detection. */
  function ParseFileFixed(content: string, fileName: string, now: Timestamp): (cs: seq<Conversation>)
    ensures DetectPlatformFixed(content) == UnknownFormat ==> cs == []
  {
    Route(DetectPlatformFixed(content), content, fileName, now)
  }

  /** Every piece of a text split at `\n` starts a line of the text. */
  lemma PieceAtLineStart(s: string, k: int) returns (at: nat)
    requires 0 <= k < |SplitOn(s, '\n')|
    ensures at + |SplitOn(s, '\n')[k]| <= |s| && IsLineStart(s, at)
    ensures s[at..] == SplitOn(s, '\n')[k] + s[at + |SplitOn(s, '\n')[k]|..]
  {
    at := PieceStart(s, '\n', k);
    var piece := SplitOn(s, '\n')[k];
    assert s[at..] == s[at..at + |piece|] + s[at + |piece|..];
  }

  /** A message line that is a piece of the text split at `\n` makes the detector fire. */
  lemma LineDetected(s: string, line: string, k: int)
    requires 0 <= k < |SplitOn(s, '\n')| && SplitOn(s, '\n')[k] == line
    requires MatchMessageLine(line).Some?
    ensures DetectorMatches(s) && DetectPlatform(s) != UnknownFormat
  {
    var at := PieceAtLineStart(s, k);
    MessageLineTriggersDetector(s, at, line, s[at + |line|..]);
  }

  /** A parsed message comes from a piece of the stripped text that matches the message grammar. */
  lemma MessageSourceLine(content: string, fileName: string, p: Platform, now: Timestamp) returns (k: nat)
    requires |ParseMessages(content, fileName, p, now).messages| > 0
    ensures k < |SplitOn(StripControls(content), '\n')|
    ensures MatchMessageLine(SplitOn(StripControls(content), '\n')[k]).Some?
  {
    var o := FirstMessageLine(content, fileName, p, now);
    var line := ContentLines(content)[o];
    ContentLineIsPiece(content, o);
    k := PositionOf(SplitOn(StripControls(content), '\n'), line);
  }

  /** A content line is one of the pieces of the stripped text. */
  lemma ContentLineIsPiece(content: string, o: nat)
    requires o < |ContentLines(content)|
    ensures ContentLines(content)[o] in SplitOn(StripControls(content), '\n')
  {
  }

  /** The first parsed message names a content line that matches the message grammar. */
  lemma FirstMessageLine(content: string, fileName: string, p: Platform, now: Timestamp) returns (o: nat)
    requires |ParseMessages(content, fileName, p, now).messages| > 0
    ensures o < |ContentLines(content)| && MatchMessageLine(ContentLines(content)[o]).Some?
  {
    var msgs := ParseMessages(content, fileName, p, now).messages;
    var m := msgs[0];
    var lines := ContentLines(content);
    var tag := PlatformName(p);
    assert FromLine(m, lines, tag) by {
      assert m in msgs;
      ParseMessagesSound(content, fileName, p, now);
    }
    o := m.id.ordinal;
    SingleLineMatches(lines[o], tag, o);
  }

  /**
   * With the corrected detection a file is reported unknown only when the
   * single-format parser finds no message in it, whatever the platform.
   */
  lemma FixedDetectionKeepsMessages(content: string, fileName: string, p: Platform, now: Timestamp)
    requires |ParseMessages(content, fileName, p, now).messages| > 0
    ensures DetectPlatformFixed(content) != UnknownFormat
  {
    var k := MessageSourceLine(content, fileName, p, now);
    var s := StripControls(content);
    LineDetected(s, SplitOn(s, '\n')[k], k);
  }

  /** The marked export of MarkedExportIsDropped keeps its message with the corrected detection. */
  lemma MarkedExportIsKept(mark: char, line: string, fileName: string, now: Timestamp)
    requires mark == '\U{200E}' || mark == '\U{FEFF}'
    requires LineFields(line).Some? && NoLineTerminator(line)
    requires forall i :: 0 <= i < |line| ==> !IsControl(line[i])
    ensures ParseFileFixed([mark] + line, fileName, now) == [ParseMessages([mark] + line, fileName, WhatsApp, now)]
    ensures |ParseMessages([mark] + line, fileName, WhatsApp, now).messages| == 1
  {
    var content := [mark] + line;
    MarkedExportParses(mark, line, fileName, now);
    MarkedExportDetected(mark, line);
    RouteSingle(WhatsApp, content, fileName, now);
  }

  /** A single-format file is parsed by `parseMessages` alone. */
  lemma RouteSingle(p: Platform, content: string, fileName: string, now: Timestamp)
    ensures Route(SingleFormat(p), content, fileName, now) == [ParseMessages(content, fileName, p, now)]
  {
  }
}
