/**
 * `ConversationParser`: the single-format parser (`parseMessages`), the
 * multi-section parser (`parseMultiFormat`), platform names, format detection
 * and routing (`detectPlatform`, `parseFile`), and the per-sender statistics
 * (`calculateStats`).
 */
module Parser {
  import opened Wrappers
  import opened Text
  import opened Seqs
  import opened DateTime
  import opened Grammar
  import opened Model
  import opened Builder

  function OptionToSeq<T>(o: Option<T>): (r: seq<T>)
    ensures |r| <= 1
    ensures o.Some? ==> r == [o.value]
    ensures o.None? ==> r == []
  {
    match o
    case None => []
    case Some(v) => [v]
  }

  // ---------------------------------------------------------------------------
  // one message line

  /** What every parsed message satisfies. */
  predicate ParsedMessage(m: Message) {
    m.kind == TextKind && IsTrimmed(m.sender) && ':' !in m.sender && IsTrimmed(m.content) && m.content != ""
  }

  /** The parts of a message a line supplies: everything but the id. */
  datatype Fields = Fields(timestamp: Timestamp, sender: string, content: string)

  predicate FieldsOk(f: Fields) {
    IsTrimmed(f.sender) && ':' !in f.sender && IsTrimmed(f.content) && f.content != ""
  }

  /** The text message with id `id` made of the fields. */
  function MessageOf(f: Fields, id: MessageId): (m: Message)
    ensures m.id == id && (FieldsOk(f) ==> ParsedMessage(m))
  {
    Message(id, f.timestamp, f.sender, f.content, TextKind)
  }

  /**
   * What a line supplies to a message: the line must match the message
   * grammar, its tokens must give a date, and the trimmed content must be
   * non-empty.
   */
  function LineFields(line: string): (r: Option<Fields>)
    ensures r.Some? <==> MatchMessageLine(line).Some? && Trim(MatchMessageLine(line).value.tail) != ""
    ensures r.Some? ==> FieldsOk(r.value)
  {
    match MatchMessageLine(line)
    case None => None
    case Some(p) =>
      match ParseDateTime(p.date, p.time)
      case None => None
      case Some(t) =>
        var content := Trim(p.tail);
        if content == "" then None
        else
          MatchMessageLineSound(line);
          IndexOfCut(MatchStamp(line).value.rest, ':');
          TrimNotIn(p.senderField, ':');
          Some(Fields(t, Trim(p.senderField), content))
  }

  /** The message a line yields under the id it would get. */
  function LineMessage(line: string, id: MessageId): (r: Option<Message>)
    ensures r.Some? <==> LineFields(line).Some?
    ensures r.Some? ==> r.value.id == id && ParsedMessage(r.value)
  {
    match LineFields(line)
    case None => None
    case Some(f) => Some(MessageOf(f, id))
  }

  /** Empty lines and the `[Multi]` marker yield no message. */
  lemma NoMessageOnBlankOrMarker(line: string)
    requires line == "" || line == "[Multi]"
    ensures LineFields(line).None?
  {
    if line == "[Multi]" {
      HeaderIsNotMessage(line);
    }
  }

  // ---------------------------------------------------------------------------
  // the single format

  /** `line.trim()` is truthy. */
  predicate NonBlank(line: string) {
    Trim(line) != ""
  }

  /** `lines.filter(line => line.trim())`. */
  function FilterNonBlank(lines: seq<string>): (r: seq<string>)
    ensures |r| <= |lines|
    ensures forall k :: 0 <= k < |r| ==> NonBlank(r[k]) && r[k] in lines
    decreases |lines|
  {
    if |lines| == 0 then []
    else
      var last := lines[|lines| - 1];
      var r := FilterNonBlank(lines[..|lines| - 1]);
      r + (if NonBlank(last) then [last] else [])
  }

  /** Filtering works piece by piece. */
  lemma {:induction false} FilterNonBlankAppend(a: seq<string>, b: seq<string>)
    ensures FilterNonBlank(a + b) == FilterNonBlank(a) + FilterNonBlank(b)
    decreases |b|
  {
    if |b| == 0 {
      assert a + b == a;
    } else {
      var n := |b| - 1;
      assert (a + b)[..|a + b| - 1] == a + b[..n];
      assert (a + b)[|a + b| - 1] == b[n];
      FilterNonBlankAppend(a, b[..n]);
    }
  }

  /** The lines the single-format parser numbers: control characters stripped, split at `\n`, blank lines dropped. */
  function ContentLines(content: string): seq<string> {
    FilterNonBlank(SplitOn(StripControls(content), '\n'))
  }

  /** The `index`-th content line: platform headers are skipped but still counted. */
  function SingleLineMessage(line: string, tag: string, index: nat): (r: Option<Message>)
    ensures IsPlatformHeader(Trim(line)) ==> r.None?
    ensures r.Some? ==> r.value.id == MessageId(tag, index) && ParsedMessage(r.value)
  {
    if IsPlatformHeader(Trim(line)) then None else LineMessage(line, MessageId(tag, index))
  }

  /**
   * The `lines.forEach((line, index) => …)` pattern: numbers the lines from 0
   * and keeps, with its line number, every value `pick` makes of a line.
   */
  function Numbered<T>(lines: seq<string>, pick: (string, nat) -> Option<T>): (r: seq<(nat, T)>)
    ensures forall k :: 0 <= k < |r| ==> r[k].0 < |lines| && pick(lines[r[k].0], r[k].0) == Some(r[k].1)
    ensures forall i, j :: 0 <= i < j < |r| ==> r[i].0 < r[j].0
    decreases |lines|
  {
    if |lines| == 0 then []
    else
      var n := |lines| - 1;
      var r := Numbered(lines[..n], pick);
      assert forall k :: 0 <= k < |r| ==> lines[..n][r[k].0] == lines[r[k].0];
      match pick(lines[n], n)
      case None => r
      case Some(v) => r + [(n, v)]
  }

  /** A single accepted line is numbered 0. */
  lemma NumberedOne<T>(line: string, pick: (string, nat) -> Option<T>)
    requires pick(line, 0).Some?
    ensures Numbered([line], pick) == [(0, pick(line, 0).value)]
  {
    assert [line][..0] == [];
  }

  /** Every line `pick` accepts is kept. */
  lemma {:induction false} NumberedComplete<T>(lines: seq<string>, pick: (string, nat) -> Option<T>, i: int)
    requires 0 <= i < |lines| && pick(lines[i], i).Some?
    ensures (i, pick(lines[i], i).value) in Numbered(lines, pick)
    decreases |lines|
  {
    var n := |lines| - 1;
    if i < n {
      NumberedComplete(lines[..n], pick, i);
      assert lines[..n][i] == lines[i];
    }
  }

  function Values<T>(r: seq<(nat, T)>): (vs: seq<T>)
    ensures |vs| == |r| && forall k :: 0 <= k < |r| ==> vs[k] == r[k].1
  {
    seq(|r|, k requires 0 <= k < |r| => r[k].1)
  }

  /** A line that yields a message matches the message grammar. */
  lemma SingleLineMatches(line: string, tag: string, index: nat)
    requires SingleLineMessage(line, tag, index).Some?
    ensures MatchMessageLine(line).Some?
  {
  }

  /** `m` is what the content line its id numbers yields. */
  predicate FromLine(m: Message, lines: seq<string>, tag: string) {
    m.id.tag == tag && m.id.ordinal < |lines| && SingleLineMessage(lines[m.id.ordinal], tag, m.id.ordinal) == Some(m)
  }

  /** The line reader of the single-format parser, numbering lines for the ids. */
  function LinePick(tag: string): (string, nat) -> Option<Message> {
    (l: string, i: nat) => SingleLineMessage(l, tag, i)
  }

  /** The messages of the content lines, in line order. */
  function SingleMessages(lines: seq<string>, tag: string): (r: seq<Message>)
    ensures forall k :: 0 <= k < |r| ==> FromLine(r[k], lines, tag) && ParsedMessage(r[k])
    ensures IdsUnique(r)
  {
    var hits := Numbered(lines, LinePick(tag));
    NumberedLines(lines, tag);
    Values(hits)
  }

  /** Each numbered hit is what its line yields, under its line's number. */
  lemma NumberedLines(lines: seq<string>, tag: string)
    ensures var hits := Numbered(lines, LinePick(tag));
      forall k :: 0 <= k < |hits| ==> hits[k].0 < |lines| && FromLine(hits[k].1, lines, tag) && hits[k].1.id == MessageId(tag, hits[k].0)
  {
    var hits := Numbered(lines, LinePick(tag));
    forall k | 0 <= k < |hits|
      ensures hits[k].0 < |lines| && FromLine(hits[k].1, lines, tag) && hits[k].1.id == MessageId(tag, hits[k].0)
    {
      assert LinePick(tag)(lines[hits[k].0], hits[k].0) == Some(hits[k].1);
    }
  }

  /** Every line that yields a message contributes it. */
  lemma SingleMessagesComplete(lines: seq<string>, tag: string, i: int)
    requires 0 <= i < |lines| && SingleLineMessage(lines[i], tag, i).Some?
    ensures SingleLineMessage(lines[i], tag, i).value in SingleMessages(lines, tag)
  {
    var pick := LinePick(tag);
    var hits := Numbered(lines, pick);
    NumberedComplete(lines, pick, i);
    var k :| 0 <= k < |hits| && hits[k] == (i, pick(lines[i], i).value);
    assert Values(hits)[k] == SingleLineMessage(lines[i], tag, i).value;
  }

  /**
   * `parseMessages`: the conversation of the messages of all content lines,
   * with ids `${platform}-${index}` where `index` counts content lines.
   */
  function ParseMessages(content: string, fileName: string, platform: Platform, now: Timestamp): (c: Conversation)
    ensures WellFormed(c)
    ensures c.id == fileName && c.name == StripExtension(fileName) && c.platform == platform && c.customName == None
    ensures multiset(c.messages) == multiset(SingleMessages(ContentLines(content), PlatformName(platform)))
    ensures IdsUnique(c.messages)
  {
    var lines := ContentLines(content);
    var ms := SingleMessages(lines, PlatformName(platform));
    var c := CreateConversation(ms, fileName, platform, now);
    CreateConversationWellFormed(ms, fileName, platform, now);
    IdsUniquePermutation(ms, c.messages);
    c
  }

  /**
   * Every message of a parsed conversation is a text message with trimmed
   * sender and content, no colon in the sender, and the id of the content
   * line it comes from.
   */
  lemma ParseMessagesSound(content: string, fileName: string, platform: Platform, now: Timestamp)
    ensures forall m :: m in ParseMessages(content, fileName, platform, now).messages ==>
      ParsedMessage(m) && FromLine(m, ContentLines(content), PlatformName(platform))
  {
    var ms := SingleMessages(ContentLines(content), PlatformName(platform));
    var c := ParseMessages(content, fileName, platform, now);
    forall m | m in c.messages
      ensures ParsedMessage(m) && FromLine(m, ContentLines(content), PlatformName(platform))
    {
      assert m in multiset(ms);
      var k := PositionOf(ms, m);
    }
  }

  /** Every content line that yields a message is in the conversation. */
  lemma ParseMessagesComplete(content: string, fileName: string, platform: Platform, now: Timestamp, i: int)
    requires 0 <= i < |ContentLines(content)|
    requires SingleLineMessage(ContentLines(content)[i], PlatformName(platform), i).Some?
    ensures SingleLineMessage(ContentLines(content)[i], PlatformName(platform), i).value in ParseMessages(content, fileName, platform, now).messages
  {
    var lines := ContentLines(content);
    var ms := SingleMessages(lines, PlatformName(platform));
    SingleMessagesComplete(lines, PlatformName(platform), i);
    var m := SingleLineMessage(lines[i], PlatformName(platform), i).value;
    assert m in multiset(ms);
  }

  /** The rendered ids of a parsed conversation are pairwise different strings. */
  lemma ParseMessagesRenderedIdsUnique(content: string, fileName: string, platform: Platform, now: Timestamp)
    ensures RenderedUnique(ParseMessages(content, fileName, platform, now).messages)
  {
    var ms := ParseMessages(content, fileName, platform, now).messages;
    ParseMessagesSound(content, fileName, platform, now);
    forall k | 0 <= k < |ms|
      ensures '-' !in ms[k].id.tag
    {
      assert ms[k] in ms;
      assert ms[k].id.tag == PlatformName(platform);
    }
    RenderedIdsUnique(ms);
  }

  // ---------------------------------------------------------------------------
  // platform names

  /** `mapPlatformName`: case-insensitive, with WhatsApp as the fallback. */
  function MapPlatformName(name: string): (p: Platform) {
    var n := ToLower(name);
    if n == "whatsapp" then WhatsApp
    else if n == "insta" || n == "instagram" then Instagram
    else if n == "discord" then Discord
    else if n == "sms" then Sms
    else WhatsApp
  }

  /** Every platform's own name maps back to it. */
  lemma MapPlatformNameRoundTrip(p: Platform)
    ensures MapPlatformName(PlatformName(p)) == p
  {
    var s := PlatformName(p);
    assert ToLower(s) == s by {
      forall i | 0 <= i < |s|
        ensures LowerChar(s[i]) == s[i]
      {
      }
    }
  }

  /** The section tokens of the exports map as expected, whatever their case. */
  lemma MapPlatformNameTokens()
    ensures MapPlatformName("WhatsApp") == WhatsApp
    ensures MapPlatformName("Insta") == Instagram
    ensures MapPlatformName("Discord") == Discord
    ensures MapPlatformName("SMS") == Sms
    ensures MapPlatformName("Telegram") == WhatsApp
  {
    assert ToLower("WhatsApp") == "whatsapp";
    assert ToLower("Insta") == "insta";
    assert ToLower("Discord") == "discord";
    assert ToLower("SMS") == "sms";
    assert ToLower("Telegram") == "telegram";
  }

  // ---------------------------------------------------------------------------
  // the multi-section format
  //
  // The loop and its reference are written for any line reader `read`;
  // `parseMultiFormat` uses LineFields. Only two facts about the reader
  // matter to the loop: an empty line and the `[Multi]` marker supply nothing.

  /** The variables of the `parseMultiFormat` loop: the open section, its messages, `messageIndex`, the output. */
  datatype MultiState = MultiState(section: Option<Section>, current: seq<Message>, counter: nat, done: seq<Conversation>)

  /** A section's conversation: built under the section name, with the mapped platform and `customName` set. */
  function SectionConversation(sec: Section, ms: seq<Message>, now: Timestamp): (c: Conversation)
    ensures multiset(c.messages) == multiset(ms)
    ensures c.id == sec.name && c.customName == Some(sec.name) && c.platform == MapPlatformName(sec.token)
  {
    CreateConversation(ms, sec.name, MapPlatformName(sec.token), now).(customName := Some(sec.name))
  }

  /** Renaming keeps the invariants of the built record. */
  lemma SectionConversationWellFormed(sec: Section, ms: seq<Message>, now: Timestamp)
    ensures WellFormed(SectionConversation(sec, ms, now))
  {
    CreateConversationWellFormed(ms, sec.name, MapPlatformName(sec.token), now);
  }

  /**
   * How a finished section becomes a conversation. The loop and its
   * reference take it as a parameter; `parseMultiFormat` uses BuildSection.
   */
  type SectionBuilder = (Section, seq<Message>) -> Conversation

  /** SectionConversation with the clock reading fixed. */
  function BuildSection(now: Timestamp): (b: SectionBuilder)
    ensures forall sec, ms :: b(sec, ms) == SectionConversation(sec, ms, now)
  {
    (sec: Section, ms: seq<Message>) => SectionConversation(sec, ms, now)
  }

  /** A builder that keeps the section's messages, as BuildSection does. */
  ghost predicate KeepsMessages(build: SectionBuilder) {
    forall sec, ms :: multiset(build(sec, ms).messages) == multiset(ms)
  }

  /** Pushes the open section's conversation when it has messages. */
  function Flush(st: MultiState, build: SectionBuilder): seq<Conversation> {
    if st.section.Some? && |st.current| > 0 then st.done + [build(st.section.value, st.current)]
    else st.done
  }

  /** One iteration of the loop on an untrimmed line. */
  function MultiStep(st: MultiState, raw: string, build: SectionBuilder, read: string -> Option<Fields>): MultiState {
    var line := Trim(raw);
    if line == "" || line == "[Multi]" then st
    else
      match MatchSection(line)
      case Some(sec) => MultiState(Some(sec), [], st.counter, Flush(st, build))
      case None =>
        if st.section.None? then st
        else
          match read(line)
          case None => st
          case Some(f) =>
            var m := MessageOf(f, MessageId(st.section.value.token, st.counter));
            st.(current := st.current + [m], counter := st.counter + 1)
  }

  /** The loop over all lines. */
  function RunMulti(lines: seq<string>, build: SectionBuilder, read: string -> Option<Fields>): MultiState
    decreases |lines|
  {
    if |lines| == 0 then MultiState(None, [], 0, [])
    else MultiStep(RunMulti(lines[..|lines| - 1], build, read), lines[|lines| - 1], build, read)
  }

  /** The lines of the multi format: control characters stripped, split at `\n`, nothing filtered. */
  function MultiLines(content: string): seq<string> {
    SplitOn(StripControls(content), '\n')
  }

  /** `parseMultiFormat`; the file name plays no part in it. */
  function ParseMultiFormat(content: string, fileName: string, now: Timestamp): seq<Conversation> {
    Flush(RunMulti(MultiLines(content), BuildSection(now), LineFields), BuildSection(now))
  }

  // the reference: blocks of lines

  /** A section line with the lines that follow it up to the next section line. */
  datatype Block = Block(section: Section, body: seq<string>)

  /** Adds one line to the blocks: a section line opens a block, any other line joins the last one, if any. */
  function BlocksStep(bs: seq<Block>, l: string): (r: seq<Block>) {
    match MatchSection(Trim(l))
    case Some(sec) => bs + [Block(sec, [])]
    case None =>
      if |bs| == 0 then []
      else bs[..|bs| - 1] + [Block(bs[|bs| - 1].section, bs[|bs| - 1].body + [l])]
  }

  /** Section tokens are `\w+`, so they hold no dash. */
  lemma SectionTokenNoDash(line: string)
    ensures MatchSection(line).Some? ==> '-' !in MatchSection(line).value.token
  {
    if MatchSection(line).Some? {
      MatchSectionSound(line);
      var t := MatchSection(line).value.token;
      forall i | 0 <= i < |t|
        ensures t[i] != '-'
      {
        assert IsWordChar(t[i]);
      }
    }
  }

  /** The blocks of a list of lines; lines before the first section line belong to none. */
  function Blocks(lines: seq<string>): (r: seq<Block>)
    ensures forall k :: 0 <= k < |r| ==> '-' !in r[k].section.token
    decreases |lines|
  {
    if |lines| == 0 then []
    else
      var bs := Blocks(lines[..|lines| - 1]);
      var l := lines[|lines| - 1];
      SectionTokenNoDash(Trim(l));
      BlocksStep(bs, l)
  }

  /** The messages of a block body, numbered consecutively from `start`. */
  function BodyMessages(body: seq<string>, tag: string, start: nat, read: string -> Option<Fields>): (r: seq<Message>)
    ensures forall k :: 0 <= k < |r| ==> r[k].id == MessageId(tag, start + k)
    decreases |body|
  {
    if |body| == 0 then []
    else
      var ms := BodyMessages(body[..|body| - 1], tag, start, read);
      match read(Trim(body[|body| - 1]))
      case None => ms
      case Some(f) => ms + [MessageOf(f, MessageId(tag, start + |ms|))]
  }

  /** The number of messages in all blocks together. */
  function BlockCount(bs: seq<Block>, read: string -> Option<Fields>): nat
    decreases |bs|
  {
    if |bs| == 0 then 0
    else
      var n := |bs| - 1;
      BlockCount(bs[..n], read) + |BodyMessages(bs[n].body, bs[n].section.token, BlockCount(bs[..n], read), read)|
  }

  /** The messages of block `i`, numbered after those of the blocks before it. */
  function BlockMessages(bs: seq<Block>, i: int, read: string -> Option<Fields>): (r: seq<Message>)
    requires 0 <= i < |bs|
    ensures forall k :: 0 <= k < |r| ==> r[k].id == MessageId(bs[i].section.token, BlockCount(bs[..i], read) + k)
  {
    BodyMessages(bs[i].body, bs[i].section.token, BlockCount(bs[..i], read), read)
  }

  /** One conversation for each block with messages, in block order. */
  function Emit(bs: seq<Block>, build: SectionBuilder, read: string -> Option<Fields>): seq<Conversation>
    decreases |bs|
  {
    if |bs| == 0 then []
    else
      var n := |bs| - 1;
      var ms := BlockMessages(bs, n, read);
      Emit(bs[..n], build, read) + (if |ms| > 0 then [build(bs[n].section, ms)] else [])
  }

  // the loop computes the reference

  /** The loop state after some lines, described by the blocks of those lines. */
  ghost predicate Tracks(st: MultiState, bs: seq<Block>, build: SectionBuilder, read: string -> Option<Fields>) {
    if |bs| == 0 then st == MultiState(None, [], 0, [])
    else
      var n := |bs| - 1;
      st.section == Some(bs[n].section) && st.current == BlockMessages(bs, n, read)
      && st.counter == BlockCount(bs, read) && st.done == Emit(bs[..n], build, read)
  }

  lemma FlushEmits(st: MultiState, bs: seq<Block>, build: SectionBuilder, read: string -> Option<Fields>)
    requires Tracks(st, bs, build, read)
    ensures Flush(st, build) == Emit(bs, build, read)
  {
  }

  /** A line joining the last block adds what it supplies under the next number. */
  lemma BodyLineStep(bs: seq<Block>, l: string, read: string -> Option<Fields>)
    requires |bs| > 0
    ensures var n := |bs| - 1;
      var bs' := bs[..n] + [Block(bs[n].section, bs[n].body + [l])];
      var id := MessageId(bs[n].section.token, BlockCount(bs, read));
      bs'[..n] == bs[..n]
      && BlockMessages(bs', n, read) == BlockMessages(bs, n, read) + (if read(Trim(l)).Some? then [MessageOf(read(Trim(l)).value, id)] else [])
      && BlockCount(bs', read) == BlockCount(bs, read) + (if read(Trim(l)).Some? then 1 else 0)
  {
    var n := |bs| - 1;
    var bs' := bs[..n] + [Block(bs[n].section, bs[n].body + [l])];
    assert bs'[..n] == bs[..n];
    assert (bs[n].body + [l])[..|bs[n].body|] == bs[n].body;
  }

  lemma SectionStepTracks(st: MultiState, bs: seq<Block>, l: string, build: SectionBuilder, read: string -> Option<Fields>)
    requires Tracks(st, bs, build, read) && MatchSection(Trim(l)).Some?
    ensures Tracks(MultiStep(st, l, build, read), BlocksStep(bs, l), build, read)
  {
    var sec := MatchSection(Trim(l)).value;
    assert Trim(l) != "" && Trim(l) != "[Multi]";
    var st' := MultiStep(st, l, build, read);
    var bs' := BlocksStep(bs, l);
    assert st' == MultiState(Some(sec), [], st.counter, Flush(st, build));
    assert bs' == bs + [Block(sec, [])];
    assert bs'[..|bs|] == bs;
    FlushEmits(st, bs, build, read);
    assert BlockCount(bs', read) == BlockCount(bs, read);
  }

  lemma BodyStepTracks(st: MultiState, bs: seq<Block>, l: string, build: SectionBuilder, read: string -> Option<Fields>)
    requires read("").None? && read("[Multi]").None?
    requires Tracks(st, bs, build, read) && MatchSection(Trim(l)).None? && |bs| > 0
    ensures Tracks(MultiStep(st, l, build, read), BlocksStep(bs, l), build, read)
  {
    var n := |bs| - 1;
    var line := Trim(l);
    var st' := MultiStep(st, l, build, read);
    var bs' := BlocksStep(bs, l);
    assert bs' == bs[..n] + [Block(bs[n].section, bs[n].body + [l])];
    BodyLineStep(bs, l, read);
    if line == "" || line == "[Multi]" {
      assert st' == st;
    } else {
      var id := MessageId(bs[n].section.token, BlockCount(bs, read));
      assert st.section == Some(bs[n].section) && st.counter == BlockCount(bs, read);
      match read(line)
      case None =>
        assert st' == st;
      case Some(f) =>
        assert st' == st.(current := st.current + [MessageOf(f, id)], counter := st.counter + 1);
    }
  }

  lemma {:induction false} StepTracks(st: MultiState, bs: seq<Block>, l: string, build: SectionBuilder, read: string -> Option<Fields>)
    requires read("").None? && read("[Multi]").None?
    requires Tracks(st, bs, build, read)
    ensures Tracks(MultiStep(st, l, build, read), BlocksStep(bs, l), build, read)
  {
    if MatchSection(Trim(l)).Some? {
      SectionStepTracks(st, bs, l, build, read);
    } else if |bs| > 0 {
      BodyStepTracks(st, bs, l, build, read);
    } else {
      assert MultiStep(st, l, build, read) == st;
    }
  }

  lemma {:induction false} RunMultiTracks(lines: seq<string>, build: SectionBuilder, read: string -> Option<Fields>)
    requires read("").None? && read("[Multi]").None?
    ensures Tracks(RunMulti(lines, build, read), Blocks(lines), build, read)
    decreases |lines|
  {
    if |lines| > 0 {
      var n := |lines| - 1;
      RunMultiTracks(lines[..n], build, read);
      StepTracks(RunMulti(lines[..n], build, read), Blocks(lines[..n]), lines[n], build, read);
    }
  }

  /** The loop of `parseMultiFormat` emits exactly the conversations of the reference. */
  lemma ParseMultiFormatIsEmit(content: string, fileName: string, now: Timestamp)
    ensures ParseMultiFormat(content, fileName, now) == Emit(Blocks(MultiLines(content)), BuildSection(now), LineFields)
  {
    NoMessageOnBlankOrMarker("");
    NoMessageOnBlankOrMarker("[Multi]");
    var build := BuildSection(now);
    RunMultiTracks(MultiLines(content), build, LineFields);
    FlushEmits(RunMulti(MultiLines(content), build, LineFields), Blocks(MultiLines(content)), build, LineFields);
  }

  // properties of the reference

  lemma BlockMessagesPrefix(bs: seq<Block>, n: int, read: string -> Option<Fields>)
    requires 0 <= n <= |bs|
    ensures forall i :: 0 <= i < n ==> BlockMessages(bs[..n], i, read) == BlockMessages(bs, i, read)
  {
    forall i | 0 <= i < n
      ensures BlockMessages(bs[..n], i, read) == BlockMessages(bs, i, read)
    {
      assert bs[..n][..i] == bs[..i];
    }
  }

  /** The positions of the blocks that have messages, in increasing order. */
  function NonEmptyBlocks(bs: seq<Block>, read: string -> Option<Fields>): (r: seq<nat>)
    ensures forall k :: 0 <= k < |r| ==> r[k] < |bs| && |BlockMessages(bs, r[k], read)| > 0
    ensures forall i, j :: 0 <= i < j < |r| ==> r[i] < r[j]
    ensures forall i :: 0 <= i < |bs| && |BlockMessages(bs, i, read)| > 0 ==> i in r
    decreases |bs|
  {
    if |bs| == 0 then []
    else
      var n := |bs| - 1;
      var r := NonEmptyBlocks(bs[..n], read);
      var r' := r + (if |BlockMessages(bs, n, read)| > 0 then [n] else []);
      NonEmptySnoc(bs, read, r, r');
      r'
  }

  /** The block positions of a prefix, extended by the last block when it has messages. */
  lemma NonEmptySnoc(bs: seq<Block>, read: string -> Option<Fields>, r: seq<nat>, r': seq<nat>)
    requires |bs| > 0
    requires var n := |bs| - 1;
      && (forall k :: 0 <= k < |r| ==> r[k] < n && |BlockMessages(bs[..n], r[k], read)| > 0)
      && (forall i, j :: 0 <= i < j < |r| ==> r[i] < r[j])
      && (forall i :: 0 <= i < n && |BlockMessages(bs[..n], i, read)| > 0 ==> i in r)
      && r' == r + (if |BlockMessages(bs, n, read)| > 0 then [n] else [])
    ensures forall k :: 0 <= k < |r'| ==> r'[k] < |bs| && |BlockMessages(bs, r'[k], read)| > 0
    ensures forall i, j :: 0 <= i < j < |r'| ==> r'[i] < r'[j]
    ensures forall i :: 0 <= i < |bs| && |BlockMessages(bs, i, read)| > 0 ==> i in r'
  {
    var n := |bs| - 1;
    BlockMessagesPrefix(bs, n, read);
    var p := (i: int) => 0 <= i < n && |BlockMessages(bs[..n], i, read)| > 0;
    var q := (i: int) => 0 <= i < |bs| && |BlockMessages(bs, i, read)| > 0;
    PositionsSnoc(r, r', n, p, q);
  }

  /** Positions below `n` with property `p`, extended by `n` when it has the property. */
  lemma PositionsSnoc(r: seq<nat>, r': seq<nat>, n: nat, p: int -> bool, q: int -> bool)
    requires forall k :: 0 <= k < |r| ==> r[k] < n && p(r[k])
    requires forall i, j :: 0 <= i < j < |r| ==> r[i] < r[j]
    requires forall i :: 0 <= i < n && p(i) ==> i in r
    requires forall i :: 0 <= i < n ==> (p(i) <==> q(i))
    requires forall i :: q(i) ==> 0 <= i <= n
    requires r' == r + (if q(n) then [n] else [])
    ensures forall k :: 0 <= k < |r'| ==> r'[k] <= n && q(r'[k])
    ensures forall i, j :: 0 <= i < j < |r'| ==> r'[i] < r'[j]
    ensures forall i :: q(i) ==> i in r'
  {
  }

  /**
   * The reference emits exactly one conversation per block with messages, in
   * block order, each holding that block's messages.
   */
  lemma {:induction false} EmitOnePerNonEmptyBlock(bs: seq<Block>, build: SectionBuilder, read: string -> Option<Fields>)
    ensures EmitMatchesBlocks(bs, build, read)
    decreases |bs|
  {
    if |bs| > 0 {
      EmitOnePerNonEmptyBlock(bs[..|bs| - 1], build, read);
      EmitOneStep(bs, build, read);
    }
  }

  /** The `k`-th emitted conversation is built from the `k`-th block with messages. */
  predicate EmitMatchesBlocks(bs: seq<Block>, build: SectionBuilder, read: string -> Option<Fields>) {
    var e := Emit(bs, build, read);
    var r := NonEmptyBlocks(bs, read);
    |e| == |r| && forall k :: 0 <= k < |e| ==> e[k] == build(bs[r[k]].section, BlockMessages(bs, r[k], read))
  }

  lemma EmitOneStep(bs: seq<Block>, build: SectionBuilder, read: string -> Option<Fields>)
    requires |bs| > 0 && EmitMatchesBlocks(bs[..|bs| - 1], build, read)
    ensures EmitMatchesBlocks(bs, build, read)
  {
    var n := |bs| - 1;
    var prev := NonEmptyBlocks(bs[..n], read);
    var before := Emit(bs[..n], build, read);
    var ms := BlockMessages(bs, n, read);
    var gs := seq(|bs|, i requires 0 <= i < |bs| => build(bs[i].section, BlockMessages(bs, i, read)));
    PrefixPicks(bs, build, read, gs, prev, before);
    PicksSnoc(prev, before, gs, n, |ms| > 0);
    assert NonEmptyBlocks(bs, read) == prev + (if |ms| > 0 then [n] else []);
    assert Emit(bs, build, read) == before + (if |ms| > 0 then [gs[n]] else []);
  }

  /** What the prefix emitted matches the picks of the whole block list. */
  lemma PrefixPicks(bs: seq<Block>, build: SectionBuilder, read: string -> Option<Fields>, gs: seq<Conversation>,
                    prev: seq<nat>, before: seq<Conversation>)
    requires |bs| > 0 && EmitMatchesBlocks(bs[..|bs| - 1], build, read)
    requires prev == NonEmptyBlocks(bs[..|bs| - 1], read) && before == Emit(bs[..|bs| - 1], build, read)
    requires |gs| == |bs| && forall i :: 0 <= i < |bs| ==> gs[i] == build(bs[i].section, BlockMessages(bs, i, read))
    ensures |before| == |prev|
    ensures forall k :: 0 <= k < |prev| ==> prev[k] < |bs| - 1 && before[k] == gs[prev[k]]
  {
    var n := |bs| - 1;
    BlockMessagesPrefix(bs, n, read);
    forall k | 0 <= k < |prev|
      ensures bs[..n][prev[k]] == bs[prev[k]]
    {
    }
  }

  /** Values picked at positions `ps` below `n`, extended by the pick at `n`. */
  lemma PicksSnoc<T>(ps: seq<nat>, vs: seq<T>, gs: seq<T>, n: nat, add: bool)
    requires n < |gs| && |vs| == |ps|
    requires forall k :: 0 <= k < |ps| ==> ps[k] < n && vs[k] == gs[ps[k]]
    ensures var ps' := ps + (if add then [n] else []);
      var vs' := vs + (if add then [gs[n]] else []);
      |vs'| == |ps'| && forall k :: 0 <= k < |ps'| ==> ps'[k] < |gs| && vs'[k] == gs[ps'[k]]
  {
  }

  /**
   * `messageIndex` runs across the whole file, so no two messages of the
   * emitted conversations share an id.
   */
  lemma {:induction false} EmitIdsUnique(bs: seq<Block>, build: SectionBuilder, read: string -> Option<Fields>)
    requires KeepsMessages(build)
    ensures IdsUnique(AllMessages(Emit(bs, build, read)))
    ensures forall m :: m in AllMessages(Emit(bs, build, read)) ==> m.id.ordinal < BlockCount(bs, read)
    decreases |bs|
  {
    if |bs| > 0 {
      var n := |bs| - 1;
      EmitIdsUnique(bs[..n], build, read);
      var before := AllMessages(Emit(bs[..n], build, read));
      var ms := BlockMessages(bs, n, read);
      var lo := BlockCount(bs[..n], read);
      assert BlockCount(bs, read) == lo + |ms|;
      var extra := if |ms| > 0 then build(bs[n].section, ms).messages else [];
      assert IdsUnique(ms) by {
        forall i, j | 0 <= i < j < |ms|
          ensures ms[i].id != ms[j].id
        {
          assert ms[i].id.ordinal == lo + i && ms[j].id.ordinal == lo + j;
        }
      }
      assert multiset(extra) <= multiset(ms);
      if |ms| > 0 {
        IdsUniquePermutation(ms, extra);
      }
      forall m | m in extra
        ensures lo <= m.id.ordinal < lo + |ms|
      {
        assert m in multiset(ms);
        var k :| 0 <= k < |ms| && ms[k] == m;
      }
      IdsUniqueAppend(before, extra, lo);
      EmitSnoc(bs, build, read);
    }
  }

  /** The messages of the reference grow by those of the last block, if it has any. */
  lemma EmitSnoc(bs: seq<Block>, build: SectionBuilder, read: string -> Option<Fields>)
    requires |bs| > 0
    ensures var n := |bs| - 1;
      var ms := BlockMessages(bs, n, read);
      AllMessages(Emit(bs, build, read)) == AllMessages(Emit(bs[..n], build, read)) + (if |ms| > 0 then build(bs[n].section, ms).messages else [])
  {
    var n := |bs| - 1;
    var ms := BlockMessages(bs, n, read);
    var prev := Emit(bs[..n], build, read);
    if |ms| > 0 {
      AllMessagesSnoc(prev, build(bs[n].section, ms));
    } else {
      assert Emit(bs, build, read) == prev;
    }
  }

  /** Every message of `ms` has property `ok`. */
  predicate AllOk(ms: seq<Message>, ok: Message -> bool) {
    forall m :: m in ms ==> ok(m)
  }

  /** A property of every block's messages holds for every emitted message. */
  lemma {:induction false} EmitMessagesFromBlocks(bs: seq<Block>, build: SectionBuilder, read: string -> Option<Fields>, ok: Message -> bool)
    requires KeepsMessages(build)
    requires forall i :: 0 <= i < |bs| ==> AllOk(BlockMessages(bs, i, read), ok)
    ensures AllOk(AllMessages(Emit(bs, build, read)), ok)
    decreases |bs|
  {
    if |bs| > 0 {
      var n := |bs| - 1;
      PrefixBlocksOk(bs, n, read, ok);
      EmitMessagesFromBlocks(bs[..n], build, read, ok);
      EmitMessagesStep(bs, build, read, ok);
    }
  }

  /** The blocks of a prefix keep the property of the blocks of the whole list. */
  lemma PrefixBlocksOk(bs: seq<Block>, n: nat, read: string -> Option<Fields>, ok: Message -> bool)
    requires n <= |bs|
    requires forall i :: 0 <= i < |bs| ==> AllOk(BlockMessages(bs, i, read), ok)
    ensures forall i :: 0 <= i < n ==> AllOk(BlockMessages(bs[..n], i, read), ok)
  {
    BlockMessagesPrefix(bs, n, read);
  }

  lemma EmitMessagesStep(bs: seq<Block>, build: SectionBuilder, read: string -> Option<Fields>, ok: Message -> bool)
    requires KeepsMessages(build) && |bs| > 0
    requires AllOk(BlockMessages(bs, |bs| - 1, read), ok)
    requires AllOk(AllMessages(Emit(bs[..|bs| - 1], build, read)), ok)
    ensures AllOk(AllMessages(Emit(bs, build, read)), ok)
  {
    var n := |bs| - 1;
    var ms := BlockMessages(bs, n, read);
    var extra := if |ms| > 0 then build(bs[n].section, ms).messages else [];
    BuiltMessagesOk(bs[n].section, ms, build, ok);
    EmitSnoc(bs, build, read);
    AllOkAppend(AllMessages(Emit(bs[..n], build, read)), extra, ok);
  }


  /** A builder that keeps its messages keeps a property they all have. */
  lemma BuiltMessagesOk(sec: Section, ms: seq<Message>, build: SectionBuilder, ok: Message -> bool)
    requires KeepsMessages(build) && AllOk(ms, ok)
    ensures AllOk(build(sec, ms).messages, ok)
  {
    var built := build(sec, ms).messages;
    assert multiset(built) == multiset(ms);
    forall m | m in built
      ensures ok(m)
    {
      assert m in multiset(ms);
    }
  }

  lemma AllOkAppend(a: seq<Message>, b: seq<Message>, ok: Message -> bool)
    requires AllOk(a, ok) && AllOk(b, ok)
    ensures AllOk(a + b, ok)
  {
  }

  /** Lines without a section line make no block. */
  lemma {:induction false} PreambleHasNoBlocks(pre: seq<string>)
    requires forall k :: 0 <= k < |pre| ==> MatchSection(Trim(pre[k])).None?
    ensures Blocks(pre) == []
    decreases |pre|
  {
    if |pre| > 0 {
      PreambleHasNoBlocks(pre[..|pre| - 1]);
    }
  }

  /** Lines before the first section line do not change the blocks. */
  lemma {:induction false} BlocksIgnorePreamble(pre: seq<string>, rest: seq<string>)
    requires forall k :: 0 <= k < |pre| ==> MatchSection(Trim(pre[k])).None?
    ensures Blocks(pre + rest) == Blocks(rest)
    decreases |rest|
  {
    if |rest| == 0 {
      assert pre + rest == pre;
      PreambleHasNoBlocks(pre);
    } else {
      var n := |rest| - 1;
      assert (pre + rest)[..|pre + rest| - 1] == pre + rest[..n];
      assert (pre + rest)[|pre + rest| - 1] == rest[n];
      BlocksIgnorePreamble(pre, rest[..n]);
    }
  }

  /** A line reader whose fields are always usable. */
  ghost predicate ReadsOk(read: string -> Option<Fields>) {
    forall x :: read(x).Some? ==> FieldsOk(read(x).value)
  }

  lemma LineFieldsReadsOk()
    ensures ReadsOk(LineFields)
  {
    forall x | LineFields(x).Some?
      ensures FieldsOk(LineFields(x).value)
    {
    }
  }

  /** Messages of the multi format satisfy what the line reader promises. */
  lemma {:induction false} BodyMessagesParsed(body: seq<string>, tag: string, start: nat, read: string -> Option<Fields>)
    requires ReadsOk(read)
    ensures forall k :: 0 <= k < |BodyMessages(body, tag, start, read)| ==> ParsedMessage(BodyMessages(body, tag, start, read)[k])
    decreases |body|
  {
    if |body| > 0 {
      var p := body[..|body| - 1];
      BodyMessagesParsed(p, tag, start, read);
      var ms := BodyMessages(p, tag, start, read);
      var extra := BodyMessagesSnoc(body, tag, start, read);
      ParsedAppend(ms, extra);
    }
  }

  /** What the last line of a body adds to its messages. */
  lemma BodyMessagesSnoc(body: seq<string>, tag: string, start: nat, read: string -> Option<Fields>) returns (extra: seq<Message>)
    requires |body| > 0
    ensures var ms := BodyMessages(body[..|body| - 1], tag, start, read);
      var o := read(Trim(body[|body| - 1]));
      && BodyMessages(body, tag, start, read) == ms + extra
      && extra == if o.Some? then [MessageOf(o.value, MessageId(tag, start + |ms|))] else []
  {
    var ms := BodyMessages(body[..|body| - 1], tag, start, read);
    var o := read(Trim(body[|body| - 1]));
    extra := if o.Some? then [MessageOf(o.value, MessageId(tag, start + |ms|))] else [];
  }

  lemma ParsedAppend(a: seq<Message>, b: seq<Message>)
    requires forall k :: 0 <= k < |a| ==> ParsedMessage(a[k])
    requires forall k :: 0 <= k < |b| ==> ParsedMessage(b[k])
    ensures forall k :: 0 <= k < |a + b| ==> ParsedMessage((a + b)[k])
  {
  }

  // the multi format, stated on its input

  /**
   * `parseMultiFormat` emits one conversation per section with at least one
   * message, in section order: named after the section, with `customName`
   * set to the section name and the platform mapped from the section token.
   */
  lemma ParseMultiFormatSections(content: string, fileName: string, now: Timestamp)
    ensures var cs := ParseMultiFormat(content, fileName, now);
      var bs := Blocks(MultiLines(content));
      var ne := NonEmptyBlocks(bs, LineFields);
      |cs| == |ne| &&
      forall k :: 0 <= k < |cs| ==>
        var sec := bs[ne[k]].section;
        WellFormed(cs[k]) && |cs[k].messages| > 0
        && cs[k].id == sec.name && cs[k].customName == Some(sec.name) && cs[k].platform == MapPlatformName(sec.token)
        && multiset(cs[k].messages) == multiset(BlockMessages(bs, ne[k], LineFields))
  {
    ParseMultiFormatIsEmit(content, fileName, now);
    var bs := Blocks(MultiLines(content));
    var ne := NonEmptyBlocks(bs, LineFields);
    EmitOnePerNonEmptyBlock(bs, BuildSection(now), LineFields);
    forall k | 0 <= k < |ne|
      ensures WellFormed(SectionConversation(bs[ne[k]].section, BlockMessages(bs, ne[k], LineFields), now))
    {
      SectionConversationWellFormed(bs[ne[k]].section, BlockMessages(bs, ne[k], LineFields), now);
    }
  }

  /** Message ids are unique across the whole multi-section file. */
  lemma ParseMultiFormatIdsUnique(content: string, fileName: string, now: Timestamp)
    ensures IdsUnique(AllMessages(ParseMultiFormat(content, fileName, now)))
  {
    ParseMultiFormatIsEmit(content, fileName, now);
    assert KeepsMessages(BuildSection(now));
    EmitIdsUnique(Blocks(MultiLines(content)), BuildSection(now), LineFields);
  }

  /**
   * Every message of the multi format is a parsed text message whose id tag
   * is its section's token, which holds no dash; so the rendered ids are
   * unique as well.
   */
  lemma ParseMultiFormatMessages(content: string, fileName: string, now: Timestamp)
    ensures forall m :: m in AllMessages(ParseMultiFormat(content, fileName, now)) ==> ParsedMessage(m) && '-' !in m.id.tag
    ensures RenderedUnique(AllMessages(ParseMultiFormat(content, fileName, now)))
  {
    ParseMultiFormatIsEmit(content, fileName, now);
    ParseMultiFormatIdsUnique(content, fileName, now);
    var bs := Blocks(MultiLines(content));
    assert KeepsMessages(BuildSection(now));
    var ok := (m: Message) => ParsedMessage(m) && '-' !in m.id.tag;
    LineFieldsReadsOk();
    forall i | 0 <= i < |bs|
      ensures AllOk(BlockMessages(bs, i, LineFields), ok)
    {
      var block := BlockMessages(bs, i, LineFields);
      BodyMessagesParsed(bs[i].body, bs[i].section.token, BlockCount(bs[..i], LineFields), LineFields);
      forall m | m in block
        ensures ok(m)
      {
        var p :| 0 <= p < |block| && block[p] == m;
        assert block[p].id.tag == bs[i].section.token;
      }
    }
    EmitMessagesFromBlocks(bs, BuildSection(now), LineFields, ok);
    var ms := AllMessages(ParseMultiFormat(content, fileName, now));
    assert AllOk(ms, ok);
    forall m | m in ms
      ensures ParsedMessage(m) && '-' !in m.id.tag
    {
      assert ok(m);
    }
    forall k | 0 <= k < |ms|
      ensures '-' !in ms[k].id.tag
    {
      assert ms[k] in ms;
    }
    RenderedIdsUnique(ms);
  }

  /** Lines before the first section line are ignored. */
  lemma MultiIgnoresPreamble(pre: seq<string>, rest: seq<string>, now: Timestamp)
    requires forall k :: 0 <= k < |pre| ==> MatchSection(Trim(pre[k])).None?
    ensures Flush(RunMulti(pre + rest, BuildSection(now), LineFields), BuildSection(now)) == Flush(RunMulti(rest, BuildSection(now), LineFields), BuildSection(now))
  {
    NoMessageOnBlankOrMarker("");
    NoMessageOnBlankOrMarker("[Multi]");
    RunMultiTracks(pre + rest, BuildSection(now), LineFields);
    RunMultiTracks(rest, BuildSection(now), LineFields);
    BlocksIgnorePreamble(pre, rest);
    FlushEmits(RunMulti(pre + rest, BuildSection(now), LineFields), Blocks(pre + rest), BuildSection(now), LineFields);
    FlushEmits(RunMulti(rest, BuildSection(now), LineFields), Blocks(rest), BuildSection(now), LineFields);
  }
}
