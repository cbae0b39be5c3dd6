/**
 * `createConversation`: the record built around a list of parsed messages —
 * the messages sorted by time, their count and word count, the distinct
 * senders, the first and last timestamps, and a display name taken from the
 * file name.
 */
module Builder {
  import opened Wrappers
  import opened Text
  import opened Seqs
  import opened DateTime
  import opened Model

  // ---------------------------------------------------------------------------
  // the display name

  /** `s.lastIndexOf(c)`: the last position of `c`, or -1. */
  function LastIndexOf(s: string, c: char): (r: int)
    ensures -1 <= r < |s|
    ensures r >= 0 ==> s[r] == c
    ensures forall j :: r < j < |s| ==> s[j] != c
    decreases |s|
  {
    if |s| == 0 then -1
    else if s[|s| - 1] == c then |s| - 1
    else LastIndexOf(s[..|s| - 1], c)
  }

  /** What `[^/.]+$` accepts: a non-empty run without dots or slashes. */
  predicate IsExtension(e: string) {
    |e| > 0 && '.' !in e && '/' !in e
  }

  /**
   * `fileName.replace(/\.[^/.]+$/, '')`. Only the last dot can start the
   * match, since the rest of the name may not hold another dot.
   */
  function StripExtension(f: string): (r: string)
    ensures |r| <= |f| && r == f[..|r|]
    ensures r != f ==> |r| < |f| && f[|r|] == '.' && IsExtension(f[|r| + 1..])
  {
    var p := LastIndexOf(f, '.');
    if 0 <= p < |f| - 1 && '/' !in f[p + 1..] then
      f[..p]
    else f
  }

  /** A name with an extension loses exactly the extension and its dot. */
  lemma StripExtensionOf(base: string, ext: string)
    requires IsExtension(ext)
    ensures StripExtension(base + "." + ext) == base
  {
    var f := base + "." + ext;
    var p := LastIndexOf(f, '.');
    assert f[|base|] == '.';
    forall j | |base| < j < |f|
      ensures f[j] != '.'
    {
      assert f[j] == ext[j - |base| - 1];
    }
    assert p == |base|;
    assert f[p + 1..] == ext;
    assert f[..p] == base;
  }

  /** A name without a dot is kept whole. */
  lemma StripExtensionNoDot(f: string)
    requires '.' !in f
    ensures StripExtension(f) == f
  {
  }

  // ---------------------------------------------------------------------------
  // the conversation record

  /** The words one message contributes to `wordCount`. */
  function ContentWords(m: Message): int {
    WordsOf(m.content)
  }

  /**
   * The invariants of a built conversation: the count matches, the messages
   * are in time order, the participants are exactly the distinct senders,
   * the word count is the sum over the messages, and the dates bracket them.
   */
  ghost predicate WellFormed(c: Conversation) {
    && c.messageCount == |c.messages|
    && SortedByKey(c.messages, TimeKey)
    && NoDup(c.participants)
    && (forall s :: s in c.participants <==> s in Senders(c.messages))
    && c.wordCount == SumOf(c.messages, ContentWords)
    && (|c.messages| > 0 ==>
          c.startDate == c.messages[0].timestamp && c.endDate == c.messages[|c.messages| - 1].timestamp)
  }

  /**
   * `createConversation`. With no messages the dates are `new Date()`,
   * passed in as `now`. Participants and the word count are taken from the
   * input order, before the (stable) sort.
   */
  function CreateConversation(messages: seq<Message>, fileName: string, platform: Platform, now: Timestamp): (c: Conversation)
    ensures c.id == fileName && c.name == StripExtension(fileName)
    ensures c.platform == platform && c.customName == None
    ensures multiset(c.messages) == multiset(messages)
    ensures SortedByKey(c.messages, TimeKey)
    ensures c.messageCount == |messages| == |c.messages|
    ensures c.participants == Distinct(Senders(messages))
    ensures c.wordCount == SumOf(c.messages, ContentWords)
    ensures |messages| == 0 ==> c.wordCount == 0 && c.participants == [] && c.startDate == now && c.endDate == now
    ensures |messages| > 0 ==>
      c.startDate == c.messages[0].timestamp && c.endDate == c.messages[|messages| - 1].timestamp
    ensures forall m :: m in c.messages ==> c.startDate.minutes <= m.timestamp.minutes <= c.endDate.minutes
  {
    if |messages| == 0 then
      Conversation(fileName, StripExtension(fileName), platform, [], 0, 0, [], now, now, None)
    else
      var participants := Distinct(Senders(messages));
      var wordCount := SumOf(messages, ContentWords);
      var sorted := SortByKey(messages, TimeKey);
      SumOfPermutation(messages, sorted, ContentWords);
      assert forall m :: m in sorted ==> sorted[0].timestamp.minutes <= m.timestamp.minutes <= sorted[|sorted| - 1].timestamp.minutes by {
        forall m | m in sorted
          ensures sorted[0].timestamp.minutes <= m.timestamp.minutes <= sorted[|sorted| - 1].timestamp.minutes
        {
          var i :| 0 <= i < |sorted| && sorted[i] == m;
          assert TimeKey(sorted[0]) <= TimeKey(sorted[i]) <= TimeKey(sorted[|sorted| - 1]);
        }
      }
      Conversation(fileName, StripExtension(fileName), platform, sorted, |sorted|, wordCount,
                   participants, sorted[0].timestamp, sorted[|sorted| - 1].timestamp, None)
  }

  /** Every built conversation satisfies the invariants. */
  lemma CreateConversationWellFormed(messages: seq<Message>, fileName: string, platform: Platform, now: Timestamp)
    ensures WellFormed(CreateConversation(messages, fileName, platform, now))
  {
    var c := CreateConversation(messages, fileName, platform, now);
    SendersPermutation(messages, c.messages);
  }

  /** The participants are listed in the order in which they first speak in the unsorted input. */
  lemma ParticipantsInFirstAppearanceOrder(messages: seq<Message>, fileName: string, platform: Platform, now: Timestamp)
    ensures var c := CreateConversation(messages, fileName, platform, now);
      forall i, j :: 0 <= i < j < |c.participants| ==>
        FirstIndex(Senders(messages), c.participants[i]) < FirstIndex(Senders(messages), c.participants[j])
  {
    DistinctFirstAppearance(Senders(messages));
  }

  /** Messages with the same timestamp keep their input order. */
  lemma CreateConversationStable(messages: seq<Message>, fileName: string, platform: Platform, now: Timestamp, t: int)
    ensures WithKey(CreateConversation(messages, fileName, platform, now).messages, TimeKey, t) == WithKey(messages, TimeKey, t)
  {
    if |messages| > 0 {
      SortByKeyStable(messages, TimeKey, t);
    }
  }

  /** For parsed contents (trimmed, non-empty) the word count is the total number of tokens. */
  lemma WordCountCountsTokens(ms: seq<Message>)
    requires forall m :: m in ms ==> IsTrimmed(m.content) && |m.content| > 0
    ensures SumOf(ms, ContentWords) == SumOf(ms, (m: Message) => Runs(m.content))
    decreases |ms|
  {
    if |ms| > 0 {
      var last := ms[|ms| - 1];
      WordsOfTrimmed(last.content);
      WordCountCountsTokens(ms[..|ms| - 1]);
    }
  }
}
