/**
 * The records the parser produces and everything downstream reads: messages,
 * conversations and their ids.
 */
module Model {
  import opened Wrappers
  import opened Text
  import opened Seqs
  import opened DateTime

  /** The four sources a conversation can come from. */
  datatype Platform = WhatsApp | Instagram | Discord | Sms

  /** The lower-case platform name used in message ids and in the `platform` field. */
  function PlatformName(p: Platform): (r: string)
    ensures |r| > 0 && '-' !in r
  {
    match p
    case WhatsApp => "whatsapp"
    case Instagram => "instagram"
    case Discord => "discord"
    case Sms => "sms"
  }

  /** The kind of a message; the parser only ever produces `TextKind`. */
  datatype MessageKind = TextKind | MediaKind | SystemKind

  /**
   * A message id `${tag}-${ordinal}`: the tag is a platform name (single
   * format) or a section's platform token (multi format).
   */
  datatype MessageId = MessageId(tag: string, ordinal: nat)

  /** The id string as the source builds it with a template literal. */
  function RenderId(id: MessageId): (r: string)
    ensures |r| > |id.tag|
  {
    id.tag + "-" + NatToString(id.ordinal)
  }

  /** Rendering is injective on tags without a dash, which covers every tag the parser uses. */
  lemma RenderIdInjective(a: MessageId, b: MessageId)
    requires '-' !in a.tag && '-' !in b.tag
    requires RenderId(a) == RenderId(b)
    ensures a == b
  {
    var ra := "-" + NatToString(a.ordinal);
    var rb := "-" + NatToString(b.ordinal);
    assert RenderId(a) == a.tag + ra;
    assert RenderId(b) == b.tag + rb;
    IndexOfAfterFreePrefix(a.tag, '-', ra);
    IndexOfAfterFreePrefix(b.tag, '-', rb);
    assert a.tag == RenderId(a)[..|a.tag|];
    assert b.tag == RenderId(b)[..|b.tag|];
    assert ra == RenderId(a)[|a.tag|..];
    assert rb == RenderId(b)[|b.tag|..];
    assert NatToString(a.ordinal) == ra[1..];
    assert NatToString(b.ordinal) == rb[1..];
    NatToStringInjective(a.ordinal, b.ordinal);
  }

  /** One chat message. */
  datatype Message = Message(id: MessageId, timestamp: Timestamp, sender: string, content: string, kind: MessageKind)

  /**
   * A conversation. `startDate`/`endDate` are the first and last timestamps;
   * `customName` is set by the multi-section format and by renaming.
   */
  datatype Conversation = Conversation(
    id: string,
    name: string,
    platform: Platform,
    messages: seq<Message>,
    messageCount: int,
    wordCount: int,
    participants: seq<string>,
    startDate: Timestamp,
    endDate: Timestamp,
    customName: Option<string>)

  /** `conversations.flatMap(c => c.messages)`. */
  function AllMessages(cs: seq<Conversation>): (r: seq<Message>)
    decreases |cs|
  {
    if |cs| == 0 then [] else AllMessages(cs[..|cs| - 1]) + cs[|cs| - 1].messages
  }

  lemma AllMessagesOfOne(c: Conversation)
    ensures AllMessages([c]) == c.messages
  {
    assert [c][..0] == [];
  }

  lemma AllMessagesSnoc(cs: seq<Conversation>, c: Conversation)
    ensures AllMessages(cs + [c]) == AllMessages(cs) + c.messages
  {
    assert (cs + [c])[..|cs|] == cs;
  }

  /** No two messages share an id. */
  predicate IdsUnique(ms: seq<Message>) {
    forall i, j :: 0 <= i < j < |ms| ==> ms[i].id != ms[j].id
  }

  /** Reordering the messages keeps their ids unique. */
  lemma IdsUniquePermutation(a: seq<Message>, b: seq<Message>)
    requires IdsUnique(a) && multiset(a) == multiset(b)
    ensures IdsUnique(b)
  {
    assert NoDup(a) by {
      forall i, j | 0 <= i < j < |a|
        ensures a[i] != a[j]
      {
        assert a[i].id != a[j].id;
      }
    }
    NoDupPermutation(a, b);
    forall i, j | 0 <= i < j < |b|
      ensures b[i].id != b[j].id
    {
      assert b[i] in multiset(a) && b[j] in multiset(a);
      var p :| 0 <= p < |a| && a[p] == b[i];
      var q :| 0 <= q < |a| && a[q] == b[j];
      assert b[i] != b[j];
      if p < q {
        assert a[p].id != a[q].id;
      } else {
        assert a[q].id != a[p].id;
      }
    }
  }

  /** Two id-unique lists whose ordinals lie on either side of `lo` can be joined. */
  lemma IdsUniqueAppend(a: seq<Message>, b: seq<Message>, lo: int)
    requires IdsUnique(a) && IdsUnique(b)
    requires forall m :: m in a ==> m.id.ordinal < lo
    requires forall m :: m in b ==> m.id.ordinal >= lo
    ensures IdsUnique(a + b)
  {
    var all := a + b;
    forall i, j | 0 <= i < j < |all|
      ensures all[i].id != all[j].id
    {
      if j < |a| {
        assert all[i] == a[i] && all[j] == a[j];
      } else if i >= |a| {
        assert all[i] == b[i - |a|] && all[j] == b[j - |a|];
      } else {
        assert all[i] == a[i] && all[i] in a;
        assert all[j] == b[j - |a|] && all[j] in b;
      }
    }
  }

  /** No two messages share a rendered id string. */
  predicate RenderedUnique(ms: seq<Message>) {
    forall i, j :: 0 <= i < j < |ms| ==> RenderId(ms[i].id) != RenderId(ms[j].id)
  }

  /** Distinct ids with dash-free tags render to distinct strings. */
  lemma RenderedIdsUnique(ms: seq<Message>)
    requires IdsUnique(ms)
    requires forall k :: 0 <= k < |ms| ==> '-' !in ms[k].id.tag
    ensures RenderedUnique(ms)
  {
    forall i, j | 0 <= i < j < |ms|
      ensures RenderId(ms[i].id) != RenderId(ms[j].id)
    {
      if RenderId(ms[i].id) == RenderId(ms[j].id) {
        RenderIdInjective(ms[i].id, ms[j].id);
      }
    }
  }

  /** The sort key of a message: its time. */
  function TimeKey(m: Message): int {
    m.timestamp.minutes
  }

  /** `content.split(/\s+/).length`: the word count the parser and the statistics use. */
  function WordsOf(content: string): (n: nat)
    ensures n >= 1
  {
    |SplitWs(content)|
  }

  /** For trimmed, non-empty text (every parsed content) the count is the number of tokens. */
  lemma WordsOfTrimmed(content: string)
    requires IsTrimmed(content) && |content| > 0
    ensures WordsOf(content) == Runs(content)
  {
    SplitWsCountsTokens(content);
  }

  /** The senders of a list of messages, in order. */
  function Senders(ms: seq<Message>): (r: seq<string>)
    ensures |r| == |ms|
    ensures forall i :: 0 <= i < |ms| ==> r[i] == ms[i].sender
  {
    seq(|ms|, i requires 0 <= i < |ms| => ms[i].sender)
  }

  /** Whether some message of `ms` was sent by `s`. */
  predicate SentBy(ms: seq<Message>, s: string) {
    exists m :: m in ms && m.sender == s
  }

  lemma SendersIff(ms: seq<Message>, s: string)
    ensures s in Senders(ms) <==> SentBy(ms, s)
  {
    if s in Senders(ms) {
      var i :| 0 <= i < |ms| && Senders(ms)[i] == s;
      assert ms[i] in ms;
    }
    if SentBy(ms, s) {
      var m :| m in ms && m.sender == s;
      var i :| 0 <= i < |ms| && ms[i] == m;
      assert Senders(ms)[i] == s;
    }
  }

  /** A permutation of the messages has the same senders (as a multiset). */
  lemma SendersPermutation(a: seq<Message>, b: seq<Message>)
    requires multiset(a) == multiset(b)
    ensures forall s :: s in Senders(a) <==> s in Senders(b)
  {
    forall s
      ensures s in Senders(a) <==> s in Senders(b)
    {
      SendersIff(a, s);
      SendersIff(b, s);
      if SentBy(a, s) {
        var m :| m in a && m.sender == s;
        assert m in multiset(b);
      }
      if SentBy(b, s) {
        var m :| m in b && m.sender == s;
        assert m in multiset(a);
      }
    }
  }
}
