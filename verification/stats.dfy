/**
 * `calculateStats`: the per-sender message and word counts of one
 * conversation, next to the totals the conversation record already holds.
 */
module Stats {
  import opened Seqs
  import opened Model
  import opened Builder
  import opened Buckets

  /** The record `calculateStats` returns. */
  datatype ConversationStats = ConversationStats(
    totalMessages: int,
    totalWords: int,
    participants: seq<string>,
    messagesByParticipant: map<string, int>,
    wordsByParticipant: map<string, int>)

  /** The key `calculateStats` files a message under. */
  function SenderOf(m: Message): string {
    m.sender
  }

  lemma SenderKeys(ms: seq<Message>)
    ensures KeysAt(ms, SenderOf) == Senders(ms)
    ensures forall s :: HasKey(ms, SenderOf, s) <==> SentBy(ms, s)
  {
  }

  /**
   * `calculateStats`: the totals are read from the record; the per-sender
   * counts are recomputed from the messages.
   */
  function CalculateStats(c: Conversation): (st: ConversationStats)
    ensures st.totalMessages == c.messageCount && st.totalWords == c.wordCount && st.participants == c.participants
    ensures forall s :: s in st.messagesByParticipant <==> SentBy(c.messages, s)
    ensures forall s :: s in st.wordsByParticipant <==> SentBy(c.messages, s)
    ensures forall s :: s in st.messagesByParticipant ==>
      st.messagesByParticipant[s] == KeyTotal(c.messages, SenderOf, s, One) >= 1
    ensures forall s :: s in st.wordsByParticipant ==>
      st.wordsByParticipant[s] == KeyTotal(c.messages, SenderOf, s, ContentWords)
  {
    SenderKeys(c.messages);
    PerKeyCountsPositive(c.messages, SenderOf);
    ConversationStats(c.messageCount, c.wordCount, c.participants,
                      PerKey(c.messages, SenderOf, One), PerKey(c.messages, SenderOf, ContentWords))
  }

  /**
   * For a built conversation the per-participant counts add up to the
   * record's totals: every message and every word is attributed to exactly
   * one participant.
   */
  lemma StatsConserve(c: Conversation)
    requires WellFormed(c)
    ensures forall s :: s in c.participants ==> s in CalculateStats(c).messagesByParticipant && s in CalculateStats(c).wordsByParticipant
    ensures SumOver(CalculateStats(c).messagesByParticipant, c.participants) == c.messageCount
    ensures SumOver(CalculateStats(c).wordsByParticipant, c.participants) == c.wordCount
  {
    SenderKeys(c.messages);
    PerKeyConserves(c.messages, SenderOf, One, c.participants);
    SumOfOne(c.messages);
    PerKeyConserves(c.messages, SenderOf, ContentWords, c.participants);
  }
}
