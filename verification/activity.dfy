/**
 * `getParticipantActivity`: per sender, over all conversations, the message
 * and word counts, the rounded average of words per message, an emotional
 * score (positive minus negative keyword hits) and a most active hour.
 */
module Activity {
  import opened Text
  import opened Seqs
  import opened Model
  import opened Lexicon
  import opened Buckets
  import opened Stats
  import opened Hourly
  import opened Timeline
  import opened Emotions
  import opened Binary64

  /** One sender's entry. */
  datatype ParticipantStats = ParticipantStats(
    messages: int,
    words: int,
    avgWordsPerMessage: int,
    emotionalScore: int,
    mostActiveHour: int)

  /** The entry a sender starts with. */
  const Fresh := ParticipantStats(0, 0, 0, 0, 0)

  /**
   * Positive keywords contained minus negative keywords contained, the
   * keywords compared as written against the lower-cased content.
   */
  function EmotionalPoints(m: Message): int {
    Hits(ToLower(m.content), PositiveKeywords) - Hits(ToLower(m.content), NegativeKeywords)
  }

  /** Because the keyword tables are lower case, a message's points are its emotion-analysis balance. */
  lemma EmotionalPointsBalance(m: Message)
    ensures EmotionalPoints(m) == PositiveHits(m) - NegativeHits(m)
  {
    KeywordTablesAreLowerCase();
  }

  // ---------------------------------------------------------------------------
  // most active hour

  /** `Math.max(...hs)` of a non-empty array. */
  function MaxOf(hs: seq<int>): (v: int)
    requires |hs| > 0
    ensures v in hs
    ensures forall i :: 0 <= i < |hs| ==> hs[i] <= v
    decreases |hs|
  {
    if |hs| == 1 then hs[0]
    else
      var p := MaxOf(hs[..|hs| - 1]);
      assert forall i :: 0 <= i < |hs| - 1 ==> hs[i] == hs[..|hs| - 1][i];
      if hs[|hs| - 1] > p then hs[|hs| - 1] else p
  }

  /** `hs.indexOf(v)`: the first position holding `v`, or -1. */
  function IndexOfValue(hs: seq<int>, v: int): (i: int)
    ensures -1 <= i < |hs|
    ensures i == -1 <==> v !in hs
    ensures i >= 0 ==> hs[i] == v && v !in hs[..i]
    decreases |hs|
  {
    if |hs| == 0 then -1
    else if hs[0] == v then 0
    else
      var k := IndexOfValue(hs[1..], v);
      assert hs == [hs[0]] + hs[1..];
      if k < 0 then -1
      else
        assert hs[..k + 1] == [hs[0]] + hs[1..][..k];
        k + 1
  }

  /**
   * `hs.indexOf(Math.max(...hs))`: the first position of the largest count,
   * or -1 for an empty array (the maximum of nothing is `-Infinity`, which
   * no array holds).
   */
  function MostActive(hs: seq<int>): (h: int)
    ensures |hs| == 0 ==> h == -1
    ensures |hs| > 0 ==>
      && 0 <= h < |hs|
      && (forall j :: 0 <= j < |hs| ==> hs[j] <= hs[h])
      && (forall j :: 0 <= j < h ==> hs[j] < hs[h])
  {
    if |hs| == 0 then -1
    else
      var v := MaxOf(hs);
      var h := IndexOfValue(hs, v);
      assert forall j :: 0 <= j < h ==> hs[j] == hs[..h][j];
      h
  }

  /** The messages `m => m.sender == s`. */
  function SenderIs(s: string): Message -> bool {
    (m: Message) => m.sender == s
  }

  /** `hourlyActivity.get(sender) || []`: the sender's hours in this conversation, if it has any. */
  function HoursIn(ms: seq<Message>, s: string): seq<int> {
    if SentBy(ms, s) then HourHistogram(ms, SenderIs(s)) else []
  }

  // ---------------------------------------------------------------------------
  // the fold

  /** One message: create the sender's entry if needed, then add the message, its words and its points. */
  function Record(st: map<string, ParticipantStats>, m: Message): map<string, ParticipantStats> {
    var p := if m.sender in st then st[m.sender] else Fresh;
    st[m.sender := p.(messages := p.messages + 1, words := p.words + SpaceWords(m),
                      emotionalScore := p.emotionalScore + EmotionalPoints(m))]
  }

  /** The messages of one conversation, in order. */
  function RecordAll(st: map<string, ParticipantStats>, ms: seq<Message>): map<string, ParticipantStats>
    decreases |ms|
  {
    if |ms| == 0 then st else Record(RecordAll(st, ms[..|ms| - 1]), ms[|ms| - 1])
  }

  /**
   * The pass after each conversation, over every sender seen so far: the
   * average is recomputed from the running totals, the most active hour from
   * this conversation's hours alone.
   */
  function Settle(st: map<string, ParticipantStats>, ms: seq<Message>): map<string, ParticipantStats> {
    map s | s in st :: st[s].(avgWordsPerMessage := Average(st[s]), mostActiveHour := MostActive(HoursIn(ms, s)))
  }

  /**
   * `Math.round(words / messages)`: the quotient rounded to a double, then to
   * an integer; every entry holds a message, so the division is defined.
   */
  function Average(p: ParticipantStats): int {
    if p.messages > 0 then MathRound(Round(p.words, p.messages)) else 0
  }

  /**
   * Below 2^52 words the double quotient does not move the result off a
   * nearest integer: the average is within a half of `words / messages`,
   * and off the exact halves it is the exactly rounded quotient.
   */
  lemma AverageNear(p: ParticipantStats)
    requires p.messages > 0 && 0 <= p.words < Two52
    ensures -p.messages <= 2 * p.messages * Average(p) - 2 * p.words <= p.messages
    ensures (2 * p.words + p.messages) % (2 * p.messages) != 0 ==> Average(p) == RoundDiv(p.words, p.messages)
  {
    var f := Round(p.words, p.messages);
    RoundError(p.words, p.messages);
    QuotientClose(Num(f) * p.messages - p.words * Den(f), p.words, Den(f));
    MathRoundNear(f, p.words, p.messages);
    var m := Average(p);
    if (2 * p.words + p.messages) % (2 * p.messages) != 0 {
      OffTie(p.words, p.messages, m);
      RoundDivUnique(p.words, p.messages, m);
    }
  }

  /** `2^53 |z| <= w D` with `w < 2^52` leaves `2 |z| < D`. */
  lemma QuotientClose(z: int, w: int, den: int)
    requires 0 <= w < Two52 && den > 0
    requires Two53 * Abs(z) <= Abs(w) * den
    ensures 2 * Abs(z) < den
  {
    MulLt(den, 2 * w, Two53);
    if 2 * Abs(z) >= den {
      MulLe(Two53, den, 2 * Abs(z));
    }
  }

  /** `getParticipantActivity(conversations)`, as the source computes it. */
  function ParticipantActivity(cs: seq<Conversation>): map<string, ParticipantStats>
    decreases |cs|
  {
    if |cs| == 0 then map[]
    else
      var c := cs[|cs| - 1];
      Settle(RecordAll(ParticipantActivity(cs[..|cs| - 1]), c.messages), c.messages)
  }

  // ---------------------------------------------------------------------------
  // what the fold computes

  /** The running totals of `st` are those of the messages `ms`, per sender. */
  ghost predicate Summarises(st: map<string, ParticipantStats>, ms: seq<Message>) {
    && (forall s :: s in st <==> SentBy(ms, s))
    && (forall s :: s in st ==>
          && st[s].messages == KeyTotal(ms, SenderOf, s, One)
          && st[s].words == KeyTotal(ms, SenderOf, s, SpaceWords)
          && st[s].emotionalScore == KeyTotal(ms, SenderOf, s, EmotionalPoints))
  }

  lemma {:induction false} KeyTotalAbsent(ms: seq<Message>, s: string, w: Message -> int)
    requires !SentBy(ms, s)
    ensures KeyTotal(ms, SenderOf, s, w) == 0
    decreases |ms|
  {
    if |ms| > 0 {
      var p := ms[..|ms| - 1];
      assert !SentBy(p, s) by {
        assert forall m :: m in p ==> m in ms;
      }
      KeyTotalAbsent(p, s, w);
      assert ms[|ms| - 1] in ms;
    }
  }

  lemma RecordSummarises(st: map<string, ParticipantStats>, ms: seq<Message>, m: Message)
    requires Summarises(st, ms)
    ensures Summarises(Record(st, m), ms + [m])
  {
    var ms' := ms + [m];
    var r := Record(st, m);
    forall s
      ensures s in r <==> SentBy(ms', s)
    {
      SentBySnoc(ms, m, s);
    }
    forall s | s in r
      ensures && r[s].messages == KeyTotal(ms', SenderOf, s, One)
              && r[s].words == KeyTotal(ms', SenderOf, s, SpaceWords)
              && r[s].emotionalScore == KeyTotal(ms', SenderOf, s, EmotionalPoints)
    {
      KeyTotalSnoc(ms, m, s, One);
      KeyTotalSnoc(ms, m, s, SpaceWords);
      KeyTotalSnoc(ms, m, s, EmotionalPoints);
      if s == m.sender && s !in st {
        KeyTotalAbsent(ms, s, One);
        KeyTotalAbsent(ms, s, SpaceWords);
        KeyTotalAbsent(ms, s, EmotionalPoints);
      }
    }
  }

  lemma SentBySnoc(ms: seq<Message>, m: Message, s: string)
    ensures SentBy(ms + [m], s) <==> SentBy(ms, s) || m.sender == s
  {
    assert forall x :: x in ms + [m] <==> x in ms || x == m;
  }

  lemma KeyTotalSnoc(ms: seq<Message>, m: Message, s: string, w: Message -> int)
    ensures KeyTotal(ms + [m], SenderOf, s, w) == KeyTotal(ms, SenderOf, s, w) + (if m.sender == s then w(m) else 0)
  {
    assert (ms + [m])[..|ms|] == ms;
  }

  lemma {:induction false} RecordAllSummarises(st: map<string, ParticipantStats>, ms0: seq<Message>, ms: seq<Message>)
    requires Summarises(st, ms0)
    ensures Summarises(RecordAll(st, ms), ms0 + ms)
    decreases |ms|
  {
    if |ms| == 0 {
      assert ms0 + ms == ms0;
    } else {
      var p := ms[..|ms| - 1];
      RecordAllSummarises(st, ms0, p);
      RecordSummarises(RecordAll(st, p), ms0 + p, ms[|ms| - 1]);
      assert ms0 + p + [ms[|ms| - 1]] == ms0 + ms;
    }
  }

  lemma SettleSummarises(st: map<string, ParticipantStats>, all: seq<Message>, ms: seq<Message>)
    requires Summarises(st, all)
    ensures Summarises(Settle(st, ms), all)
  {
  }

  /** The entries are exactly the senders, each holding its totals over all messages. */
  lemma {:induction false} ActivitySummarises(cs: seq<Conversation>)
    ensures Summarises(ParticipantActivity(cs), AllMessages(cs))
    decreases |cs|
  {
    if |cs| > 0 {
      var p := cs[..|cs| - 1];
      var c := cs[|cs| - 1];
      ActivitySummarises(p);
      RecordAllSummarises(ParticipantActivity(p), AllMessages(p), c.messages);
      SettleSummarises(RecordAll(ParticipantActivity(p), c.messages), AllMessages(cs), c.messages);
    }
  }

  /** After the last conversation every entry's average and hour were recomputed by `Settle`. */
  lemma ActivitySettled(cs: seq<Conversation>, s: string)
    requires |cs| > 0 && s in ParticipantActivity(cs)
    ensures ParticipantActivity(cs)[s].avgWordsPerMessage == Average(ParticipantActivity(cs)[s])
    ensures ParticipantActivity(cs)[s].mostActiveHour == MostActive(HoursIn(cs[|cs| - 1].messages, s))
  {
    var c := cs[|cs| - 1];
    var st := RecordAll(ParticipantActivity(cs[..|cs| - 1]), c.messages);
    assert ParticipantActivity(cs) == Settle(st, c.messages);
    SettleEntry(st, c.messages, s);
  }

  lemma SettleEntry(st: map<string, ParticipantStats>, ms: seq<Message>, s: string)
    requires s in Settle(st, ms)
    ensures Settle(st, ms)[s].avgWordsPerMessage == Average(Settle(st, ms)[s])
    ensures Settle(st, ms)[s].mostActiveHour == MostActive(HoursIn(ms, s))
  {
  }

  /** Every message has at least one space-separated piece. */
  lemma {:induction false} SpaceWordsAtLeastMessages(ms: seq<Message>, s: string)
    ensures KeyTotal(ms, SenderOf, s, SpaceWords) >= KeyTotal(ms, SenderOf, s, One) >= 0
    decreases |ms|
  {
    if |ms| > 0 {
      SpaceWordsAtLeastMessages(ms[..|ms| - 1], s);
    }
  }

  /**
   * `getParticipantActivity`: one entry per sender of any message; its
   * message, word and emotional totals are the sums over that sender's
   * messages; the average is at least 1 and, below 2^52 words, a nearest
   * integer to the word total over the message total; the most active hour is the first
   * busiest hour of the sender in the last conversation, or -1 when the
   * sender has no message there.
   */
  lemma ActivityMeaning(cs: seq<Conversation>, s: string)
    ensures var ms := AllMessages(cs);
      var r := ParticipantActivity(cs);
      && (s in r <==> SentBy(ms, s))
      && (s in r ==>
        && r[s].messages == KeyTotal(ms, SenderOf, s, One) >= 1
        && r[s].words == KeyTotal(ms, SenderOf, s, SpaceWords)
        && r[s].emotionalScore == KeyTotal(ms, SenderOf, s, EmotionalPoints)
        && (r[s].words < Two52 ==>
              -r[s].messages <= 2 * r[s].messages * r[s].avgWordsPerMessage - 2 * r[s].words <= r[s].messages)
        && r[s].avgWordsPerMessage >= 1
        && var last := cs[|cs| - 1].messages;
           (SentBy(last, s) ==>
              var hs := HourHistogram(last, SenderIs(s));
              && 0 <= r[s].mostActiveHour < 24
              && (forall h :: 0 <= h < 24 ==> hs[h] <= hs[r[s].mostActiveHour])
              && (forall h :: 0 <= h < r[s].mostActiveHour ==> hs[h] < hs[r[s].mostActiveHour]))
           && (!SentBy(last, s) ==> r[s].mostActiveHour == -1))
  {
    var ms := AllMessages(cs);
    var r := ParticipantActivity(cs);
    ActivitySummarises(cs);
    if s in r {
      SenderKeys(ms);
      KeyTotalOnePositive(ms, SenderOf, s);
      SpaceWordsAtLeastMessages(ms, s);
      assert |cs| > 0;
      ActivitySettled(cs, s);
      AverageAtLeastOne(r[s].words, r[s].messages);
      if r[s].words < Two52 {
        AverageNear(r[s]);
      }
    }
  }

  /** The rounded average of at least one word per message is at least 1. */
  lemma AverageAtLeastOne(words: int, messages: int)
    requires words >= messages >= 1
    ensures MathRound(Round(words, messages)) >= 1
  {
    RoundAtLeast(words, messages, 1);
    MathRoundAtLeast(Round(words, messages), 1);
  }

  // ---------------------------------------------------------------------------
  // agreement with the other analyses

  /** The emotional scores of an activity map, per sender. */
  function EmotionalScores(r: map<string, ParticipantStats>): (t: map<string, int>)
    ensures forall s :: s in t <==> s in r
    ensures forall s :: s in t ==> t[s] == r[s].emotionalScore
  {
    map s | s in r :: r[s].emotionalScore
  }

  /**
   * Summed over the senders, the emotional scores are the emotion analysis's
   * positive score minus its negative score: both count the same keyword
   * hits, once attributed to a sender and once in total.
   */
  lemma EmotionalScoresAgree(cs: seq<Conversation>, ks: seq<string>)
    requires NoDup(ks) && forall k :: k in ks <==> SentBy(AllMessages(cs), k)
    ensures forall k :: k in ks ==> k in ParticipantActivity(cs)
    ensures SumOver(EmotionalScores(ParticipantActivity(cs)), ks)
      == AnalyzeEmotions(cs).positiveScore - AnalyzeEmotions(cs).negativeScore
  {
    var ms := AllMessages(cs);
    ActivitySummarises(cs);
    ScoresArePerKey(ParticipantActivity(cs), ms);
    SenderPointsTotal(ms, ks);
    EmotionScores(cs);
  }

  /** Summarised emotional scores are the per-sender totals of the points. */
  lemma ScoresArePerKey(r: map<string, ParticipantStats>, ms: seq<Message>)
    requires Summarises(r, ms)
    ensures EmotionalScores(r) == PerKey(ms, SenderOf, EmotionalPoints)
  {
    SenderKeys(ms);
  }

  /** The per-sender point totals add up to the balance of positive over negative hits. */
  lemma SenderPointsTotal(ms: seq<Message>, ks: seq<string>)
    requires NoDup(ks) && forall k :: k in ks <==> SentBy(ms, k)
    ensures forall k :: k in ks ==> k in PerKey(ms, SenderOf, EmotionalPoints)
    ensures SumOver(PerKey(ms, SenderOf, EmotionalPoints), ks) == SumOf(ms, PositiveHits) - SumOf(ms, NegativeHits)
  {
    SenderKeys(ms);
    forall k
      ensures k in ks <==> k in KeysAt(ms, SenderOf)
    {
      SendersIff(ms, k);
    }
    PerKeyConserves(ms, SenderOf, EmotionalPoints, ks);
    forall m | m in ms
      ensures EmotionalPoints(m) == PositiveHits(m) - NegativeHits(m)
    {
      EmotionalPointsBalance(m);
    }
    SumOfDifference(ms, EmotionalPoints, PositiveHits, NegativeHits);
  }

  /** For one conversation, the activity's message counts are `calculateStats`'s per-sender counts. */
  lemma MessageCountsAgree(c: Conversation, s: string)
    ensures s in ParticipantActivity([c]) <==> s in CalculateStats(c).messagesByParticipant
    ensures s in ParticipantActivity([c]) ==>
      ParticipantActivity([c])[s].messages == CalculateStats(c).messagesByParticipant[s]
  {
    AllMessagesOfOne(c);
    ActivitySummarises([c]);
    CountsAgreeWith(ParticipantActivity([c]), CalculateStats(c).messagesByParticipant, c.messages, s);
  }

  /** A summary and a per-sender count table of the same messages agree on every sender. */
  lemma CountsAgreeWith(r: map<string, ParticipantStats>, t: map<string, int>, ms: seq<Message>, s: string)
    requires Summarises(r, ms)
    requires forall x :: x in t <==> SentBy(ms, x)
    requires forall x :: x in t ==> t[x] == KeyTotal(ms, SenderOf, x, One)
    ensures s in r <==> s in t
    ensures s in r ==> r[s].messages == t[s]
  {
  }

  // ---------------------------------------------------------------------------
  // the most active hour across conversations

  /**
   * As written, the hours are reset for every conversation and the most
   * active hour of every sender seen so far is recomputed from the last
   * conversation's hours: a sender who wrote earlier but not in the last
   * conversation ends with -1.
   */
  lemma MostActiveHourLost(c1: Conversation, c2: Conversation, s: string)
    requires SentBy(c1.messages, s) && !SentBy(c2.messages, s)
    ensures s in ParticipantActivity([c1, c2])
    ensures ParticipantActivity([c1, c2])[s].messages >= 1
    ensures ParticipantActivity([c1, c2])[s].mostActiveHour == -1
  {
    var cs := [c1, c2];
    assert AllMessages(cs) == c1.messages + c2.messages by {
      AllMessagesSnoc([], c1);
      AllMessagesSnoc([c1], c2);
      assert [] + [c1] == [c1] && [c1] + [c2] == cs;
      assert [] + c1.messages == c1.messages;
    }
    var m :| m in c1.messages && m.sender == s;
    assert m in AllMessages(cs);
    ActivityMeaning(cs, s);
  }

  /**
   * The corrected fold: the hours accumulate over all conversations (the
   * hour map lives outside the conversation loop), so the most active hour
   * is taken over every message of the sender so far.
   */
  function ParticipantActivityFixed(cs: seq<Conversation>): map<string, ParticipantStats>
    decreases |cs|
  {
    if |cs| == 0 then map[]
    else
      var c := cs[|cs| - 1];
      Settle(RecordAll(ParticipantActivityFixed(cs[..|cs| - 1]), c.messages), AllMessages(cs))
  }

  lemma {:induction false} FixedSummarises(cs: seq<Conversation>)
    ensures Summarises(ParticipantActivityFixed(cs), AllMessages(cs))
    decreases |cs|
  {
    if |cs| > 0 {
      var p := cs[..|cs| - 1];
      var c := cs[|cs| - 1];
      FixedSummarises(p);
      RecordAllSummarises(ParticipantActivityFixed(p), AllMessages(p), c.messages);
      SettleSummarises(RecordAll(ParticipantActivityFixed(p), c.messages), AllMessages(cs), AllMessages(cs));
    }
  }

  lemma FixedSettled(cs: seq<Conversation>, s: string)
    requires |cs| > 0 && s in ParticipantActivityFixed(cs)
    ensures ParticipantActivityFixed(cs)[s].mostActiveHour == MostActive(HoursIn(AllMessages(cs), s))
  {
    var c := cs[|cs| - 1];
    var st := RecordAll(ParticipantActivityFixed(cs[..|cs| - 1]), c.messages);
    assert ParticipantActivityFixed(cs) == Settle(st, AllMessages(cs));
    SettleEntry(st, AllMessages(cs), s);
  }

  /**
   * With the correction every sender's most active hour is a real hour: the
   * first busiest hour over all of the sender's messages. The totals are
   * those of the fold as written.
   */
  lemma FixedMostActiveHour(cs: seq<Conversation>, s: string)
    ensures s in ParticipantActivityFixed(cs) <==> s in ParticipantActivity(cs)
    ensures s in ParticipantActivityFixed(cs) ==>
      var r := ParticipantActivityFixed(cs);
      var hs := HourHistogram(AllMessages(cs), SenderIs(s));
      && r[s].messages == ParticipantActivity(cs)[s].messages
      && r[s].words == ParticipantActivity(cs)[s].words
      && r[s].emotionalScore == ParticipantActivity(cs)[s].emotionalScore
      && 0 <= r[s].mostActiveHour < 24
      && (forall h :: 0 <= h < 24 ==> hs[h] <= hs[r[s].mostActiveHour])
      && (forall h :: 0 <= h < r[s].mostActiveHour ==> hs[h] < hs[r[s].mostActiveHour])
  {
    FixedSummarises(cs);
    ActivitySummarises(cs);
    if s in ParticipantActivityFixed(cs) {
      assert |cs| > 0;
      FixedSettled(cs, s);
    }
  }
}
