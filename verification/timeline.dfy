/**
 * `generateTimeline`: every message of every conversation is filed under a
 * date key (its day, the Sunday starting its week, or its month), each key
 * collects a message count and a word count, and the keys come out in
 * ascending order.
 */
module Timeline {
  import opened Text
  import opened Seqs
  import opened DateTime
  import opened Model
  import opened Buckets

  /** The bucket granularity. */
  datatype Period = ByDay | ByWeek | ByMonth

  /** One point of the timeline. */
  datatype TimelineData = TimelineData(date: string, messages: int, words: int)

  // ---------------------------------------------------------------------------
  // date keys

  /** `String(n).padStart(2, '0')`. */
  function Pad2(n: int): string {
    PadZeros(IntToString(n), 2)
  }

  /** The year field of `toISOString`: four digits for years 0..9999, otherwise a sign and six digits. */
  function IsoYear(y: int): string {
    if 0 <= y <= 9999 then PadZeros(NatToString(y), 4)
    else if y < 0 then "-" + PadZeros(NatToString(-y), 6)
    else "+" + PadZeros(NatToString(y), 6)
  }

  /** `toISOString().split('T')[0]` of a time on day `day`: `YYYY-MM-DD`. */
  function IsoDate(day: int): string {
    var c := CivilFromDays(day);
    IsoYear(c.year) + "-" + Pad2(c.month) + "-" + Pad2(c.day)
  }

  /**
   * The day `setDate(getDate() - getDay())` moves to: the Sunday that
   * starts the week (rolling back across month ends).
   */
  function WeekStart(day: int): (s: int)
    ensures Weekday(s) == 0 && s <= day < s + 7
  {
    day - Weekday(day)
  }

  /** `${getFullYear()}-${String(getMonth() + 1).padStart(2, '0')}`. */
  function MonthKey(day: int): string {
    var c := CivilFromDays(day);
    IntToString(c.year) + "-" + Pad2(c.month)
  }

  function DayBucket(m: Message): string {
    IsoDate(Day(m.timestamp))
  }

  function WeekBucket(m: Message): string {
    IsoDate(WeekStart(Day(m.timestamp)))
  }

  function MonthBucket(m: Message): string {
    MonthKey(Day(m.timestamp))
  }

  /** The key a period files a message under. */
  function BucketOf(p: Period): Message -> string {
    match p
    case ByDay => DayBucket
    case ByWeek => WeekBucket
    case ByMonth => MonthBucket
  }

  /** Messages of one day share every key. */
  lemma SameDaySameBucket(a: Message, b: Message, p: Period)
    requires Day(a.timestamp) == Day(b.timestamp)
    ensures BucketOf(p)(a) == BucketOf(p)(b)
  {
  }

  /** Messages of one Sunday-to-Saturday week share the week key. */
  lemma SameWeekSameBucket(a: Message, b: Message)
    requires WeekStart(Day(a.timestamp)) <= Day(b.timestamp) < WeekStart(Day(a.timestamp)) + 7
    ensures WeekBucket(a) == WeekBucket(b)
  {
    WeekStartOf(Day(b.timestamp), WeekStart(Day(a.timestamp)));
  }

  /** The week of a day is the Sunday at most six days before it. */
  lemma WeekStartOf(d: int, s: int)
    requires Weekday(s) == 0 && s <= d < s + 7
    ensures WeekStart(d) == s
  {
    var q := (s + 4) / 7;
    assert s + 4 == 7 * q;
    SundayOffset(q, d - s);
  }

  lemma SundayOffset(q: int, k: int)
    requires 0 <= k < 7
    ensures (7 * q + k) % 7 == k
  {
  }

  /** `content.split(' ').length`: the word count the timeline and the participant activity use. */
  function SpaceWords(m: Message): int {
    |SplitOn(m.content, ' ')|
  }

  /** Splitting on single spaces is not the white-space token count the parser uses. */
  lemma SpaceWordsIsNotWordsOf()
    ensures |SplitOn("a\tb", ' ')| == 1 && WordsOf("a\tb") == 2
  {
    SplitOfFree("a\tb", ' ');
    assert IndexOfSpace("a\tb") == 1;
    assert TrimStart("b") == "b";
    assert IndexOfSpace("b") == -1;
  }

  // ---------------------------------------------------------------------------
  // the timeline

  /** The timeline points of sorted keys, read from the two tallies. */
  function Entries(keys: seq<string>, counts: map<string, int>, words: map<string, int>): (r: seq<TimelineData>)
    requires forall k :: k in keys ==> k in counts && k in words
    ensures |r| == |keys|
    ensures forall i :: 0 <= i < |keys| ==> r[i] == TimelineData(keys[i], counts[keys[i]], words[keys[i]])
  {
    seq(|keys|, i requires 0 <= i < |keys| => TimelineData(keys[i], counts[keys[i]], words[keys[i]]))
  }

  /** The keys present, once each, in ascending order. */
  function TimelineKeys(ms: seq<Message>, key: Message -> string): (keys: seq<string>)
    ensures NoDup(keys) && LexSorted(keys)
    ensures forall k :: k in keys <==> HasKey(ms, key, k)
  {
    var d := Distinct(KeysAt(ms, key));
    var keys := SortLex(d);
    assert forall k :: k in keys <==> HasKey(ms, key, k) by {
      forall k
        ensures k in keys <==> HasKey(ms, key, k)
      {
        KeysAtIff(ms, key, k);
        assert k in keys <==> k in multiset(keys);
        assert k in d <==> k in multiset(d);
      }
    }
    NoDupPermutation(d, keys);
    keys
  }

  /** Each point holds the number of messages with its key (at least one) and their word total. */
  predicate Tallied(r: seq<TimelineData>, ms: seq<Message>, key: Message -> string) {
    forall i :: 0 <= i < |r| ==>
      r[i].messages == KeyTotal(ms, key, r[i].date, One) >= 1 && r[i].words == KeyTotal(ms, key, r[i].date, SpaceWords)
  }

  /** The timeline of a list of messages under any key. */
  function TimelineOf(ms: seq<Message>, key: Message -> string): (r: seq<TimelineData>)
    ensures forall i, j :: 0 <= i < j < |r| ==> LexLe(r[i].date, r[j].date) && r[i].date != r[j].date
    ensures forall k :: HasKey(ms, key, k) <==> exists i :: 0 <= i < |r| && r[i].date == k
    ensures Tallied(r, ms, key)
  {
    var counts := PerKey(ms, key, One);
    var words := PerKey(ms, key, SpaceWords);
    PerKeyCountsPositive(ms, key);
    var keys := TimelineKeys(ms, key);
    EntriesFacts(ms, key, keys, counts, words);
    Entries(keys, counts, words)
  }

  lemma EntriesFacts(ms: seq<Message>, key: Message -> string, keys: seq<string>, counts: map<string, int>, words: map<string, int>)
    requires NoDup(keys) && LexSorted(keys)
    requires forall k :: k in keys <==> HasKey(ms, key, k)
    requires forall k :: k in counts <==> HasKey(ms, key, k)
    requires forall k :: k in words <==> HasKey(ms, key, k)
    requires forall k :: k in counts ==> counts[k] == KeyTotal(ms, key, k, One) >= 1
    requires forall k :: k in words ==> words[k] == KeyTotal(ms, key, k, SpaceWords)
    ensures forall k :: k in keys ==> k in counts && k in words
    ensures var r := Entries(keys, counts, words);
      && (forall i, j :: 0 <= i < j < |r| ==> LexLe(r[i].date, r[j].date) && r[i].date != r[j].date)
      && (forall k :: HasKey(ms, key, k) <==> exists i :: 0 <= i < |r| && r[i].date == k)
      && Tallied(r, ms, key)
  {
    var r := Entries(keys, counts, words);
    forall i, j | 0 <= i < j < |r|
      ensures LexLe(r[i].date, r[j].date) && r[i].date != r[j].date
    {
      assert LexLe(keys[i], keys[j]) && keys[i] != keys[j];
    }
    forall i | 0 <= i < |r|
      ensures r[i].messages == KeyTotal(ms, key, r[i].date, One) >= 1 && r[i].words == KeyTotal(ms, key, r[i].date, SpaceWords)
    {
      assert keys[i] in keys;
    }
    forall k
      ensures HasKey(ms, key, k) <==> exists i :: 0 <= i < |r| && r[i].date == k
    {
      if k in keys {
        var i :| 0 <= i < |keys| && keys[i] == k;
        assert r[i].date == k;
      }
    }
  }

  /**
   * `generateTimeline`: the per-key tallies of all messages, listed in
   * ascending key order.
   */
  function GenerateTimeline(cs: seq<Conversation>, p: Period): (r: seq<TimelineData>)
    ensures forall i, j :: 0 <= i < j < |r| ==> LexLe(r[i].date, r[j].date) && r[i].date != r[j].date
    ensures forall k :: HasKey(AllMessages(cs), BucketOf(p), k) <==> exists i :: 0 <= i < |r| && r[i].date == k
    ensures Tallied(r, AllMessages(cs), BucketOf(p))
  {
    TimelineOf(AllMessages(cs), BucketOf(p))
  }

  function EntryMessages(e: TimelineData): int {
    e.messages
  }

  function EntryWords(e: TimelineData): int {
    e.words
  }

  lemma {:induction false} EntriesSum(keys: seq<string>, counts: map<string, int>, words: map<string, int>)
    requires forall k :: k in keys ==> k in counts && k in words
    ensures SumOf(Entries(keys, counts, words), EntryMessages) == SumOver(counts, keys)
    ensures SumOf(Entries(keys, counts, words), EntryWords) == SumOver(words, keys)
    decreases |keys|
  {
    if |keys| > 0 {
      var n := |keys| - 1;
      EntriesSum(keys[..n], counts, words);
      assert Entries(keys, counts, words)[..n] == Entries(keys[..n], counts, words);
    }
  }

  /**
   * Conservation: the timeline's message counts add up to the number of
   * messages, and its word counts to the total of the per-message counts.
   */
  lemma TimelineConserves(cs: seq<Conversation>, p: Period)
    ensures SumOf(GenerateTimeline(cs, p), EntryMessages) == |AllMessages(cs)|
    ensures SumOf(GenerateTimeline(cs, p), EntryWords) == SumOf(AllMessages(cs), SpaceWords)
  {
    var ms := AllMessages(cs);
    var key := BucketOf(p);
    var counts := PerKey(ms, key, One);
    var words := PerKey(ms, key, SpaceWords);
    var keys := TimelineKeys(ms, key);
    assert GenerateTimeline(cs, p) == Entries(keys, counts, words);
    forall k
      ensures k in keys <==> k in KeysAt(ms, key)
    {
      KeysAtIff(ms, key, k);
    }
    PerKeyConserves(ms, key, One, keys);
    PerKeyConserves(ms, key, SpaceWords, keys);
    SumOfOne(ms);
    EntriesSum(keys, counts, words);
  }
}
