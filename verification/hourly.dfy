/**
 * Hour-of-day histograms: `generateHourlyActivity` over all messages, and
 * the per-sender histograms of the participant activity.
 */
module Hourly {
  import opened Seqs
  import opened DateTime
  import opened Model

  /** One bar of the histogram. */
  datatype HourlyActivity = HourlyActivity(hour: int, count: int)

  /** `new Date(message.timestamp).getHours()`. */
  function HourOf(m: Message): int {
    Hour(m.timestamp)
  }

  /** How many messages of `ms` pass `ok`: the reference for the histogram total. */
  function CountOk(ms: seq<Message>, ok: Message -> bool): nat
    decreases |ms|
  {
    if |ms| == 0 then 0 else CountOk(ms[..|ms| - 1], ok) + (if ok(ms[|ms| - 1]) then 1 else 0)
  }

  /** How many messages of `ms` pass `ok` and were sent in hour `h`: the reference for one bar. */
  function CountInHour(ms: seq<Message>, ok: Message -> bool, h: int): nat
    decreases |ms|
  {
    if |ms| == 0 then 0
    else CountInHour(ms[..|ms| - 1], ok, h) + (if ok(ms[|ms| - 1]) && HourOf(ms[|ms| - 1]) == h then 1 else 0)
  }

  /**
   * `new Array(24).fill(0)`, then `hours[hour]++` for every message that
   * passes `ok`: 24 bars, each counting its hour, together counting every
   * accepted message once.
   */
  function HourHistogram(ms: seq<Message>, ok: Message -> bool): (hs: seq<int>)
    ensures |hs| == 24
    ensures forall h :: 0 <= h < 24 ==> hs[h] == CountInHour(ms, ok, h)
    ensures Sum(hs) == CountOk(ms, ok)
    decreases |ms|
  {
    if |ms| == 0 then Zeros(24)
    else
      var p := HourHistogram(ms[..|ms| - 1], ok);
      var m := ms[|ms| - 1];
      if ok(m) then
        SumUpdate(p, HourOf(m), 1);
        p[HourOf(m) := p[HourOf(m)] + 1]
      else p
  }

  /** Every message is counted by the global histogram. */
  function Every(m: Message): bool {
    true
  }

  lemma {:induction false} CountEvery(ms: seq<Message>)
    ensures CountOk(ms, Every) == |ms|
    decreases |ms|
  {
    if |ms| > 0 {
      CountEvery(ms[..|ms| - 1]);
    }
  }

  /** The bars of a histogram, numbered by hour. */
  function Bars(hs: seq<int>): (r: seq<HourlyActivity>)
    ensures |r| == |hs|
    ensures forall h :: 0 <= h < |hs| ==> r[h] == HourlyActivity(h, hs[h])
  {
    seq(|hs|, h requires 0 <= h < |hs| => HourlyActivity(h, hs[h]))
  }

  /** `generateHourlyActivity`: one bar per hour of the day, counting the messages sent in that hour. */
  function GenerateHourlyActivity(cs: seq<Conversation>): (r: seq<HourlyActivity>)
    ensures |r| == 24
    ensures forall h :: 0 <= h < 24 ==> r[h].hour == h && r[h].count == CountInHour(AllMessages(cs), Every, h)
  {
    Bars(HourHistogram(AllMessages(cs), Every))
  }

  function BarCount(b: HourlyActivity): int {
    b.count
  }

  lemma {:induction false} BarsSum(hs: seq<int>)
    ensures SumOf(Bars(hs), BarCount) == Sum(hs)
    decreases |hs|
  {
    if |hs| > 0 {
      BarsSum(hs[..|hs| - 1]);
      assert Bars(hs)[..|hs| - 1] == Bars(hs[..|hs| - 1]);
    }
  }

  /** Conservation: the 24 bars together count every message once. */
  lemma HourlyConserves(cs: seq<Conversation>)
    ensures SumOf(GenerateHourlyActivity(cs), BarCount) == |AllMessages(cs)|
  {
    BarsSum(HourHistogram(AllMessages(cs), Every));
    CountEvery(AllMessages(cs));
  }
}
