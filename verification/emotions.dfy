/**
 * `analyzeEmotions`: keyword hits, emoji count and affection words over
 * every message, and a mood score in -100..100 derived from the balance of
 * positive and negative hits per message.
 */
module Emotions {
  import opened Text
  import opened Seqs
  import opened Model
  import opened Lexicon
  import opened Binary64

  /** The record `analyzeEmotions` returns. */
  datatype EmotionalMetrics = EmotionalMetrics(
    positiveScore: int,
    negativeScore: int,
    moodScore: int,
    totalEmojis: int,
    affectionWords: int)

  // ---------------------------------------------------------------------------
  // per-message counts

  /** The positive keywords (lower-cased) the lower-cased content contains. */
  function PositiveHits(m: Message): int {
    Hits(ToLower(m.content), LowerEach(PositiveKeywords))
  }

  /** The negative keywords (lower-cased) the lower-cased content contains. */
  function NegativeHits(m: Message): int {
    Hits(ToLower(m.content), LowerEach(NegativeKeywords))
  }

  /** The positive hits that are also affection words. */
  function AffectionHits(m: Message): int {
    HitsAmong(ToLower(m.content), LowerEach(PositiveKeywords), AffectionKeywords)
  }

  /** The emoji code points of the lower-cased content. */
  function Emojis(m: Message): int {
    EmojiCount(ToLower(m.content))
  }

  lemma MessageBounds(m: Message)
    ensures 0 <= AffectionHits(m) <= PositiveHits(m) <= |PositiveKeywords|
    ensures 0 <= NegativeHits(m) <= |NegativeKeywords|
    ensures 0 <= Emojis(m)
  {
  }

  // ---------------------------------------------------------------------------
  // rounding

  /**
   * `Math.round(a / b)` for `b > 0`: the integer nearest to `a / b`, a half
   * rounding up (towards positive infinity).
   */
  function RoundDiv(a: int, b: int): (r: int)
    requires b > 0
    ensures 2 * a - b < 2 * b * r <= 2 * a + b
  {
    var q := (2 * a + b) / (2 * b);
    assert 2 * b * q <= 2 * a + b < 2 * b * q + 2 * b;
    q
  }

  /** Cancelling a positive factor keeps a strict order. */
  lemma MulCancelLt(b: int, x: int, y: int)
    requires b > 0 && b * x < b * y
    ensures x < y
  {
  }

  /** The nearest integer is unique: any `r` within half of `a / b` is `RoundDiv(a, b)`. */
  lemma RoundDivUnique(a: int, b: int, r: int)
    requires b > 0 && 2 * a - b < 2 * b * r <= 2 * a + b
    ensures r == RoundDiv(a, b)
  {
    var q := RoundDiv(a, b);
    MulCancelLt(2 * b, r - 1, q);
    MulCancelLt(2 * b, q - 1, r);
  }

  /** `Math.max(-100, Math.min(100, x))`. */
  function Clamp100(x: int): (r: int)
    ensures -100 <= r <= 100
    ensures -100 <= x <= 100 ==> r == x
    ensures x > 100 ==> r == 100
    ensures x < -100 ==> r == -100
  {
    if x > 100 then 100 else if x < -100 then -100 else x
  }

  /** The double `(d / t) * 100` that `Math.round` receives. */
  function Percentage(d: int, t: int): Float
    requires t > 0
  {
    Times(Round(d, t), 100)
  }

  /**
   * The mood of `total` messages with `pos` positive and `neg` negative hits,
   * in double arithmetic: the balance divided by the message count and
   * rounded to a double, multiplied by 100 and rounded again, then
   * `Math.round` and the clamp to -100..100.
   */
  function Mood(pos: int, neg: int, total: nat): (mood: int)
    ensures -100 <= mood <= 100
    ensures total == 0 ==> mood == 0
  {
    if total > 0 then Clamp100(MathRound(Percentage(pos - neg, total))) else 0
  }

  /**
   * The mood follows the balance of hits: it has the sign of `pos - neg`,
   * saturates at ±100 once the balance reaches one hit per message, and is
   * otherwise a nearest integer to the percentage of the balance per message
   * (either neighbour at an exact half, as the two roundings fall), for
   * fewer than 2^40 messages.
   */
  lemma MoodMeaning(pos: int, neg: int, total: int)
    requires total > 0
    ensures pos >= neg ==> Mood(pos, neg, total) >= 0
    ensures pos <= neg ==> Mood(pos, neg, total) <= 0
    ensures pos - neg >= total ==> Mood(pos, neg, total) == 100
    ensures pos - neg <= -total ==> Mood(pos, neg, total) == -100
    ensures -total <= pos - neg <= total && total < 0x100_0000_0000 ==>
      200 * (pos - neg) - total <= 2 * total * Mood(pos, neg, total) <= 200 * (pos - neg) + total
  {
    var d := pos - neg;
    PercentageSign(d, total);
    if d >= total {
      MoodSaturatesUp(d, total);
    }
    if d <= -total {
      MoodSaturatesDown(d, total);
    }
    if -total <= d <= total && total < 0x100_0000_0000 {
      MoodNear(d, total);
    }
  }

  /** The percentage has the sign of the balance. */
  lemma PercentageSign(d: int, t: int)
    requires t > 0
    ensures d >= 0 ==> MathRound(Percentage(d, t)) >= 0
    ensures d <= 0 ==> MathRound(Percentage(d, t)) <= 0
  {
    var q := Round(d, t);
    var r := Percentage(d, t);
    assert r == Round(100 * Num(q), Den(q));
    if d >= 0 {
      MathRoundAtLeast(r, 0);
    }
    if d <= 0 {
      MathRoundAtMost(r, 0);
    }
  }

  /** A balance of at least one hit per message gives a percentage of at least 100. */
  lemma MoodSaturatesUp(d: int, t: int)
    requires 0 < t <= d
    ensures MathRound(Percentage(d, t)) >= 100
  {
    var q := Round(d, t);
    RoundAtLeast(d, t, 1);
    RoundAtLeast(100 * Num(q), Den(q), 100);
    MathRoundAtLeast(Percentage(d, t), 100);
  }

  /** A balance of at most minus one hit per message gives a percentage of at most -100. */
  lemma MoodSaturatesDown(d: int, t: int)
    requires 0 < t && d <= -t
    ensures MathRound(Percentage(d, t)) <= -100
  {
    var q := Round(d, t);
    RoundAtMost(d, t, 1);
    RoundAtMost(100 * Num(q), Den(q), 100);
    MathRoundAtMost(Percentage(d, t), -100);
  }

  /**
   * With `|d| <= t < 2^40` the two roundings stay within a half of
   * `100 d / t`, which keeps the result inside the clamp.
   */
  lemma MoodNear(d: int, t: int)
    requires 0 < t < 0x100_0000_0000 && -t <= d <= t
    ensures var m := MathRound(Percentage(d, t));
      && 200 * d - t <= 2 * t * m <= 200 * d + t
      && -100 <= m <= 100
  {
    var r := Percentage(d, t);
    ScaledQuotientError(d, t, 100);
    PercentageClose(Num(r) * t - 100 * d * Den(r), Abs(d), Den(r));
    MathRoundNear(r, 100 * d, t);
    WithinClamp(d, t, MathRound(r));
  }

  /** An integer within a half of `100 d / t`, for `|d| <= t`, lies in -100..100. */
  lemma WithinClamp(d: int, t: int, m: int)
    requires t > 0 && -t <= d <= t
    requires 200 * d - t <= 2 * t * m <= 200 * d + t
    ensures -100 <= m <= 100
  {
    if m > 100 {
      MulLe(2 * t, 101, m);
    }
    if m < -100 {
      MulLe(2 * t, m, -101);
    }
  }

  /** `2^53 |z| <= 300 |d| D` with `|d| < 2^40` leaves `2 |z| < D`. */
  lemma PercentageClose(z: int, w: int, den: int)
    requires 0 <= w < 0x100_0000_0000 && den > 0
    requires Two53 * Abs(z) <= 3 * 100 * w * den
    ensures 2 * Abs(z) < den
  {
    MulLt(den, 600 * w, Two53);
    assert Two53 * (2 * Abs(z)) < Two53 * den;
    if 2 * Abs(z) >= den {
      MulLe(Two53, den, 2 * Abs(z));
    }
  }

  /**
   * Off the exact halves, the double computation agrees with the exact
   * reference: the mood is the percentage `100 (pos - neg) / total`
   * rounded to the nearest integer.
   */
  lemma MoodMatchesExact(pos: int, neg: int, total: int)
    requires 0 < total < 0x100_0000_0000 && -total <= pos - neg <= total
    requires (200 * (pos - neg) + total) % (2 * total) != 0
    ensures Mood(pos, neg, total) == RoundDiv(100 * (pos - neg), total)
  {
    var d := pos - neg;
    var m := MathRound(Percentage(d, total));
    MoodNear(d, total);
    assert Mood(pos, neg, total) == m;
    OffTie(100 * d, total, m);
    RoundDivUnique(100 * d, total, m);
  }

  /** Within a half of `a / b` and off the exact halves, strictly within a half. */
  lemma OffTie(a: int, b: int, m: int)
    requires b > 0 && (2 * a + b) % (2 * b) != 0
    requires 2 * a - b <= 2 * b * m <= 2 * a + b
    ensures 2 * a - b < 2 * b * m < 2 * a + b
  {
    if 2 * b * m == 2 * a + b {
      MultipleMod(2 * b, m);
    }
    if 2 * b * m == 2 * a - b {
      NextMultiple(2 * b, m);
      MultipleMod(2 * b, m + 1);
    }
  }

  lemma NextMultiple(b: int, k: int)
    ensures b * (k + 1) == b * k + b
  {
  }

  /** A multiple of `b` leaves no remainder. */
  lemma MultipleMod(b: int, k: int)
    requires b > 0
    ensures (b * k) % b == 0
  {
    var q, r := (b * k) / b, (b * k) % b;
    assert b * (k - q) == r;
    if k - q >= 1 {
      MulLe(b, 1, k - q);
    } else if k - q <= -1 {
      MulLe(b, k - q, -1);
    }
  }

  /** `0.575` is just below its decimal value as a double. */
  lemma Quotient23Over40()
    ensures Round(23, 40) == Float(5179139571476070, -53)
  {
    Pow2Values();
    assert Normalised(23, 40, -53);
    NormalisedUnique(23, 40, Exponent(23, 40), -53);
  }

  /** ... and so is `0.575 * 100`, which `Math.round` then takes down. */
  lemma Percentage23Over40()
    ensures Percentage(23, 40) == Float(8092405580431359, -47)
  {
    Quotient23Over40();
    Pow2Values();
    var a, b := 100 * 5179139571476070, Pow2(53);
    assert Times(Float(5179139571476070, -53), 100) == Round(a, b);
    assert Normalised(a, b, -47);
    NormalisedUnique(a, b, Exponent(a, b), -47);
  }

  /** `Math.round` of that product. */
  lemma RoundedPercentage23Over40()
    ensures MathRound(Percentage(23, 40)) == 57
  {
    Percentage23Over40();
    Pow2Values();
    assert MathRound(Float(8092405580431359, -47)) == (2 * 8092405580431359 + Two52 / 32) / (Two52 / 16);
  }

  /**
   * At an exact half the double arithmetic can fall either way: 23 net
   * positive hits over 40 messages give a mood of 57, where rounding the
   * exact 57.5 up would give 58.
   */
  lemma MoodAtTie()
    ensures Mood(23, 0, 40) == 57
    ensures RoundDiv(100 * 23, 40) == 58
  {
    RoundedPercentage23Over40();
  }

  // ---------------------------------------------------------------------------
  // the fold

  /** The running counters of `analyzeEmotions`. */
  datatype Counters = Counters(positive: int, negative: int, emojis: int, affection: int, messages: int)

  /** One message's contribution to the counters. */
  function CountMessage(t: Counters, m: Message): Counters {
    Counters(t.positive + PositiveHits(m), t.negative + NegativeHits(m), t.emojis + Emojis(m),
             t.affection + AffectionHits(m), t.messages + 1)
  }

  /** The counters after the messages `ms`, in order. */
  function CountAll(ms: seq<Message>): Counters
    decreases |ms|
  {
    if |ms| == 0 then Counters(0, 0, 0, 0, 0) else CountMessage(CountAll(ms[..|ms| - 1]), ms[|ms| - 1])
  }

  /** Each counter is the total of its per-message count. */
  lemma {:induction false} CountAllSums(ms: seq<Message>)
    ensures CountAll(ms) == Counters(SumOf(ms, PositiveHits), SumOf(ms, NegativeHits), SumOf(ms, Emojis),
                                     SumOf(ms, AffectionHits), |ms|)
    decreases |ms|
  {
    if |ms| > 0 {
      CountAllSums(ms[..|ms| - 1]);
    }
  }

  /**
   * `analyzeEmotions`: the scores total the keyword hits of every message,
   * each keyword counting at most once per message; affection words are
   * among the positive hits; the mood lies in -100..100 and is 0 without
   * messages.
   */
  function AnalyzeEmotions(cs: seq<Conversation>): (r: EmotionalMetrics)
    ensures var ms := AllMessages(cs);
      && 0 <= r.affectionWords <= r.positiveScore <= |ms| * |PositiveKeywords|
      && 0 <= r.negativeScore <= |ms| * |NegativeKeywords|
      && 0 <= r.totalEmojis
      && -100 <= r.moodScore <= 100
      && (|ms| == 0 ==> r == EmotionalMetrics(0, 0, 0, 0, 0))
  {
    var ms := AllMessages(cs);
    var t := CountAll(ms);
    CountAllSums(ms);
    TotalsBounds(ms);
    EmotionalMetrics(t.positive, t.negative, Mood(t.positive, t.negative, t.messages), t.emojis, t.affection)
  }

  /** The bounds the per-message counts give their totals. */
  lemma TotalsBounds(ms: seq<Message>)
    ensures 0 <= SumOf(ms, AffectionHits) <= SumOf(ms, PositiveHits) <= |ms| * |PositiveKeywords|
    ensures 0 <= SumOf(ms, NegativeHits) <= |ms| * |NegativeKeywords|
    ensures 0 <= SumOf(ms, Emojis)
  {
    forall m | m in ms
      ensures 0 <= AffectionHits(m) <= PositiveHits(m) <= |PositiveKeywords|
    {
      MessageBounds(m);
    }
    SumOfMonotone(ms, AffectionHits, PositiveHits);
    SumOfNonNegative(ms, AffectionHits);
    SumOfBounds(ms, PositiveHits, 0, |PositiveKeywords|);
    NegativeTotalsBounds(ms);
  }

  lemma NegativeTotalsBounds(ms: seq<Message>)
    ensures 0 <= SumOf(ms, NegativeHits) <= |ms| * |NegativeKeywords|
    ensures 0 <= SumOf(ms, Emojis)
  {
    forall m | m in ms
      ensures 0 <= NegativeHits(m) <= |NegativeKeywords|
      ensures 0 <= Emojis(m)
    {
      MessageBounds(m);
    }
    SumOfBounds(ms, NegativeHits, 0, |NegativeKeywords|);
    SumOfNonNegative(ms, Emojis);
  }

  /** The scores are the per-message totals, and the mood is computed from them over the message count. */
  lemma EmotionScores(cs: seq<Conversation>)
    ensures var ms := AllMessages(cs);
      var r := AnalyzeEmotions(cs);
      && r.positiveScore == SumOf(ms, PositiveHits)
      && r.negativeScore == SumOf(ms, NegativeHits)
      && r.affectionWords == SumOf(ms, AffectionHits)
      && r.totalEmojis == SumOf(ms, Emojis)
      && r.moodScore == Mood(r.positiveScore, r.negativeScore, |ms|)
  {
    CountAllSums(AllMessages(cs));
  }
}
