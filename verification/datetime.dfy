/**
 * Message timestamps: the `D/M/YYYY` and `H:MM` tokens of a transcript line,
 * what `new Date(year, month - 1, day, hours, minutes)` makes of them, and the
 * calendar fields the analytics read back (`getHours`, `getDay`, the ISO date).
 *
 * Local time is taken to be UTC, so a timestamp is a count of whole minutes
 * since 1970-01-01 00:00.
 */
module DateTime {
  import opened Wrappers
  import opened Text

  const MinutesPerDay: int := 1440

  /** A point in time, in whole minutes since 1970-01-01 00:00. */
  datatype Timestamp = Timestamp(minutes: int)

  /** A proleptic Gregorian calendar date; `month` counts from 1. */
  datatype CivilDate = CivilDate(year: int, month: int, day: int)

  // ---------------------------------------------------------------------------
  // calendar arithmetic

  /** Days from 1970-01-01 to the first day of `month` (1..12) of `year`, plus `day - 1`. */
  function DaysFromCivil(year: int, month: int, day: int): int
    requires 1 <= month <= 12
  {
    // the year is counted from March so that the leap day comes last
    var y := if month <= 2 then year - 1 else year;
    var era := y / 400;
    var yoe := y - era * 400;
    var mp := if month > 2 then month - 3 else month + 9;
    var doy := (153 * mp + 2) / 5 + day - 1;
    var doe := yoe * 365 + yoe / 4 - yoe / 100 + doy;
    era * 146097 + doe - 719468
  }

  /** The calendar date of a day number (the inverse walk of DaysFromCivil). */
  function CivilFromDays(days: int): CivilDate {
    var z := days + 719468;
    var era := z / 146097;
    var doe := z - era * 146097;
    var yoe := (doe - doe / 1460 + doe / 36524 - doe / 146096) / 365;
    var doy := doe - (365 * yoe + yoe / 4 - yoe / 100);
    var mp := (5 * doy + 2) / 153;
    var day := doy - (153 * mp + 2) / 5 + 1;
    var month := if mp < 10 then mp + 3 else mp - 9;
    CivilDate(yoe + era * 400 + (if month <= 2 then 1 else 0), month, day)
  }

  /**
   * The day number of ECMAScript's MakeDay: the month index rolls over into
   * the year (floor division), and `date - 1` days are added to the first of
   * the resulting month, so out-of-range days and months roll over.
   */
  function MakeDay(year: int, monthIndex: int, date: int): int {
    DaysFromCivil(year + monthIndex / 12, monthIndex % 12 + 1, 1) + date - 1
  }

  /** The `Date` constructor reads years 0..99 as 1900..1999. */
  function FullYear(year: int): (y: int)
    ensures 0 <= year <= 99 ==> y == 1900 + year
    ensures !(0 <= year <= 99) ==> y == year
  {
    if 0 <= year <= 99 then 1900 + year else year
  }

  /** `new Date(year, monthIndex, date, hours, minutes)` in a zero-offset time zone. */
  function MakeTimestamp(year: int, monthIndex: int, date: int, hours: int, minutes: int): (t: Timestamp)
    ensures 0 <= hours < 24 && 0 <= minutes < 60 ==>
      Hour(t) == hours && Day(t) == MakeDay(FullYear(year), monthIndex, date)
  {
    var day := MakeDay(FullYear(year), monthIndex, date);
    var t := Timestamp(day * MinutesPerDay + hours * 60 + minutes);
    if 0 <= hours < 24 && 0 <= minutes < 60 then
      SplitMinutes(day, hours, minutes);
      t
    else
      t
  }

  /** A time of day within range is read back from the timestamp it makes. */
  lemma SplitMinutes(day: int, hours: int, minutes: int)
    requires 0 <= hours < 24 && 0 <= minutes < 60
    ensures var t := Timestamp(day * MinutesPerDay + hours * 60 + minutes);
      Day(t) == day && Hour(t) == hours
  {
    var m := hours * 60 + minutes;
    assert 0 <= m < MinutesPerDay;
    assert (day * MinutesPerDay + m) % MinutesPerDay == m;
  }

  // ---------------------------------------------------------------------------
  // fields read back

  /** The day number of a timestamp. */
  function Day(t: Timestamp): int {
    t.minutes / MinutesPerDay
  }

  /** `getHours()`. */
  function Hour(t: Timestamp): (h: int)
    ensures 0 <= h < 24
  {
    (t.minutes % MinutesPerDay) / 60
  }

  /** `getDay()` of a day number: 0 is Sunday (1970-01-01 was a Thursday). */
  function Weekday(day: int): (w: int)
    ensures 0 <= w < 7
  {
    (day + 4) % 7
  }

  /** Hours beyond 23 roll over into the following days. */
  lemma HourRollsOver(year: int, monthIndex: int, date: int, hours: int, minutes: int)
    requires hours >= 24
    ensures MakeTimestamp(year, monthIndex, date, hours, minutes)
         == MakeTimestamp(year, monthIndex, date + 1, hours - 24, minutes)
  {
  }

  /** Month indexes beyond 11 roll over into the following years. */
  lemma MonthRollsOver(year: int, monthIndex: int, date: int)
    requires monthIndex >= 12
    ensures MakeDay(year, monthIndex, date) == MakeDay(year + 1, monthIndex - 12, date)
  {
    assert monthIndex / 12 == (monthIndex - 12) / 12 + 1;
    assert monthIndex % 12 == (monthIndex - 12) % 12;
  }

  /** Later times on the same day give later timestamps. */
  lemma SameDayOrder(year: int, monthIndex: int, date: int, h1: int, m1: int, h2: int, m2: int)
    requires 0 <= m1 < 60 && 0 <= m2 < 60
    requires h1 < h2 || (h1 == h2 && m1 < m2)
    ensures MakeTimestamp(year, monthIndex, date, h1, m1).minutes < MakeTimestamp(year, monthIndex, date, h2, m2).minutes
  {
  }

  // ---------------------------------------------------------------------------
  // date and time tokens

  predicate DigitsOfLength(s: string, lo: nat, hi: nat) {
    lo <= |s| <= hi && AllDigits(s)
  }

  /** `^(\d{1,2})\/(\d{1,2})\/(\d{4})$`: day, month and year separated by slashes. */
  predicate IsDateToken(s: string) {
    var p := SplitOn(s, '/');
    |p| == 3 && DigitsOfLength(p[0], 1, 2) && DigitsOfLength(p[1], 1, 2) && DigitsOfLength(p[2], 4, 4)
  }

  /** `^(\d{1,2}):(\d{2})$`: hours and minutes separated by a colon. */
  predicate IsTimeToken(s: string) {
    var p := SplitOn(s, ':');
    |p| == 2 && DigitsOfLength(p[0], 1, 2) && DigitsOfLength(p[1], 2, 2)
  }

  /** A date token is made of digits and slashes and starts with a digit. */
  lemma DateTokenChars(s: string)
    requires IsDateToken(s)
    ensures |s| > 0 && IsDigit(s[0])
    ensures forall i :: 0 <= i < |s| ==> IsDigit(s[i]) || s[i] == '/'
  {
    var p := SplitOn(s, '/');
    JoinSplit(s, '/');
    JoinCons(p[0], p[1..], '/');
    JoinCons(p[1], p[2..], '/');
    assert p == [p[0]] + p[1..];
    assert p[1..] == [p[1]] + p[2..];
    assert s == p[0] + ['/'] + (p[1] + ['/'] + p[2]);
  }

  /** A time token is made of digits and one colon and starts with a digit. */
  lemma TimeTokenChars(s: string)
    requires IsTimeToken(s)
    ensures |s| > 0 && IsDigit(s[0])
    ensures forall i :: 0 <= i < |s| ==> IsDigit(s[i]) || s[i] == ':'
  {
    var p := SplitOn(s, ':');
    JoinSplit(s, ':');
    JoinCons(p[0], p[1..], ':');
    assert p == [p[0]] + p[1..];
    assert s == p[0] + [':'] + p[1];
  }

  /**
   * `parseDateTime`: both tokens must have their shape, and every captured
   * field is read with `parseInt` (the decimal value, by ParseIntOfDigits).
   * None stands for the `null` result.
   */
  function ParseDateTime(dateStr: string, timeStr: string): (r: Option<Timestamp>)
    ensures r.Some? <==> IsDateToken(dateStr) && IsTimeToken(timeStr)
  {
    if IsDateToken(dateStr) && IsTimeToken(timeStr) then
      var d := SplitOn(dateStr, '/');
      var t := SplitOn(timeStr, ':');
      Some(MakeTimestamp(DecimalValue(d[2]), DecimalValue(d[1]) - 1, DecimalValue(d[0]),
                         DecimalValue(t[0]), DecimalValue(t[1])))
    else None
  }

  // ---------------------------------------------------------------------------
  // rendering tokens

  lemma {:induction false} NatToStringLength(n: nat, k: nat)
    requires k >= 1 && n < Pow10(k)
    ensures |NatToString(n)| <= k
    decreases k
  {
    if n >= 10 {
      assert k >= 2;
      NatToStringLength(n / 10, k - 1);
    }
  }

  /** `n` in decimal, zero-padded to `width` digits: at most `digits` long, read back as `n`. */
  function Padded(n: nat, width: nat, digits: nat): (r: string)
    requires 1 <= width <= digits && n < Pow10(digits)
    ensures DigitsOfLength(r, width, digits) && DecimalValue(r) == n
  {
    NatToStringLength(n, digits);
    PadZerosValue(NatToString(n), width);
    DecimalOfNatToString(n);
    PadZeros(NatToString(n), width)
  }

  /**
   * `D/M/YYYY` as the exports write it: day and month on `dayWidth` and
   * `monthWidth` digits (1 leaves them unpadded, 2 zero-pads them), the year on
   * four digits.
   */
  function FormatDate(day: nat, month: nat, year: nat, dayWidth: nat, monthWidth: nat): (s: string)
    requires day < 100 && month < 100 && year < 10000
    requires 1 <= dayWidth <= 2 && 1 <= monthWidth <= 2
    ensures IsDateToken(s)
  {
    var d, m, y := Padded(day, dayWidth, 2), Padded(month, monthWidth, 2), Padded(year, 4, 4);
    DateFieldsSplit(d, m, y);
    d + "/" + m + "/" + y
  }

  /** `H:MM` as the exports write it, the hours on `hourWidth` digits. */
  function FormatTime(hours: nat, minutes: nat, hourWidth: nat): (s: string)
    requires hours < 100 && minutes < 100 && 1 <= hourWidth <= 2
    ensures IsTimeToken(s)
  {
    var h, m := Padded(hours, hourWidth, 2), Padded(minutes, 2, 2);
    TimeFieldsSplit(h, m);
    h + ":" + m
  }

  lemma DateFieldsSplit(a: string, b: string, c: string)
    requires AllDigits(a) && AllDigits(b) && AllDigits(c)
    ensures SplitOn(a + "/" + b + "/" + c, '/') == [a, b, c]
  {
    assert '/' !in a && '/' !in b && '/' !in c;
    JoinCons(a, [b, c], '/');
    JoinCons(b, [c], '/');
    assert Join([a, b, c], '/') == a + "/" + b + "/" + c;
    SplitJoin([a, b, c], '/');
  }

  lemma TimeFieldsSplit(a: string, b: string)
    requires AllDigits(a) && AllDigits(b)
    ensures SplitOn(a + ":" + b, ':') == [a, b]
  {
    assert ':' !in a && ':' !in b;
    JoinCons(a, [b], ':');
    SplitJoin([a, b], ':');
  }

  /**
   * Parsing rendered tokens gives the `Date` built from the rendered fields,
   * whether the day, month and hours are zero-padded (`15/05/2025, 09:40`) or
   * not (`15/5/2025, 9:40`).
   */
  lemma ParseFormatted(day: nat, month: nat, year: nat, hours: nat, minutes: nat,
                       dayWidth: nat, monthWidth: nat, hourWidth: nat)
    requires day < 100 && month < 100 && year < 10000 && hours < 100 && minutes < 100
    requires 1 <= dayWidth <= 2 && 1 <= monthWidth <= 2 && 1 <= hourWidth <= 2
    ensures ParseDateTime(FormatDate(day, month, year, dayWidth, monthWidth),
                          FormatTime(hours, minutes, hourWidth))
         == Some(MakeTimestamp(year, month - 1, day, hours, minutes))
  {
    var dd, mm, y := Padded(day, dayWidth, 2), Padded(month, monthWidth, 2), Padded(year, 4, 4);
    var h, m := Padded(hours, hourWidth, 2), Padded(minutes, 2, 2);
    var ds := FormatDate(day, month, year, dayWidth, monthWidth);
    var ts := FormatTime(hours, minutes, hourWidth);
    assert SplitOn(ds, '/') == [dd, mm, y] by {
      assert ds == dd + "/" + mm + "/" + y;
      DateFieldsSplit(dd, mm, y);
    }
    assert SplitOn(ts, ':') == [h, m] by {
      assert ts == h + ":" + m;
      TimeFieldsSplit(h, m);
    }
    ParseFields(ds, ts, [dd, mm, y], [h, m]);
  }

  /** `parseDateTime` reads the fields its patterns capture. */
  lemma ParseFields(dateStr: string, timeStr: string, d: seq<string>, t: seq<string>)
    requires IsDateToken(dateStr) && IsTimeToken(timeStr)
    requires SplitOn(dateStr, '/') == d && SplitOn(timeStr, ':') == t
    ensures |d| == 3 && |t| == 2
    ensures ParseDateTime(dateStr, timeStr)
         == Some(MakeTimestamp(DecimalValue(d[2]), DecimalValue(d[1]) - 1, DecimalValue(d[0]),
                               DecimalValue(t[0]), DecimalValue(t[1])))
  {
  }
}
