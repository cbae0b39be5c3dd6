/**
 * The line grammars of the transcript formats, written as scanners with a
 * declarative description each and lemmas that the two agree:
 *
 *   message line   ^\[(D/M/YYYY),\s*(H:MM)\]\s*([^:]+?)\s*:\s*(.+)$
 *   section line   ^\[(\w+)\]\(([^)]+)\)$
 *   detector       ^\[D/M/YYYY,\s*H:MM\]\s*[^:]+\s*:     (multi-line mode)
 *
 * plus the control characters the parsers strip and the platform headers.
 *
 * The message scanner returns the whole text between `]` and the first `:`
 * (`senderField`) and everything after that colon (`tail`). The regex
 * captures these with some surrounding white space removed, and the parser
 * only ever uses the `trim()` of each capture, which is the trim of the
 * whole field.
 */
module Grammar {
  import opened Wrappers
  import opened Text
  import opened DateTime

  // ---------------------------------------------------------------------------
  // control characters

  /** The class `[\r\u200E\u200F\u202A-\u202E\uFEFF]`: carriage return and the bidi and byte-order marks. */
  predicate IsControl(c: char) {
    c == '\r' || c == '\U{200E}' || c == '\U{200F}' || ('\U{202A}' <= c <= '\U{202E}') || c == '\U{FEFF}'
  }

  /** `content.replace(/[\r\u200E\u200F\u202A-\u202E\uFEFF]/g, '')`. */
  function StripControls(s: string): (r: string)
    ensures |r| <= |s|
    ensures forall i :: 0 <= i < |r| ==> !IsControl(r[i])
    decreases |s|
  {
    if |s| == 0 then ""
    else
      var rest := StripControls(s[..|s| - 1]);
      if IsControl(s[|s| - 1]) then rest else rest + [s[|s| - 1]]
  }

  /** Stripping keeps every other character, in order: it removes only control characters. */
  lemma {:induction false} StripControlsKeeps(s: string)
    ensures multiset(StripControls(s)) == multiset(s) - multiset(ControlsOf(s))
    decreases |s|
  {
    if |s| > 0 {
      var p := s[..|s| - 1];
      StripControlsKeeps(p);
      assert s == p + [s[|s| - 1]];
    }
  }

  /** Stripping works piece by piece. */
  lemma {:induction false} StripControlsAppend(a: string, b: string)
    ensures StripControls(a + b) == StripControls(a) + StripControls(b)
    decreases |b|
  {
    if |b| > 0 {
      var n := |b| - 1;
      assert (a + b)[..|a + b| - 1] == a + b[..n];
      assert (a + b)[|a + b| - 1] == b[n];
      StripControlsAppend(a, b[..n]);
    } else {
      assert a + b == a;
    }
  }

  /** The control characters of `s`, in order. */
  function ControlsOf(s: string): (r: string)
    ensures forall i :: 0 <= i < |r| ==> IsControl(r[i])
    decreases |s|
  {
    if |s| == 0 then ""
    else ControlsOf(s[..|s| - 1]) + (if IsControl(s[|s| - 1]) then [s[|s| - 1]] else "")
  }

  /** Text without control characters is left as it is. */
  lemma {:induction false} StripControlsFree(s: string)
    requires forall i :: 0 <= i < |s| ==> !IsControl(s[i])
    ensures StripControls(s) == s
    decreases |s|
  {
    if |s| > 0 {
      StripControlsFree(s[..|s| - 1]);
    }
  }

  // ---------------------------------------------------------------------------
  // the `[D/M/YYYY, H:MM]` stamp

  /** The date and time tokens of a stamp and the text after its `]`. */
  datatype Stamp = Stamp(date: string, time: string, rest: string)

  /** Scans `^\[(\d{1,2}\/\d{1,2}\/\d{4}),\s*(\d{1,2}:\d{2})\]` at the start of `s`. */
  function MatchStamp(s: string): Option<Stamp> {
    if |s| == 0 || s[0] != '[' then None
    else
      var c := IndexOf(s, ',');
      if c < 1 then None
      else StampTokens(s[1..c], TrimStart(s[c + 1..]))
  }

  /** The tokens of a stamp whose date candidate is `date` and whose text after the comma and white space is `t`. */
  function StampTokens(date: string, t: string): Option<Stamp> {
    var e := IndexOf(t, ']');
    if e < 0 then None
    else if IsDateToken(date) && IsTimeToken(t[..e]) then Some(Stamp(date, t[..e], t[e + 1..]))
    else None
  }

  /** `s` is a stamp with these tokens, separated by the white space `ws`, followed by `rest`. */
  predicate StampShape(s: string, date: string, ws: string, time: string, rest: string) {
    s == "[" + date + "," + ws + time + "]" + rest
    && IsDateToken(date) && IsTimeToken(time) && AllSpaces(ws)
  }

  /** The pieces the stamp scanner cuts `s` into put `s` back together. */
  lemma StampPieces(s: string, c: int, k: int, e: int)
    requires 1 <= c < |s| && s[0] == '[' && s[c] == ','
    requires 0 <= k <= |s| - c - 1 && 0 <= e < |s| - c - 1 - k && s[c + 1 + k + e] == ']'
    ensures var after := s[c + 1..]; var t := after[k..];
      s == "[" + s[1..c] + "," + after[..k] + t[..e] + "]" + t[e + 1..]
  {
    var after := s[c + 1..];
    var t := after[k..];
    var head := "[" + s[1..c] + ",";
    assert s == head + after by {
      assert s[..c + 1] == head;
    }
    assert after == after[..k] + t;
    assert t == t[..e] + "]" + t[e + 1..] by {
      assert t[e] == ']';
    }
    Concat4(head, after[..k], t[..e] + "]", t[e + 1..]);
  }

  lemma Concat4(a: string, b: string, c: string, d: string)
    ensures a + (b + (c + d)) == a + b + c + d
  {
  }

  /** What the stamp scanner accepts has the stamp shape. */
  lemma MatchStampSound(s: string)
    requires MatchStamp(s).Some?
    ensures var st := MatchStamp(s).value;
      exists ws :: StampShape(s, st.date, ws, st.time, st.rest)
  {
    var st := MatchStamp(s).value;
    var c := IndexOf(s, ',');
    var after := s[c + 1..];
    var k := LeadingSpaces(after);
    var t := after[k..];
    var e := IndexOf(t, ']');
    StampPieces(s, c, k, e);
    var ws := after[..k];
    assert AllSpaces(ws);
    assert StampShape(s, st.date, ws, st.time, st.rest);
  }

  /** Where the scanner cuts a string of the stamp shape. */
  lemma StampCuts(date: string, ws: string, time: string, rest: string)
    requires ',' !in date && AllSpaces(ws) && ']' !in time && |time| > 0 && !IsSpace(time[0])
    ensures var s := "[" + date + "," + ws + time + "]" + rest;
      IndexOf(s, ',') == |date| + 1
      && s[1..|date| + 1] == date
      && TrimStart(s[|date| + 2..]) == time + "]" + rest
  {
    var pre := "[" + date;
    var after := ws + time + "]" + rest;
    var s := "[" + date + "," + ws + time + "]" + rest;
    assert s == pre + ("," + after);
    assert ',' !in pre by {
      forall i | 0 <= i < |pre|
        ensures pre[i] != ','
      {
        if i > 0 {
          assert pre[i] == date[i - 1];
        }
      }
    }
    IndexOfAfterFreePrefix(pre, ',', "," + after);
    assert s[1..|date| + 1] == date;
    assert s[|date| + 2..] == after;
    var t := time + "]" + rest;
    assert after == ws + t;
    LeadingSpacesOf(ws, t);
  }

  /** Where the scanner cuts the text after the stamp's white space. */
  lemma TimeCuts(time: string, rest: string)
    requires ']' !in time
    ensures var t := time + "]" + rest;
      IndexOf(t, ']') == |time| && t[..|time|] == time && t[|time| + 1..] == rest
  {
    IndexOfAfterFreePrefix(time, ']', "]" + rest);
    var t := time + "]" + rest;
    assert t == time + ("]" + rest);
  }

  /** Every string of the stamp shape is accepted, with exactly these tokens. */
  lemma MatchStampComplete(s: string, date: string, ws: string, time: string, rest: string)
    requires StampShape(s, date, ws, time, rest)
    ensures MatchStamp(s) == Some(Stamp(date, time, rest))
  {
    TokensFree(date, time);
    StampCuts(date, ws, time, rest);
    TimeCuts(time, rest);
    var c := |date| + 1;
    MatchStampAt(s, c);
    StampTokensAt(date, TrimStart(s[c + 1..]), |time|, time, rest);
  }

  /** Neither token holds the characters the scanner cuts at, and a time starts with a digit. */
  lemma TokensFree(date: string, time: string)
    requires IsDateToken(date) && IsTimeToken(time)
    ensures ',' !in date && ']' !in time && |time| > 0 && !IsSpace(time[0])
  {
    DateTokenChars(date);
    TimeTokenChars(time);
  }

  /** The scanner's result, given where the comma is. */
  lemma MatchStampAt(s: string, c: int)
    requires |s| > 0 && s[0] == '[' && 1 <= c < |s| && IndexOf(s, ',') == c
    ensures MatchStamp(s) == StampTokens(s[1..c], TrimStart(s[c + 1..]))
  {
  }

  lemma StampTokensAt(date: string, t: string, e: int, time: string, rest: string)
    requires 0 <= e < |t| && IndexOf(t, ']') == e && t[..e] == time && t[e + 1..] == rest
    requires IsDateToken(date) && IsTimeToken(time)
    ensures StampTokens(date, t) == Some(Stamp(date, time, rest))
  {
  }

  /** A stamp followed by more text is still the same stamp, with the text added to its rest. */
  lemma MatchStampExtend(s: string, x: string)
    requires MatchStamp(s).Some?
    ensures var st := MatchStamp(s).value;
      MatchStamp(s + x) == Some(Stamp(st.date, st.time, st.rest + x))
  {
    var st := MatchStamp(s).value;
    MatchStampSound(s);
    var ws :| StampShape(s, st.date, ws, st.time, st.rest);
    AppendAssoc("[" + st.date + "," + ws + st.time + "]", st.rest, x);
    MatchStampComplete(s + x, st.date, ws, st.time, st.rest + x);
  }

  lemma AppendAssoc(a: string, b: string, c: string)
    ensures (a + b) + c == a + (b + c)
  {
  }

  // ---------------------------------------------------------------------------
  // message lines

  predicate NoLineTerminator(s: string) {
    forall i :: 0 <= i < |s| ==> !IsLineTerminator(s[i])
  }

  /** `\s*(.+)$` can match `tail` leaving the first `j` characters to `\s*`. */
  predicate TailSplitAt(tail: string, j: int) {
    0 <= j < |tail| && AllSpaces(tail[..j]) && NoLineTerminator(tail[j..])
  }

  /** Whether `\s*(.+)$` matches `tail`, tried with the longest white-space prefix first. */
  predicate TailMatches(tail: string) {
    var k := LeadingSpaces(tail);
    |tail| > 0 && NoLineTerminator(tail[if k < |tail| then k else |tail| - 1..])
  }

  /** The tail check accepts exactly the tails that some split of `\s*(.+)` matches. */
  lemma TailMatchesIff(tail: string)
    ensures TailMatches(tail) <==> exists j :: TailSplitAt(tail, j)
  {
    var k := LeadingSpaces(tail);
    if |tail| > 0 {
      var m := if k < |tail| then k else |tail| - 1;
      if TailMatches(tail) {
        assert TailSplitAt(tail, m);
      }
      if exists j :: TailSplitAt(tail, j) {
        var j :| TailSplitAt(tail, j);
        assert j <= m;
        assert forall i :: 0 <= i < |tail| - m ==> tail[m..][i] == tail[j..][i + (m - j)];
      }
    }
  }

  /** The fields of a message line: the two tokens, the sender field and the tail. */
  datatype LineParts = LineParts(date: string, time: string, senderField: string, tail: string)

  /** Scans a whole message line. */
  function MatchMessageLine(line: string): Option<LineParts> {
    match MatchStamp(line)
    case None => None
    case Some(st) => SenderAndTail(st)
  }

  /** Cuts the text after a stamp at its first colon into a non-empty sender field and a matching tail. */
  function SenderAndTail(st: Stamp): Option<LineParts> {
    var c := IndexOf(st.rest, ':');
    if c < 1 then None
    else if TailMatches(st.rest[c + 1..]) then Some(LineParts(st.date, st.time, st.rest[..c], st.rest[c + 1..]))
    else None
  }

  /**
   * The language of the message regex, field by field: a stamp, then a
   * non-empty colon-free sender field (`\s*([^:]+?)\s*` matches exactly
   * these), a colon, and a tail `\s*(.+)` accepts.
   */
  predicate MessageLineShape(line: string, p: LineParts, ws: string) {
    StampShape(line, p.date, ws, p.time, p.senderField + ":" + p.tail)
    && |p.senderField| >= 1 && ':' !in p.senderField && TailMatches(p.tail)
  }

  lemma MatchMessageLineSound(line: string)
    requires MatchMessageLine(line).Some?
    ensures exists ws :: MessageLineShape(line, MatchMessageLine(line).value, ws)
  {
    var p := MatchMessageLine(line).value;
    var st := MatchStamp(line).value;
    MatchStampSound(line);
    var ws :| StampShape(line, st.date, ws, st.time, st.rest);
    IndexOfCut(st.rest, ':');
    assert MessageLineShape(line, p, ws);
  }

  lemma MatchMessageLineComplete(line: string, p: LineParts, ws: string)
    requires MessageLineShape(line, p, ws)
    ensures MatchMessageLine(line) == Some(p)
  {
    var rest := p.senderField + ":" + p.tail;
    MatchStampComplete(line, p.date, ws, p.time, rest);
    SenderAndTailOf(p);
  }

  lemma SenderAndTailOf(p: LineParts)
    requires |p.senderField| >= 1 && ':' !in p.senderField && TailMatches(p.tail)
    ensures SenderAndTail(Stamp(p.date, p.time, p.senderField + ":" + p.tail)) == Some(p)
  {
    var rest := p.senderField + ":" + p.tail;
    IndexOfAfterFreePrefix(p.senderField, ':', ":" + p.tail);
    assert rest == p.senderField + (":" + p.tail);
    assert rest[..|p.senderField|] == p.senderField;
    assert rest[|p.senderField| + 1..] == p.tail;
  }

  /** Without a comma there is no stamp. */
  lemma NoCommaNoStamp(s: string)
    requires ',' !in s
    ensures MatchStamp(s).None?
  {
    IndexOfAbsent(s, ',');
  }

  /** Header lines are never message lines. */
  lemma HeaderIsNotMessage(line: string)
    requires IsPlatformHeader(line) || line == "[Multi]"
    ensures MatchMessageLine(line).None?
  {
    assert ',' !in line;
    NoCommaNoStamp(line);
  }

  // ---------------------------------------------------------------------------
  // headers and sections

  /** The single-format header lines, compared after `trim()`. */
  predicate IsPlatformHeader(s: string) {
    s == "[WhatsApp]" || s == "[Insta]" || s == "[Discord]" || s == "[SMS]"
  }

  /** The platform token and display name of a `[Platform](Name)` line. */
  datatype Section = Section(token: string, name: string)

  /** Scans `^\[(\w+)\]\(([^)]+)\)$`. */
  function MatchSection(line: string): Option<Section> {
    if |line| == 0 || line[0] != '[' || line[|line| - 1] != ')' then None
    else
      var i := IndexOf(line, ']');
      if i < 2 || i + 3 >= |line| || line[i + 1] != '(' then None
      else
        var token := line[1..i];
        var name := line[i + 2..|line| - 1];
        if AllWordChars(token) && ')' !in name then Some(Section(token, name)) else None
  }

  /** The language of the section regex. */
  predicate SectionShape(line: string, sec: Section) {
    line == "[" + sec.token + "](" + sec.name + ")"
    && |sec.token| >= 1 && AllWordChars(sec.token)
    && |sec.name| >= 1 && ')' !in sec.name
  }

  lemma SectionPieces(line: string, i: int)
    requires 2 <= i && i + 3 < |line| && line[0] == '[' && line[i] == ']' && line[i + 1] == '(' && line[|line| - 1] == ')'
    ensures line == "[" + line[1..i] + "](" + line[i + 2..|line| - 1] + ")"
  {
    assert line == line[..1] + line[1..i] + line[i..i + 2] + line[i + 2..|line| - 1] + line[|line| - 1..];
  }

  lemma MatchSectionSound(line: string)
    requires MatchSection(line).Some?
    ensures SectionShape(line, MatchSection(line).value)
  {
    var i := IndexOf(line, ']');
    var sec := MatchSection(line).value;
    SectionPieces(line, i);
  }

  lemma MatchSectionComplete(line: string, sec: Section)
    requires SectionShape(line, sec)
    ensures MatchSection(line) == Some(sec)
  {
    var pre := "[" + sec.token;
    assert ']' !in pre by {
      forall j | 0 <= j < |pre|
        ensures pre[j] != ']'
      {
        if j > 0 {
          assert pre[j] == sec.token[j - 1];
        }
      }
    }
    assert line == pre + ("](" + sec.name + ")");
    IndexOfAfterFreePrefix(pre, ']', "](" + sec.name + ")");
    var i := |pre|;
    assert line[1..i] == sec.token;
    assert line[i + 1] == '(';
    assert line[i + 2..|line| - 1] == sec.name;
  }

  /** A string holding a character other than a digit or a slash is no date token. */
  lemma NotDateToken(s: string, j: int)
    requires 0 <= j < |s| && !IsDigit(s[j]) && s[j] != '/'
    ensures !IsDateToken(s)
  {
    if IsDateToken(s) {
      DateTokenChars(s);
    }
  }

  lemma SectionHasNoStamp(line: string)
    requires MatchSection(line).Some?
    ensures MatchStamp(line).None?
  {
    var i := IndexOf(line, ']');
    var c := IndexOf(line, ',');
    forall j | 1 <= j < i
      ensures line[j] != ','
    {
      assert line[1..i][j - 1] == line[j];
    }
    if c >= 1 {
      assert c > i;
      assert line[1..c][i - 1] == ']';
      NotDateToken(line[1..c], i - 1);
    }
  }

  /** A section line is never a message line, nor a header. */
  lemma SectionIsNotMessage(line: string)
    requires MatchSection(line).Some?
    ensures MatchMessageLine(line).None? && !IsPlatformHeader(line) && line != "[Multi]"
  {
    assert line[|line| - 1] == ')';
    SectionHasNoStamp(line);
  }

  // ---------------------------------------------------------------------------
  // the platform detector

  /** `^` in multi-line mode: the start of the text or just after a line terminator. */
  predicate IsLineStart(s: string, i: int) {
    i == 0 || (0 < i <= |s| && IsLineTerminator(s[i - 1]))
  }

  /** The detector pattern matches at position `i`: a stamp, then a colon at least one character later. */
  predicate DetectorMatchesAt(s: string, i: int) {
    0 <= i <= |s| && IsLineStart(s, i)
    && match MatchStamp(s[i..])
       case None => false
       case Some(st) => IndexOf(st.rest, ':') >= 1
  }

  /** `messagePattern.test(content)`. */
  predicate DetectorMatches(s: string) {
    exists i | 0 <= i <= |s| :: DetectorMatchesAt(s, i)
  }

  /** A message line at a line start, whatever follows it, makes the detector fire there. */
  lemma MessageLineTriggersDetector(s: string, i: int, line: string, x: string)
    requires 0 <= i <= |s| && IsLineStart(s, i) && s[i..] == line + x
    requires MatchMessageLine(line).Some?
    ensures DetectorMatchesAt(s, i)
  {
    var st := MatchStamp(line).value;
    MatchStampExtend(line, x);
    IndexOfExtend(st.rest, x, ':');
  }

  /** Text with no line start holding a stamp is never detected. */
  lemma DetectorNeedsBracket(s: string)
    requires forall i :: 0 <= i < |s| ==> !IsLineTerminator(s[i])
    requires |s| == 0 || s[0] != '['
    ensures !DetectorMatches(s)
  {
    forall i | 0 <= i <= |s|
      ensures !DetectorMatchesAt(s, i)
    {
      if i > 0 {
        assert !IsLineTerminator(s[i - 1]);
      }
    }
  }
}
