/**
 * String primitives with the semantics of the JavaScript operations the
 * transcript tools use: the `\s`/`trim` white-space set, `split` on a
 * character and on `/\s+/`, `includes`, `toLowerCase`, decimal rendering and
 * `parseInt`. Strings are sequences of code points.
 */
module Text {
  import opened Wrappers

  /** The characters matched by JavaScript's `\s` and removed by `trim()`. */
  predicate IsSpace(c: char) {
    c == '\t' || c == '\n' || c == '\U{000B}' || c == '\U{000C}' || c == '\r' || c == ' '
    || c == '\U{00A0}' || c == '\U{1680}' || ('\U{2000}' <= c <= '\U{200A}')
    || c == '\U{2028}' || c == '\U{2029}' || c == '\U{202F}' || c == '\U{205F}'
    || c == '\U{3000}' || c == '\U{FEFF}'
  }

  /** The characters JavaScript's `.` refuses to match (and after which `^` matches in `m` mode). */
  predicate IsLineTerminator(c: char) {
    c == '\n' || c == '\r' || c == '\U{2028}' || c == '\U{2029}'
  }

  /** `\d` without the `u` flag. */
  predicate IsDigit(c: char) {
    '0' <= c <= '9'
  }

  /** `\w` without the `u` flag: ASCII letters, digits and underscore. */
  predicate IsWordChar(c: char) {
    ('a' <= c <= 'z') || ('A' <= c <= 'Z') || IsDigit(c) || c == '_'
  }

  predicate AllSpaces(s: string) {
    forall i :: 0 <= i < |s| ==> IsSpace(s[i])
  }

  predicate NoSpace(s: string) {
    forall i :: 0 <= i < |s| ==> !IsSpace(s[i])
  }

  predicate AllDigits(s: string) {
    forall i :: 0 <= i < |s| ==> IsDigit(s[i])
  }

  predicate AllWordChars(s: string) {
    forall i :: 0 <= i < |s| ==> IsWordChar(s[i])
  }

  /** Neither end of `s` is white space: what `trim()` returns. */
  predicate IsTrimmed(s: string) {
    |s| == 0 || (!IsSpace(s[0]) && !IsSpace(s[|s| - 1]))
  }

  // ---------------------------------------------------------------------------
  // trim

  /** The number of white-space characters `s` starts with. */
  function LeadingSpaces(s: string): (n: nat)
    ensures n <= |s|
    ensures forall j :: 0 <= j < n ==> IsSpace(s[j])
    ensures n < |s| ==> !IsSpace(s[n])
    decreases |s|
  {
    if |s| > 0 && IsSpace(s[0]) then 1 + LeadingSpaces(s[1..]) else 0
  }

  /** The number of white-space characters `s` ends with. */
  function TrailingSpaces(s: string): (n: nat)
    ensures n <= |s|
    ensures forall j :: |s| - n <= j < |s| ==> IsSpace(s[j])
    ensures n < |s| ==> !IsSpace(s[|s| - 1 - n])
    decreases |s|
  {
    if |s| > 0 && IsSpace(s[|s| - 1]) then 1 + TrailingSpaces(s[..|s| - 1]) else 0
  }

  /** `String.prototype.trimStart`. */
  function TrimStart(s: string): string {
    s[LeadingSpaces(s)..]
  }

  /** `String.prototype.trim`. */
  function Trim(s: string): (r: string)
    ensures IsTrimmed(r)
    ensures |r| <= |s|
  {
    var t := TrimStart(s);
    t[..|t| - TrailingSpaces(t)]
  }

  lemma {:induction false} LeadingSpacesOf(a: string, t: string)
    requires AllSpaces(a) && (|t| == 0 || !IsSpace(t[0]))
    ensures LeadingSpaces(a + t) == |a|
    decreases |a|
  {
    if |a| > 0 {
      assert (a + t)[1..] == a[1..] + t;
      LeadingSpacesOf(a[1..], t);
    } else {
      assert a + t == t;
    }
  }

  lemma {:induction false} TrailingSpacesOf(t: string, b: string)
    requires AllSpaces(b) && (|t| == 0 || !IsSpace(t[|t| - 1]))
    ensures TrailingSpaces(t + b) == |b|
    decreases |b|
  {
    if |b| > 0 {
      assert (t + b)[..|t + b| - 1] == t + b[..|b| - 1];
      TrailingSpacesOf(t, b[..|b| - 1]);
    } else {
      assert t + b == t;
    }
  }

  /** Trim removes exactly a white-space prefix and a white-space suffix, and nothing else. */
  lemma TrimCharacterised(a: string, r: string, b: string)
    requires AllSpaces(a) && AllSpaces(b) && IsTrimmed(r)
    ensures Trim(a + r + b) == r
  {
    var s := a + r + b;
    if |r| == 0 {
      assert s == (a + b) + "";
      assert AllSpaces(a + b);
      LeadingSpacesOf(a + b, "");
    } else {
      assert s == a + (r + b);
      LeadingSpacesOf(a, r + b);
      assert TrimStart(s) == r + b;
      TrailingSpacesOf(r, b);
    }
  }

  /** Trimming keeps a contiguous part of the text. */
  lemma TrimIsSlice(s: string)
    ensures LeadingSpaces(s) + |Trim(s)| <= |s|
    ensures Trim(s) == s[LeadingSpaces(s)..LeadingSpaces(s) + |Trim(s)|]
  {
  }

  /** Trimming keeps every character that is not white space. */
  lemma TrimKeepsNonSpace(s: string, i: int)
    requires 0 <= i < |s| && !IsSpace(s[i])
    ensures s[i] in Trim(s)
  {
    var l := LeadingSpaces(s);
    var t := TrimStart(s);
    assert i >= l;
    assert t[i - l] == s[i];
    assert i - l < |t| - TrailingSpaces(t);
    assert Trim(s)[i - l] == s[i];
  }

  /** Trimming adds no character. */
  lemma TrimNotIn(s: string, c: char)
    requires c !in s
    ensures c !in Trim(s)
  {
    TrimIsSlice(s);
    var a := LeadingSpaces(s);
    forall j | 0 <= j < |Trim(s)|
      ensures Trim(s)[j] != c
    {
      assert Trim(s)[j] == s[a + j];
    }
  }

  /** A trimmed string is its own trim. */
  lemma TrimIdempotent(s: string)
    requires IsTrimmed(s)
    ensures Trim(s) == s
  {
    TrimCharacterised("", s, "");
    assert "" + s + "" == s;
  }

  /** `line.trim()` is falsy exactly for all-white-space lines. */
  lemma TrimEmptyIff(s: string)
    ensures Trim(s) == "" <==> AllSpaces(s)
  {
    if AllSpaces(s) {
      TrimCharacterised(s, "", "");
      assert s + "" + "" == s;
    }
  }

  // ---------------------------------------------------------------------------
  // includes, startsWith, indexOf

  predicate StartsWith(s: string, p: string) {
    |p| <= |s| && s[..|p|] == p
  }

  /** `s.includes(p)`: `p` occurs in `s` as a contiguous substring. */
  predicate Contains(s: string, p: string)
    decreases |s|
  {
    StartsWith(s, p) || (|s| > 0 && Contains(s[1..], p))
  }

  /** `p` occurs in `s` starting at position `i`. */
  predicate OccursAt(s: string, p: string, i: int) {
    0 <= i && i + |p| <= |s| && s[i..i + |p|] == p
  }

  /** Contains holds exactly when `p` occurs at some position of `s`. */
  lemma {:induction false} ContainsIff(s: string, p: string)
    ensures Contains(s, p) <==> exists i :: OccursAt(s, p, i)
    decreases |s|
  {
    if StartsWith(s, p) {
      assert OccursAt(s, p, 0);
    } else if |s| > 0 {
      ContainsIff(s[1..], p);
      if Contains(s[1..], p) {
        var i :| OccursAt(s[1..], p, i);
        assert s[i + 1..i + 1 + |p|] == s[1..][i..i + |p|];
        assert OccursAt(s, p, i + 1);
      }
      if exists i :: OccursAt(s, p, i) {
        var i :| OccursAt(s, p, i);
        assert i != 0;
        assert s[1..][i - 1..i - 1 + |p|] == s[i..i + |p|];
        assert OccursAt(s[1..], p, i - 1);
      }
    }
  }

  /** `s.indexOf(c)`: the first position of `c`, or -1. */
  function IndexOf(s: string, c: char): (r: int)
    ensures -1 <= r < |s|
    ensures r >= 0 ==> s[r] == c
    ensures forall j :: 0 <= j < |s| && (r < 0 || j < r) ==> s[j] != c
    decreases |s|
  {
    if |s| == 0 then -1
    else if s[0] == c then 0
    else
      var k := IndexOf(s[1..], c);
      assert s[1..][..if k < 0 then 0 else k] == s[1..if k < 0 then 1 else k + 1];
      if k < 0 then -1 else k + 1
  }

  /** `indexOf` is -1 exactly when the character is absent. */
  lemma IndexOfAbsent(s: string, c: char)
    ensures IndexOf(s, c) == -1 <==> c !in s
  {
    if c in s {
      var j :| 0 <= j < |s| && s[j] == c;
    }
  }

  /** Cutting at the first occurrence: the part before it is free of the character. */
  lemma IndexOfCut(s: string, c: char)
    requires IndexOf(s, c) >= 0
    ensures var i := IndexOf(s, c);
      s == s[..i] + [c] + s[i + 1..] && c !in s[..i]
  {
    var i := IndexOf(s, c);
    assert s == s[..i] + s[i..i + 1] + s[i + 1..];
    assert forall j :: 0 <= j < i ==> s[..i][j] == s[j];
  }

  /** Text after the first occurrence does not move it. */
  lemma {:induction false} IndexOfExtend(a: string, b: string, c: char)
    requires c in a
    ensures IndexOf(a + b, c) == IndexOf(a, c)
    decreases |a|
  {
    if a[0] != c {
      assert (a + b)[1..] == a[1..] + b;
      IndexOfExtend(a[1..], b, c);
    }
  }

  // ---------------------------------------------------------------------------
  // toLowerCase

  /** Lower-case mapping of ASCII and Latin-1 capitals; every other character is unchanged. */
  function LowerChar(c: char): char {
    if ('A' <= c <= 'Z') || ('\U{00C0}' <= c <= '\U{00DE}' && c != '\U{00D7}') then
      (c as int + 32) as char
    else
      c
  }

  function ToLower(s: string): (r: string)
    ensures |r| == |s|
    ensures forall i :: 0 <= i < |s| ==> r[i] == LowerChar(s[i])
  {
    seq(|s|, i requires 0 <= i < |s| => LowerChar(s[i]))
  }

  /** Lower-casing keeps the character classes the word scrubber looks at. */
  lemma LowerCharClasses(c: char)
    ensures IsWordChar(LowerChar(c)) <==> IsWordChar(c)
    ensures IsSpace(LowerChar(c)) <==> IsSpace(c)
    ensures LowerChar(LowerChar(c)) == LowerChar(c)
  {
  }

  // ---------------------------------------------------------------------------
  // split on one character

  /** `s.split(sep)` for a one-character separator. */
  function SplitOn(s: string, sep: char): (r: seq<string>)
    ensures |r| >= 1
    decreases |s|
  {
    var i := IndexOf(s, sep);
    if i < 0 then [s] else [s[..i]] + SplitOn(s[i + 1..], sep)
  }

  /** No piece of a split holds the separator. */
  lemma {:induction false} SplitOnPiecesFree(s: string, sep: char)
    ensures forall i :: 0 <= i < |SplitOn(s, sep)| ==> sep !in SplitOn(s, sep)[i]
    decreases |s|
  {
    var i := IndexOf(s, sep);
    if i >= 0 {
      SplitOnPiecesFree(s[i + 1..], sep);
      var r := SplitOn(s, sep);
      assert sep !in s[..i] by {
        forall j | 0 <= j < i
          ensures s[..i][j] != sep
        {
        }
      }
      forall k | 0 <= k < |r|
        ensures sep !in r[k]
      {
        if k > 0 {
          assert r[k] == SplitOn(s[i + 1..], sep)[k - 1];
        }
      }
    }
  }

  /** `parts.join(sep)`. */
  function Join(parts: seq<string>, sep: char): string
    decreases |parts|
  {
    if |parts| == 0 then ""
    else if |parts| == 1 then parts[0]
    else parts[0] + [sep] + Join(parts[1..], sep)
  }

  lemma JoinCons(p: string, rest: seq<string>, sep: char)
    requires |rest| >= 1
    ensures Join([p] + rest, sep) == p + [sep] + Join(rest, sep)
  {
    assert ([p] + rest)[1..] == rest;
  }

  /** Joining the pieces of a split gives back the string. */
  lemma {:induction false} JoinSplit(s: string, sep: char)
    ensures Join(SplitOn(s, sep), sep) == s
    decreases |s|
  {
    var i := SplitUnfold(s, sep);
    if i >= 0 {
      var head, tail := s[..i], s[i + 1..];
      JoinSplit(tail, sep);
      SplitCons(SplitOn(s, sep), head, SplitOn(tail, sep));
      JoinCons(head, SplitOn(tail, sep), sep);
      ConcatAtSeparator(s, i);
    }
  }

  /** A sequence is its head followed by its tail. */
  lemma SplitCons(r: seq<string>, head: string, tail: seq<string>)
    requires |r| >= 1 && r[0] == head && r[1..] == tail
    ensures r == [head] + tail
  {
  }

  lemma ConcatAtSeparator(s: string, i: nat)
    requires i < |s|
    ensures s == s[..i] + [s[i]] + s[i + 1..]
  {
  }

  /** Splitting a join of separator-free pieces gives back the pieces. */
  lemma {:induction false} SplitJoin(parts: seq<string>, sep: char)
    requires |parts| >= 1
    requires forall i :: 0 <= i < |parts| ==> sep !in parts[i]
    ensures SplitOn(Join(parts, sep), sep) == parts
    decreases |parts|
  {
    if |parts| > 1 {
      var head, rest := parts[0], parts[1..];
      assert parts == [head] + rest;
      JoinCons(head, rest, sep);
      assert sep !in head;
      assert forall i :: 0 <= i < |rest| ==> rest[i] == parts[i + 1];
      SplitAfterFreePrefix(head, sep, Join(rest, sep));
      SplitJoin(rest, sep);
    } else {
      assert parts == [parts[0]];
      SplitOfFree(parts[0], sep);
    }
  }

  /** A separator-free prefix followed by the separator is the first piece. */
  lemma SplitAfterFreePrefix(p: string, sep: char, rest: string)
    requires sep !in p
    ensures SplitOn(p + [sep] + rest, sep) == [p] + SplitOn(rest, sep)
  {
    var s := p + [sep] + rest;
    IndexOfAfterFreePrefix(p, sep, [sep] + rest);
    assert s == p + ([sep] + rest);
    assert s[..|p|] == p;
    assert s[|p| + 1..] == rest;
  }

  lemma {:induction false} IndexOfAfterFreePrefix(p: string, c: char, rest: string)
    requires c !in p && |rest| > 0 && rest[0] == c
    ensures IndexOf(p + rest, c) == |p|
    decreases |p|
  {
    if |p| > 0 {
      assert (p + rest)[1..] == p[1..] + rest;
      IndexOfAfterFreePrefix(p[1..], c, rest);
    } else {
      assert p + rest == rest;
    }
  }

  /** A separator-free string is a single piece. */
  lemma SplitOfFree(s: string, sep: char)
    requires sep !in s
    ensures SplitOn(s, sep) == [s]
  {
    IndexOfAbsent(s, sep);
  }

  lemma SliceOfSuffix(s: string, a: nat, q: nat, n: nat)
    requires a + q + n <= |s|
    ensures s[a..][q..q + n] == s[a + q..a + q + n]
    ensures q > 0 ==> s[a..][q - 1] == s[a + q - 1]
  {
  }

  /** One step of a split: the piece before the first separator `i`, then the split of the rest. */
  lemma SplitUnfold(s: string, sep: char) returns (i: int)
    ensures -1 <= i < |s|
    ensures i < 0 ==> SplitOn(s, sep) == [s]
    ensures i >= 0 ==> s[i] == sep && SplitOn(s, sep)[0] == s[..i] && SplitOn(s, sep)[1..] == SplitOn(s[i + 1..], sep)
  {
    i := IndexOf(s, sep);
  }

  /** Where piece `k` of a split begins: at the start of `s` or just after a separator. */
  lemma {:induction false} PieceStart(s: string, sep: char, k: nat) returns (p: nat)
    requires k < |SplitOn(s, sep)|
    ensures p + |SplitOn(s, sep)[k]| <= |s|
    ensures p > 0 ==> s[p - 1] == sep
    ensures s[p..p + |SplitOn(s, sep)[k]|] == SplitOn(s, sep)[k]
    decreases |s|
  {
    var i := SplitUnfold(s, sep);
    if i < 0 || k == 0 {
      p := 0;
    } else {
      var q := PieceStart(s[i + 1..], sep, k - 1);
      p := PieceStep(s, sep, k, i, q);
    }
  }

  /** Piece `k` of `s` is piece `k - 1` of the text after the first separator `i`. */
  lemma PieceStep(s: string, sep: char, k: nat, i: nat, q: nat) returns (p: nat)
    requires i < |s| && s[i] == sep && 0 < k < |SplitOn(s, sep)|
    requires SplitOn(s, sep)[1..] == SplitOn(s[i + 1..], sep)
    requires var rest, piece := s[i + 1..], SplitOn(s[i + 1..], sep)[k - 1];
      && q + |piece| <= |rest| && (q > 0 ==> rest[q - 1] == sep) && rest[q..q + |piece|] == piece
    ensures p + |SplitOn(s, sep)[k]| <= |s|
    ensures p > 0 ==> s[p - 1] == sep
    ensures s[p..p + |SplitOn(s, sep)[k]|] == SplitOn(s, sep)[k]
  {
    var piece := SplitOn(s[i + 1..], sep)[k - 1];
    assert SplitOn(s, sep)[k] == piece;
    ShiftPiece(s, i + 1, q, piece, sep);
    p := i + 1 + q;
  }

  /** A piece found at `q` in `s[a..]`, after a separator, sits at `a + q` in `s`. */
  lemma ShiftPiece(s: string, a: nat, q: nat, piece: string, sep: char)
    requires 0 < a && a + q + |piece| <= |s| && s[a - 1] == sep
    requires s[a..][q..q + |piece|] == piece
    requires q > 0 ==> s[a..][q - 1] == sep
    ensures s[a + q..a + q + |piece|] == piece
    ensures s[a + q - 1] == sep
  {
    SliceOfSuffix(s, a, q, |piece|);
  }

  /** `s.split(c).length` is one more than the number of occurrences of `c`. */
  lemma {:induction false} SplitCount(s: string, sep: char)
    ensures |SplitOn(s, sep)| == multiset(s)[sep] + 1
    decreases |s|
  {
    var i := SplitUnfold(s, sep);
    if i >= 0 {
      SplitCount(s[i + 1..], sep);
      ConcatAtSeparator(s, i);
      assert multiset(s) == multiset(s[..i]) + multiset{sep} + multiset(s[i + 1..]);
      assert sep !in s[..i] by {
        IndexOfCut(s, sep);
      }
    } else {
      assert multiset(s)[sep] == 0 by {
        IndexOfAbsent(s, sep);
      }
    }
  }

  // ---------------------------------------------------------------------------
  // split on /\s+/

  /** The first white-space position of `s`, or -1. */
  function IndexOfSpace(s: string): (r: int)
    ensures -1 <= r < |s|
    ensures r == -1 <==> NoSpace(s)
    ensures r >= 0 ==> IsSpace(s[r]) && NoSpace(s[..r])
    decreases |s|
  {
    if |s| == 0 then -1
    else if IsSpace(s[0]) then 0
    else
      var k := IndexOfSpace(s[1..]);
      if k < 0 then -1
      else
        assert s[..k + 1] == [s[0]] + s[1..][..k];
        k + 1
  }

  /** `s.split(/\s+/)`: the pieces between maximal white-space runs (empty at a white-space end). */
  function SplitWs(s: string): (r: seq<string>)
    ensures |r| >= 1
    decreases |s|
  {
    var i := IndexOfSpace(s);
    if i < 0 then [s] else [s[..i]] + SplitWs(TrimStart(s[i + 1..]))
  }

  /** One unfolding of SplitWs at the first white-space position `i`. */
  lemma SplitWsStep(s: string, i: int)
    requires i == IndexOfSpace(s) && i >= 0
    ensures SplitWs(s)[0] == s[..i]
    ensures SplitWs(s)[1..] == SplitWs(TrimStart(s[i + 1..]))
    ensures NoSpace(s[..i])
  {
  }

  /** No piece of `split(/\s+/)` contains white space. */
  lemma {:induction false} SplitWsPiecesHaveNoSpace(s: string)
    ensures forall k :: 0 <= k < |SplitWs(s)| ==> NoSpace(SplitWs(s)[k])
    decreases |s|
  {
    var i := IndexOfSpace(s);
    if i >= 0 {
      var t := TrimStart(s[i + 1..]);
      SplitWsPiecesHaveNoSpace(t);
      SplitWsStep(s, i);
      var r := SplitWs(s);
      forall k | 0 <= k < |r|
        ensures NoSpace(r[k])
      {
        if k > 0 {
          assert r[k] == r[1..][k - 1];
        }
      }
    }
  }

  /** Every character of a piece of `split(/\s+/)` comes from the split string. */
  lemma {:induction false} SplitWsPiecesFrom(s: string)
    ensures forall k, c :: 0 <= k < |SplitWs(s)| && c in SplitWs(s)[k] ==> c in s
    decreases |s|
  {
    var i := IndexOfSpace(s);
    if i >= 0 {
      var t := TrimStart(s[i + 1..]);
      SplitWsPiecesFrom(t);
      SplitWsStep(s, i);
      var r := SplitWs(s);
      assert forall c :: c in t ==> c in s by {
        assert t == s[i + 1..][LeadingSpaces(s[i + 1..])..];
      }
      forall k, c | 0 <= k < |r| && c in r[k]
        ensures c in s
      {
        if k > 0 {
          assert r[k] == r[1..][k - 1];
        }
      }
    }
  }

  /** The number of maximal runs of non-white-space characters: the token count of the text. */
  function Runs(s: string): nat
    decreases |s|
  {
    if |s| == 0 then 0
    else if IsSpace(s[0]) then Runs(s[1..])
    else
      var i := IndexOfSpace(s);
      if i < 0 then 1 else 1 + Runs(s[i..])
  }

  lemma {:induction false} RunsAfterSpaces(s: string, k: nat)
    requires k <= |s| && forall j :: 0 <= j < k ==> IsSpace(s[j])
    ensures Runs(s) == Runs(s[k..])
    decreases k
  {
    if k > 0 {
      RunsAfterSpaces(s[1..], k - 1);
      assert s[1..][k - 1..] == s[k..];
    }
  }

  /** In trimmed text, the rest after the first white-space run is trimmed, non-empty, and holds one token less. */
  lemma TrimmedRestAfterSpace(s: string, i: int)
    requires IsTrimmed(s) && |s| > 0 && i == IndexOfSpace(s) && i >= 0
    ensures var t := TrimStart(s[i + 1..]); IsTrimmed(t) && 0 < |t| < |s| && Runs(s) == 1 + Runs(t)
  {
    assert 0 < i < |s| - 1;
    var u := s[i..];
    var n := LeadingSpaces(u);
    assert n < |u| by {
      assert u[|u| - 1] == s[|s| - 1];
    }
    assert TrimStart(s[i + 1..]) == u[n..] by {
      assert s[i + 1..] == u[1..];
      assert LeadingSpaces(u) == 1 + LeadingSpaces(u[1..]);
      assert u[1..][n - 1..] == u[n..];
    }
    var t := u[n..];
    assert t[0] == u[n];
    assert t[|t| - 1] == s[|s| - 1];
    RunsAfterSpaces(u, n);
  }

  /**
   * For trimmed, non-empty text (every parsed message content) the piece count of
   * `split(/\s+/)` is the number of white-space separated tokens, and no piece is empty.
   */
  lemma {:induction false} SplitWsCountsTokens(s: string)
    requires IsTrimmed(s) && |s| > 0
    ensures |SplitWs(s)| == Runs(s)
    ensures forall k :: 0 <= k < |SplitWs(s)| ==> |SplitWs(s)[k]| > 0
    decreases |s|
  {
    var i := IndexOfSpace(s);
    if i >= 0 {
      var t := TrimStart(s[i + 1..]);
      TrimmedRestAfterSpace(s, i);
      SplitWsStep(s, i);
      SplitWsCountsTokens(t);
      var r := SplitWs(s);
      forall k | 0 <= k < |r|
        ensures |r[k]| > 0
      {
        if k > 0 {
          assert r[k] == r[1..][k - 1];
        }
      }
    }
  }

  // ---------------------------------------------------------------------------
  // numbers

  function DigitChar(d: nat): char
    requires d < 10
  {
    ('0' as int + d) as char
  }

  function DigitValue(c: char): nat
    requires IsDigit(c)
  {
    c as int - '0' as int
  }

  /** Template-literal rendering of a natural number (`${n}`). */
  function NatToString(n: nat): (r: string)
    ensures |r| >= 1 && AllDigits(r)
    ensures |r| > 1 ==> r[0] != '0'
    decreases n
  {
    if n < 10 then [DigitChar(n)] else NatToString(n / 10) + [DigitChar(n % 10)]
  }

  /** The decimal value of a digit string (what `parseInt` computes on one). */
  function DecimalValue(s: string): nat
    requires AllDigits(s)
    decreases |s|
  {
    if |s| == 0 then 0 else 10 * DecimalValue(s[..|s| - 1]) + DigitValue(s[|s| - 1])
  }

  /** Reading back a rendered number gives the number. */
  lemma {:induction false} DecimalOfNatToString(n: nat)
    ensures DecimalValue(NatToString(n)) == n
    decreases n
  {
    if n >= 10 {
      var r := NatToString(n);
      assert r[..|r| - 1] == NatToString(n / 10);
      DecimalOfNatToString(n / 10);
    }
  }

  /** Decimal rendering is injective. */
  lemma NatToStringInjective(a: nat, b: nat)
    requires NatToString(a) == NatToString(b)
    ensures a == b
  {
    DecimalOfNatToString(a);
    DecimalOfNatToString(b);
  }

  /** The length of the longest digit prefix of `s[i..]`. */
  function DigitRun(s: string, i: nat): (r: nat)
    ensures i + r <= |s| || (i > |s| && r == 0)
    ensures i <= |s| ==> AllDigits(s[i..i + r])
    ensures i + r < |s| ==> !IsDigit(s[i + r])
    decreases |s| - i
  {
    if i < |s| && IsDigit(s[i]) then
      var k := DigitRun(s, i + 1);
      assert s[i..i + 1 + k] == [s[i]] + s[i + 1..i + 1 + k];
      1 + k
    else 0
  }

  predicate IsHexDigit(c: char) {
    IsDigit(c) || ('a' <= c <= 'f') || ('A' <= c <= 'F')
  }

  function HexValue(c: char): nat
    requires IsHexDigit(c)
  {
    if IsDigit(c) then DigitValue(c)
    else if 'a' <= c <= 'f' then c as int - 'a' as int + 10
    else c as int - 'A' as int + 10
  }

  /** The value of the longest prefix of `s` in the given radix, and its length. */
  function RadixPrefix(s: string, hex: bool, acc: nat): (r: (nat, nat))
    decreases |s|
  {
    if |s| > 0 && (if hex then IsHexDigit(s[0]) else IsDigit(s[0])) then
      var d := if hex then HexValue(s[0]) else DigitValue(s[0]);
      var r := RadixPrefix(s[1..], hex, acc * (if hex then 16 else 10) + d);
      (r.0, r.1 + 1)
    else (acc, 0)
  }

  /**
   * `parseInt(s)` with no radix: leading white space, an optional sign, a `0x`
   * prefix selecting base 16, then the longest digit prefix; None is NaN.
   */
  function ParseInt(s: string): Option<int> {
    var t := TrimStart(s);
    var neg := |t| > 0 && t[0] == '-';
    var u := if |t| > 0 && (t[0] == '-' || t[0] == '+') then t[1..] else t;
    var hex := StartsWith(u, "0x") || StartsWith(u, "0X");
    var digits := if hex then u[2..] else u;
    var (value, len) := RadixPrefix(digits, hex, 0);
    if len == 0 then None
    else Some(if neg then 0 - value as int else value as int)
  }

  lemma {:induction false} RadixPrefixOfDigits(s: string, acc: nat)
    requires AllDigits(s)
    ensures RadixPrefix(s, false, acc).1 == |s|
    ensures RadixPrefix(s, false, acc).0 == acc * Pow10(|s|) + DecimalValue(s)
    decreases |s|
  {
    if |s| > 0 {
      var d := DigitValue(s[0]);
      var p := Pow10(|s| - 1);
      var rest := RadixPrefix(s[1..], false, acc * 10 + d);
      assert RadixPrefix(s, false, acc) == (rest.0, rest.1 + 1);
      RadixPrefixOfDigits(s[1..], acc * 10 + d);
      DecimalValueFront(s);
      ShiftDigit(acc, d, p);
    }
  }

  /** `10 (d p + x) == d (10 p) + 10 x`. */
  lemma ScaleSum(d: int, p: int, x: int)
    ensures 10 * (d * p + x) == d * (10 * p) + 10 * x
  {
  }

  /** `(10 acc + d) p == acc (10 p) + d p`. */
  lemma ShiftDigit(acc: int, d: int, p: int)
    ensures (acc * 10 + d) * p == acc * (10 * p) + d * p
  {
  }

  function Pow10(n: nat): nat {
    if n == 0 then 1 else 10 * Pow10(n - 1)
  }

  lemma {:induction false} DecimalValueFront(s: string)
    requires AllDigits(s) && |s| > 0
    ensures DecimalValue(s) == DigitValue(s[0]) * Pow10(|s| - 1) + DecimalValue(s[1..])
    decreases |s|
  {
    if |s| > 1 {
      var a := s[..|s| - 1];
      var t := s[1..];
      assert a[1..] == t[..|t| - 1];
      assert a[0] == s[0] && t[|t| - 1] == s[|s| - 1];
      assert AllDigits(a) && AllDigits(t);
      DecimalValueFront(a);
      var d, p, x := DigitValue(s[0]), Pow10(|a| - 1), DecimalValue(a[1..]);
      assert DecimalValue(s) == 10 * (d * p + x) + DigitValue(s[|s| - 1]);
      assert DecimalValue(t) == 10 * x + DigitValue(s[|s| - 1]);
      ScaleSum(d, p, x);
    } else {
      assert s[..0] == [];
    }
  }

  /** On a non-empty digit string (every captured `\d{n}` group), `parseInt` is the decimal value. */
  lemma ParseIntOfDigits(s: string)
    requires |s| > 0 && AllDigits(s)
    ensures ParseInt(s) == Some(DecimalValue(s))
  {
    assert LeadingSpaces(s) == 0;
    assert TrimStart(s) == s;
    assert !StartsWith(s, "0x") && !StartsWith(s, "0X") by {
      if |s| >= 2 {
        assert IsDigit(s[1]);
        assert s[..2][1] == s[1];
      }
    }
    RadixPrefixOfDigits(s, 0);
  }

  /** `parseInt` reads back every rendered natural number. */
  lemma ParseIntOfNatToString(n: nat)
    ensures ParseInt(NatToString(n)) == Some(n)
  {
    ParseIntOfDigits(NatToString(n));
    DecimalOfNatToString(n);
  }

  /** Template-literal rendering of an integer: a minus sign before negative values. */
  function IntToString(i: int): (r: string)
    ensures |r| >= 1
  {
    if i < 0 then "-" + NatToString(-i) else NatToString(i)
  }

  /** Integer rendering is injective. */
  lemma IntToStringInjective(a: int, b: int)
    requires IntToString(a) == IntToString(b)
    ensures a == b
  {
    if a < 0 && b < 0 {
      assert IntToString(a)[1..] == NatToString(-a);
      assert IntToString(b)[1..] == NatToString(-b);
      NatToStringInjective(-a, -b);
    } else if a >= 0 && b >= 0 {
      NatToStringInjective(a, b);
    }
  }

  /** `n` copies of `c`. */
  function Repeat(c: char, n: nat): (r: string)
    ensures |r| == n && forall i :: 0 <= i < n ==> r[i] == c
  {
    seq(n, i => c)
  }

  /** `s.padStart(n, '0')`. */
  function PadZeros(s: string, n: nat): (r: string)
    ensures |r| == if |s| < n then n else |s|
    ensures r == Repeat('0', |r| - |s|) + s
  {
    if |s| < n then Repeat('0', n - |s|) + s else
      assert Repeat('0', 0) + s == s;
      s
  }

  lemma {:induction false} DecimalValueAppend(a: string, b: string)
    requires AllDigits(a) && AllDigits(b)
    ensures AllDigits(a + b)
    ensures DecimalValue(a + b) == DecimalValue(a) * Pow10(|b|) + DecimalValue(b)
    decreases |b|
  {
    if |b| == 0 {
      assert a + b == a;
    } else {
      assert (a + b)[..|a + b| - 1] == a + b[..|b| - 1];
      DecimalValueAppend(a, b[..|b| - 1]);
      assert Pow10(|b|) == 10 * Pow10(|b| - 1);
    }
  }

  lemma {:induction false} DecimalValueZeros(n: nat)
    ensures AllDigits(Repeat('0', n)) && DecimalValue(Repeat('0', n)) == 0
    decreases n
  {
    if n > 0 {
      assert Repeat('0', n)[..n - 1] == Repeat('0', n - 1);
      DecimalValueZeros(n - 1);
    }
  }

  /** Zero padding keeps the digits and the value. */
  lemma PadZerosValue(s: string, n: nat)
    requires AllDigits(s)
    ensures AllDigits(PadZeros(s, n)) && DecimalValue(PadZeros(s, n)) == DecimalValue(s)
  {
    var z := Repeat('0', |PadZeros(s, n)| - |s|);
    DecimalValueZeros(|z|);
    DecimalValueAppend(z, s);
  }

  // ---------------------------------------------------------------------------
  // ordering

  /** Code-point lexicographic order (the order `localeCompare` gives on the date keys). */
  predicate LexLe(a: string, b: string)
    decreases |a|
  {
    |a| == 0 || (|b| > 0 && (a[0] < b[0] || (a[0] == b[0] && LexLe(a[1..], b[1..]))))
  }

  lemma {:induction false} LexLeTotal(a: string, b: string)
    ensures LexLe(a, b) || LexLe(b, a)
    decreases |a|
  {
    if |a| > 0 && |b| > 0 && a[0] == b[0] {
      LexLeTotal(a[1..], b[1..]);
    }
  }

  lemma {:induction false} LexLeAntisymmetric(a: string, b: string)
    requires LexLe(a, b) && LexLe(b, a)
    ensures a == b
    decreases |a|
  {
    if |a| > 0 && |b| > 0 {
      LexLeAntisymmetric(a[1..], b[1..]);
      assert a == [a[0]] + a[1..];
      assert b == [b[0]] + b[1..];
    }
  }

  lemma {:induction false} LexLeTransitive(a: string, b: string, c: string)
    requires LexLe(a, b) && LexLe(b, c)
    ensures LexLe(a, c)
    decreases |a|
  {
    if |a| > 0 && |b| > 0 && |c| > 0 && a[0] == b[0] && b[0] == c[0] {
      LexLeTransitive(a[1..], b[1..], c[1..]);
    }
  }

  /** Sorted ascending in code-point order. */
  predicate LexSorted(s: seq<string>) {
    forall i, j :: 0 <= i < j < |s| ==> LexLe(s[i], s[j])
  }

  /** Inserts `x` after every element not above it. */
  function InsertLex(s: seq<string>, x: string): (r: seq<string>)
    ensures |r| == |s| + 1
    ensures multiset(r) == multiset(s) + multiset{x}
    decreases |s|
  {
    if |s| == 0 || LexLe(s[|s| - 1], x) then s + [x]
    else
      var last := s[|s| - 1];
      assert s == s[..|s| - 1] + [last];
      InsertLex(s[..|s| - 1], x) + [last]
  }

  lemma {:induction false} InsertLexSorted(s: seq<string>, x: string)
    requires LexSorted(s)
    ensures LexSorted(InsertLex(s, x))
    decreases |s|
  {
    if |s| > 0 && LexLe(s[|s| - 1], x) {
      forall i | 0 <= i < |s| - 1
        ensures LexLe(s[i], x)
      {
        LexLeTransitive(s[i], s[|s| - 1], x);
      }
    } else if |s| > 0 {
      var p := s[..|s| - 1];
      var last := s[|s| - 1];
      InsertLexSorted(p, x);
      var q := InsertLex(p, x);
      LexLeTotal(last, x);
      forall i | 0 <= i < |q|
        ensures LexLe(q[i], last)
      {
        assert q[i] in multiset(q);
        if q[i] != x {
          assert q[i] in multiset(p);
          var j :| 0 <= j < |p| && p[j] == q[i];
          assert s[j] == p[j];
        }
      }
    }
  }

  /** The strings in ascending code-point order: `sort((a, b) => a.localeCompare(b))` on keys of digits and dashes. */
  function SortLex(s: seq<string>): (r: seq<string>)
    ensures |r| == |s|
    ensures multiset(r) == multiset(s)
    ensures LexSorted(r)
    decreases |s|
  {
    if |s| == 0 then []
    else
      var p := SortLex(s[..|s| - 1]);
      InsertLexSorted(p, s[|s| - 1]);
      assert s == s[..|s| - 1] + [s[|s| - 1]];
      InsertLex(p, s[|s| - 1])
  }
}
