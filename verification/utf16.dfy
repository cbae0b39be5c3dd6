/**
 * JavaScript strings are sequences of UTF-16 code units: `length`,
 * `substring` and `slice` count and cut units, and a code point above
 * U+FFFF takes two of them (a surrogate pair). This module relates the
 * model's strings, which are sequences of code points, to their UTF-16 form.
 */
module Utf16 {
  /** A UTF-16 code unit. */
  newtype Unit = x: int | 0 <= x < 0x1_0000

  /** A JavaScript string as it is stored: code units, possibly with unpaired surrogates. */
  type Units = seq<Unit>

  predicate IsSurrogate(u: Unit) {
    0xD800 <= u < 0xE000
  }

  /** A code point above U+FFFF, which UTF-16 writes as a surrogate pair. */
  predicate IsAstral(c: char) {
    c as int >= 0x1_0000
  }

  /** The units of one code point. */
  function EncodeChar(c: char): (r: Units)
    ensures |r| == if IsAstral(c) then 2 else 1
    ensures !IsAstral(c) ==> r == [c as int as Unit] && !IsSurrogate(r[0])
    ensures IsAstral(c) ==> IsSurrogate(r[0]) && IsSurrogate(r[1])
  {
    if IsAstral(c) then
      var v := c as int - 0x1_0000;
      [(0xD800 + v / 0x400) as Unit, (0xDC00 + v % 0x400) as Unit]
    else [c as int as Unit]
  }

  /** The UTF-16 encoding of a string (what a JavaScript engine holds). */
  function Encode(s: string): (r: Units)
    ensures |r| >= |s|
    decreases |s|
  {
    if |s| == 0 then [] else Encode(s[..|s| - 1]) + EncodeChar(s[|s| - 1])
  }

  /** `s.length` in JavaScript: the number of UTF-16 code units. */
  function Utf16Length(s: string): (n: nat)
    ensures n == |Encode(s)|
  {
    |Encode(s)|
  }

  /** Each code point adds one unit, or two above U+FFFF. */
  lemma Utf16LengthSnoc(s: string, k: nat)
    requires k < |s|
    ensures Utf16Length(s[..k + 1]) == Utf16Length(s[..k]) + (if IsAstral(s[k]) then 2 else 1)
    ensures Encode(s[..k + 1]) == Encode(s[..k]) + EncodeChar(s[k])
  {
    assert s[..k + 1][..k] == s[..k];
  }

  /** Encoding distributes over concatenation. */
  lemma {:induction false} EncodeAppend(a: string, b: string)
    ensures Encode(a + b) == Encode(a) + Encode(b)
    decreases |b|
  {
    if |b| == 0 {
      assert a + b == a;
    } else {
      var q := b[..|b| - 1];
      assert (a + b)[..|a + b| - 1] == a + q;
      EncodeAppend(a, q);
    }
  }

  /** The encoding of a prefix is a prefix of the encoding. */
  lemma EncodePrefix(s: string, k: nat)
    requires k <= |s|
    ensures Utf16Length(s[..k]) <= Utf16Length(s)
    ensures Encode(s[..k]) == Encode(s)[..Utf16Length(s[..k])]
  {
    assert s == s[..k] + s[k..];
    EncodeAppend(s[..k], s[k..]);
  }

  /** Without code points above U+FFFF, every code point is one unit. */
  lemma {:induction false} Utf16LengthOfBmp(s: string)
    requires forall i :: 0 <= i < |s| ==> !IsAstral(s[i])
    ensures Utf16Length(s) == |s|
    decreases |s|
  {
    if |s| > 0 {
      Utf16LengthOfBmp(s[..|s| - 1]);
    }
  }

  /**
   * The units read back as characters for the text functions that inspect a
   * stored value: a unit that is not a surrogate is its own code point, and
   * every surrogate reads as U+FFFD. Prefix tests against ASCII, `split(':')`
   * and `parseInt` cannot tell a surrogate from any other character that is
   * neither a digit, a sign, a letter, a colon nor white space.
   */
  function Readable(u: Units): (s: string)
    ensures |s| == |u|
    ensures forall i :: 0 <= i < |u| && !IsSurrogate(u[i]) ==> s[i] as int == u[i] as int
    ensures forall i :: 0 <= i < |u| && IsSurrogate(u[i]) ==> s[i] == '\U{FFFD}'
  {
    seq(|u|, i requires 0 <= i < |u| => if IsSurrogate(u[i]) then '\U{FFFD}' else u[i] as int as char)
  }

  /** A string of code points up to U+FFFF reads back from its encoding unchanged. */
  lemma {:induction false} ReadableEncodeBmp(s: string)
    requires forall i :: 0 <= i < |s| ==> !IsAstral(s[i]) && !('\U{D7FF}' < s[i] < '\U{E000}')
    ensures Readable(Encode(s)) == s
    decreases |s|
  {
    if |s| > 0 {
      var p := s[..|s| - 1];
      ReadableEncodeBmp(p);
      Utf16LengthOfBmp(p);
      Utf16LengthOfBmp(s);
      var e := Encode(s);
      assert e == Encode(p) + EncodeChar(s[|s| - 1]);
      forall i | 0 <= i < |s|
        ensures Readable(e)[i] == s[i]
      {
        if i < |p| {
          assert e[i] == Encode(p)[i];
          assert Readable(Encode(p))[i] == p[i];
        }
      }
    }
  }

  /**
   * The longest prefix of `s` whose encoding fits in `n` units: the code
   * points `s.substring(0, n)` keeps whole.
   */
  function Utf16Prefix(s: string, n: nat): (p: string)
    ensures |p| <= |s| && p == s[..|p|]
    ensures Utf16Length(p) <= n
    ensures |p| < |s| ==> Utf16Length(s[..|p| + 1]) > n
    decreases |s|
  {
    if Utf16Length(s) <= n then
      assert s[..|s|] == s;
      s
    else
      var q := s[..|s| - 1];
      var p := Utf16Prefix(q, n);
      assert s[..|p|] == q[..|p|];
      if |p| < |q| then
        assert s[..|p| + 1] == q[..|p| + 1];
        p
      else
        assert q == s[..|s| - 1] && p == q;
        p
  }

  /**
   * The prefix is `n` units long unless the unit at index `n - 1` is the
   * first half of a surrogate pair, which is then left out with its second
   * half.
   */
  lemma Utf16PrefixLength(s: string, n: nat)
    requires n < Utf16Length(s)
    ensures var p := Utf16Prefix(s, n);
      && |p| < |s|
      && (Utf16Length(p) == n || (Utf16Length(p) + 1 == n && IsAstral(s[|p|])))
  {
    var p := Utf16Prefix(s, n);
    assert s[..|s|] == s;
    Utf16LengthSnoc(s, |p|);
  }
}
