/**
 * The word tables of the analytics — positive and negative keywords, the
 * affection subset, the stop words — and the keyword and emoji counts made
 * of a message.
 */
module Lexicon {
  import opened Text

  const PositiveKeywords: seq<string> := [
    "amour", "love", "adorable", "magnifique", "merveilleux", "g\U{00E9}nial", "super", "parfait",
    "excellent", "fantastique", "incroyable", "formidable", "heureux", "joie", "sourire",
    "rire", "bisou", "c\U{00E2}lin", "ch\U{00E9}ri", "b\U{00E9}b\U{00E9}", "coeur",
    "\U{2764}\U{FE0F}", "\U{1F495}", "\U{1F496}", "\U{1F618}", "\U{1F60D}", "\U{1F970}"
  ]

  const NegativeKeywords: seq<string> := [
    "triste", "sad", "horrible", "nul", "terrible", "affreux", "d\U{00E9}prim\U{00E9}", "\U{00E9}nerv\U{00E9}",
    "col\U{00E8}re", "furieux", "d\U{00E9}teste", "hate", "ennuyeux", "fatigue", "stress", "probl\U{00E8}me",
    "inquiet", "peur", "angoisse", "\U{1F622}", "\U{1F62D}", "\U{1F620}", "\U{1F621}", "\U{1F61E}", "\U{1F614}", "\U{1F630}"
  ]

  /** The positive keywords that also count as affection words. */
  const AffectionKeywords: seq<string> := ["amour", "love", "ch\U{00E9}ri", "b\U{00E9}b\U{00E9}", "coeur"]

  /** The function words the word cloud drops (the table repeats a few entries). */
  const StopWords: seq<string> := [
    "le", "de", "et", "\U{00E0}", "un", "il", "\U{00EA}tre", "et", "en", "avoir", "que", "pour",
    "dans", "ce", "son", "une", "sur", "avec", "ne", "se", "pas", "tout", "plus",
    "par", "grand", "celui", "me", "te", "si", "la", "du", "des", "les", "mais",
    "ou", "o\U{00F9}", "donc", "car", "ni", "or", "je", "tu", "nous", "vous", "ils",
    "elles", "mon", "ton", "son", "ma", "ta", "sa", "mes", "tes", "ses", "notre",
    "votre", "leur", "this", "that", "the", "and", "or", "but", "in", "on", "at",
    "to", "for", "of", "with", "by", "is", "are", "was", "were", "be", "been",
    "have", "has", "had", "do", "does", "did", "will", "would", "could", "should"
  ]

  /** `keywords.map(k => k.toLowerCase())`. */
  function LowerEach(keywords: seq<string>): (r: seq<string>)
    ensures |r| == |keywords|
    ensures forall i :: 0 <= i < |keywords| ==> r[i] == ToLower(keywords[i])
  {
    seq(|keywords|, i requires 0 <= i < |keywords| => ToLower(keywords[i]))
  }

  /** A string `toLowerCase` leaves alone. */
  predicate IsLower(s: string) {
    forall i :: 0 <= i < |s| ==> LowerChar(s[i]) == s[i]
  }

  lemma LowerOfLower(s: string)
    requires IsLower(s)
    ensures ToLower(s) == s
  {
  }

  /** The tables are written in lower case, so lower-casing a keyword does not change it. */
  lemma KeywordTablesAreLowerCase()
    ensures LowerEach(PositiveKeywords) == PositiveKeywords
    ensures LowerEach(NegativeKeywords) == NegativeKeywords
  {
    PositiveTableIsLowerCase();
    NegativeTableIsLowerCase();
  }

  lemma PositiveTableIsLowerCase()
    ensures LowerEach(PositiveKeywords) == PositiveKeywords
  {
    PositiveLower0();
    PositiveLower1();
    PositiveLower2();
    TableIsLowerCase(PositiveKeywords);
  }

  lemma PositiveLower0()
    ensures forall i :: 0 <= i < 9 ==> IsLower(PositiveKeywords[i])
  {
  }

  lemma PositiveLower1()
    ensures forall i :: 9 <= i < 18 ==> IsLower(PositiveKeywords[i])
  {
  }

  lemma PositiveLower2()
    ensures forall i :: 18 <= i < 27 ==> IsLower(PositiveKeywords[i])
  {
  }

  lemma NegativeTableIsLowerCase()
    ensures LowerEach(NegativeKeywords) == NegativeKeywords
  {
    NegativeLower0();
    NegativeLower1();
    NegativeLower2();
    TableIsLowerCase(NegativeKeywords);
  }

  lemma NegativeLower0()
    ensures forall i :: 0 <= i < 9 ==> IsLower(NegativeKeywords[i])
  {
  }

  lemma NegativeLower1()
    ensures forall i :: 9 <= i < 18 ==> IsLower(NegativeKeywords[i])
  {
  }

  lemma NegativeLower2()
    ensures forall i :: 18 <= i < 26 ==> IsLower(NegativeKeywords[i])
  {
  }

  /** A table of lower-case entries is its own lower-casing. */
  lemma TableIsLowerCase(keywords: seq<string>)
    requires forall i :: 0 <= i < |keywords| ==> IsLower(keywords[i])
    ensures LowerEach(keywords) == keywords
  {
    forall i | 0 <= i < |keywords|
      ensures ToLower(keywords[i]) == keywords[i]
    {
      LowerOfLower(keywords[i]);
    }
  }

  /** The affection words are exactly positive keywords. */
  lemma AffectionWordsArePositive()
    ensures forall k :: k in AffectionKeywords ==> k in PositiveKeywords
  {
    assert AffectionKeywords[0] == PositiveKeywords[0];
    assert AffectionKeywords[1] == PositiveKeywords[1];
    assert AffectionKeywords[2] == PositiveKeywords[18];
    assert AffectionKeywords[3] == PositiveKeywords[19];
    assert AffectionKeywords[4] == PositiveKeywords[20];
  }

  /**
   * How many entries of `keywords` occur in `content` and, when `only` is
   * given, belong to it: `forEach(k => { if (content.includes(k)) n++ })`.
   * Each entry adds at most one, however often it occurs.
   */
  function Hits(content: string, keywords: seq<string>): (n: nat)
    ensures n <= |keywords|
    decreases |keywords|
  {
    if |keywords| == 0 then 0
    else Hits(content, keywords[..|keywords| - 1]) + (if Contains(content, keywords[|keywords| - 1]) then 1 else 0)
  }

  /** The hits among the entries that are also in `sel`. */
  function HitsAmong(content: string, keywords: seq<string>, sel: seq<string>): (n: nat)
    ensures n <= Hits(content, keywords)
    decreases |keywords|
  {
    if |keywords| == 0 then 0
    else
      var k := keywords[|keywords| - 1];
      HitsAmong(content, keywords[..|keywords| - 1], sel) + (if Contains(content, k) && k in sel then 1 else 0)
  }

  /** A keyword list counts exactly the entries that occur: each one adds one when, and only when, it occurs. */
  lemma {:induction false} HitsOfAppend(content: string, keywords: seq<string>, k: string)
    ensures Hits(content, keywords + [k]) == Hits(content, keywords) + (if Contains(content, k) then 1 else 0)
  {
    assert (keywords + [k])[..|keywords|] == keywords;
  }

  /** The emoji ranges of `analyzeEmotions`. */
  predicate IsEmoji(c: char) {
    ('\U{1F600}' <= c <= '\U{1F64F}') || ('\U{1F300}' <= c <= '\U{1F5FF}') || ('\U{1F680}' <= c <= '\U{1F6FF}')
    || ('\U{1F1E0}' <= c <= '\U{1F1FF}') || ('\U{2600}' <= c <= '\U{26FF}') || ('\U{2700}' <= c <= '\U{27BF}')
  }

  /** `(content.match(emojiRegex) || []).length`: one match per emoji code point. */
  function EmojiCount(s: string): (n: nat)
    ensures n <= |s|
    decreases |s|
  {
    if |s| == 0 then 0 else EmojiCount(s[..|s| - 1]) + (if IsEmoji(s[|s| - 1]) then 1 else 0)
  }
}
