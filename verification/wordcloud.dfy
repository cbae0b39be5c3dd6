/**
 * `generateWordCloud`: every message is lower-cased, scrubbed of everything
 * but ASCII word characters and white space, split into words; words of
 * three or more characters that are not stop words are counted, and the
 * most frequent `limit` of them are returned, most frequent first.
 */
module WordCloud {
  import opened Text
  import opened Seqs
  import opened Model
  import opened Lexicon

  datatype Category = Positive | Negative | Neutral

  /** One entry of the cloud. */
  datatype WordFrequency = WordFrequency(word: string, count: int, category: Category)

  /** The default `limit`. */
  const DefaultLimit := 50

  // ---------------------------------------------------------------------------
  // the words of a message

  /** `.replace(/[^\w\s]/g, ' ')`: word characters and white space stay, anything else becomes a space. */
  function Scrub(s: string): (r: string)
    ensures |r| == |s|
    ensures forall i :: 0 <= i < |s| ==> IsWordChar(r[i]) || IsSpace(r[i])
    ensures forall i :: 0 <= i < |s| && (IsWordChar(s[i]) || IsSpace(s[i])) ==> r[i] == s[i]
  {
    seq(|s|, i requires 0 <= i < |s| => if IsWordChar(s[i]) || IsSpace(s[i]) then s[i] else ' ')
  }

  /** The filter: longer than two characters and not a stop word. */
  predicate Kept(w: string) {
    |w| > 2 && w !in StopWords
  }

  /** `words.filter(Kept)`, in order. */
  function KeepWords(ws: seq<string>): (r: seq<string>)
    ensures forall w :: w in r <==> w in ws && Kept(w)
    ensures forall w :: Kept(w) ==> multiset(r)[w] == multiset(ws)[w]
    ensures forall w :: !Kept(w) ==> multiset(r)[w] == 0
    decreases |ws|
  {
    if |ws| == 0 then []
    else
      var p := ws[..|ws| - 1];
      var w := ws[|ws| - 1];
      assert ws == p + [w];
      KeepWords(p) + (if Kept(w) then [w] else [])
  }

  /** The counted words of one message, in order. */
  function CloudWords(content: string): (ws: seq<string>)
    ensures forall w :: w in ws ==> Kept(w) && AllWordChars(w)
  {
    var pieces := SplitWs(Scrub(ToLower(content)));
    SplitWsPiecesFrom(Scrub(ToLower(content)));
    SplitWsPiecesHaveNoSpace(Scrub(ToLower(content)));
    PiecesAreWords(Scrub(ToLower(content)), pieces);
    KeepWords(pieces)
  }

  lemma PiecesAreWords(s: string, pieces: seq<string>)
    requires forall i :: 0 <= i < |s| ==> IsWordChar(s[i]) || IsSpace(s[i])
    requires forall k, c :: 0 <= k < |pieces| && c in pieces[k] ==> c in s
    requires forall k :: 0 <= k < |pieces| ==> NoSpace(pieces[k])
    ensures forall w :: w in pieces ==> AllWordChars(w)
  {
    forall w | w in pieces
      ensures AllWordChars(w)
    {
      var k :| 0 <= k < |pieces| && pieces[k] == w;
      forall i | 0 <= i < |w|
        ensures IsWordChar(w[i])
      {
        assert w[i] in pieces[k];
        assert w[i] in s;
        var j :| 0 <= j < |s| && s[j] == w[i];
      }
    }
  }

  /** The counted words of all messages, message by message. */
  function Stream(ms: seq<Message>): (ws: seq<string>)
    ensures forall w :: w in ws ==> Kept(w) && AllWordChars(w)
    decreases |ms|
  {
    if |ms| == 0 then [] else Stream(ms[..|ms| - 1]) + CloudWords(ms[|ms| - 1].content)
  }

  // ---------------------------------------------------------------------------
  // counting

  /** Every word paired with 1: the `(wordCount.get(word) || 0) + 1` fold's input. */
  function Ones(ws: seq<string>): (kw: seq<(string, int)>)
    ensures |kw| == |ws|
    ensures forall i :: 0 <= i < |ws| ==> kw[i] == (ws[i], 1)
  {
    seq(|ws|, i requires 0 <= i < |ws| => (ws[i], 1))
  }

  lemma {:induction false} WeightOfOnes(ws: seq<string>, w: string)
    ensures WeightOf(Ones(ws), w) == multiset(ws)[w]
    decreases |ws|
  {
    if |ws| > 0 {
      var p := ws[..|ws| - 1];
      WeightOfOnes(p, w);
      assert Ones(ws)[..|ws| - 1] == Ones(p);
      assert ws == p + [ws[|ws| - 1]];
    }
  }

  /** `POSITIVE_KEYWORDS.includes(word) ? 'positive' : NEGATIVE_KEYWORDS.includes(word) ? 'negative' : 'neutral'`. */
  function CategoryOf(w: string): Category {
    if w in PositiveKeywords then Positive else if w in NegativeKeywords then Negative else Neutral
  }

  /** The entries of the count map, in insertion order (first appearance). */
  function Entries(keys: seq<string>, counts: map<string, int>): (r: seq<WordFrequency>)
    requires forall k :: k in keys ==> k in counts
    ensures |r| == |keys|
    ensures forall i :: 0 <= i < |keys| ==> r[i] == WordFrequency(keys[i], counts[keys[i]], CategoryOf(keys[i]))
  {
    seq(|keys|, i requires 0 <= i < |keys| => WordFrequency(keys[i], counts[keys[i]], CategoryOf(keys[i])))
  }

  /** `b.count - a.count` as an ascending key. */
  function ByCountDesc(e: WordFrequency): int {
    -e.count
  }

  /** The words of a cloud, in order. */
  function WordList(r: seq<WordFrequency>): (ws: seq<string>)
    ensures |ws| == |r|
    ensures forall i :: 0 <= i < |r| ==> ws[i] == r[i].word
  {
    seq(|r|, i requires 0 <= i < |r| => r[i].word)
  }

  /** Each entry holds its word's number of occurrences in `ws` (at least one) and its category. */
  predicate Counted(r: seq<WordFrequency>, ws: seq<string>) {
    forall i :: 0 <= i < |r| ==>
      r[i].count == multiset(ws)[r[i].word] >= 1 && r[i].category == CategoryOf(r[i].word)
  }

  /** Entries are in non-increasing order of count. */
  predicate ByCount(r: seq<WordFrequency>) {
    forall i, j :: 0 <= i < j < |r| ==> r[i].count >= r[j].count
  }

  /**
   * The whole cloud before the cut: every counted word once, with its count
   * and category, most frequent first.
   */
  function FullCloud(ms: seq<Message>): (r: seq<WordFrequency>)
    ensures NoDup(WordList(r))
    ensures forall w :: w in WordList(r) <==> w in Stream(ms)
    ensures Counted(r, Stream(ms)) && ByCount(r)
  {
    var ws := Stream(ms);
    var counts := Tally(Ones(ws));
    var keys := Distinct(ws);
    assert KeysOf(Ones(ws)) == ws;
    var e := Entries(keys, counts);
    var r := SortByKey(e, ByCountDesc);
    CloudFacts(ws, keys, counts, e, r);
    r
  }

  lemma CloudFacts(ws: seq<string>, keys: seq<string>, counts: map<string, int>, e: seq<WordFrequency>, r: seq<WordFrequency>)
    requires NoDup(keys) && forall k :: k in keys <==> k in ws
    requires forall k :: k in counts <==> k in ws
    requires forall k :: k in counts ==> counts[k] == WeightOf(Ones(ws), k)
    requires forall k :: k in keys ==> k in counts
    requires e == Entries(keys, counts)
    requires multiset(r) == multiset(e) && SortedByKey(r, ByCountDesc)
    ensures NoDup(WordList(r))
    ensures forall w :: w in WordList(r) <==> w in ws
    ensures Counted(r, ws) && ByCount(r)
  {
    PermutedWords(keys, counts, e, r);
    assert Counted(e, ws) by {
      forall i | 0 <= i < |e|
        ensures e[i].count == multiset(ws)[e[i].word] >= 1
      {
        WeightOfOnes(ws, keys[i]);
        assert keys[i] in keys;
        assert keys[i] in ws;
        assert keys[i] in multiset(ws);
      }
    }
    PermutedCounted(e, r, ws);
    SortedByCount(r);
  }

  /** A permutation of the entries of distinct keys lists those keys once each. */
  lemma PermutedWords(keys: seq<string>, counts: map<string, int>, e: seq<WordFrequency>, r: seq<WordFrequency>)
    requires NoDup(keys) && forall k :: k in keys ==> k in counts
    requires e == Entries(keys, counts)
    requires multiset(r) == multiset(e)
    ensures NoDup(WordList(r))
    ensures forall w :: w in WordList(r) <==> w in keys
  {
    PermutationMembers(e, r);
    DistinctWordsPermuted(e, r);
    SameWordsPermuted(keys, counts, e, r);
  }

  /** A permutation of entries with distinct words has distinct words. */
  lemma DistinctWordsPermuted(e: seq<WordFrequency>, r: seq<WordFrequency>)
    requires NoDup(WordList(e)) && multiset(r) == multiset(e)
    ensures NoDup(WordList(r))
  {
    assert NoDup(e) by {
      forall i, j | 0 <= i < j < |e|
        ensures e[i] != e[j]
      {
        assert WordList(e)[i] != WordList(e)[j];
      }
    }
    NoDupPermutation(e, r);
    PermutationMembers(e, r);
    forall i, j | 0 <= i < j < |r|
      ensures WordList(r)[i] != WordList(r)[j]
    {
      assert r[i] in e && r[j] in e;
      var a :| 0 <= a < |e| && e[a] == r[i];
      var b :| 0 <= b < |e| && e[b] == r[j];
      assert WordList(e)[a] == r[i].word && WordList(e)[b] == r[j].word;
    }
  }

  /** A permutation of the entries of `keys` holds exactly the words of `keys`. */
  lemma SameWordsPermuted(keys: seq<string>, counts: map<string, int>, e: seq<WordFrequency>, r: seq<WordFrequency>)
    requires forall k :: k in keys ==> k in counts
    requires e == Entries(keys, counts)
    requires forall x :: x in r <==> x in e
    ensures forall w :: w in WordList(r) <==> w in keys
  {
    forall w
      ensures w in WordList(r) <==> w in keys
    {
      if w in keys {
        var j :| 0 <= j < |keys| && keys[j] == w;
        assert e[j] in r;
        var i :| 0 <= i < |r| && r[i] == e[j];
        assert WordList(r)[i] == w;
      }
      if w in WordList(r) {
        var i :| 0 <= i < |r| && WordList(r)[i] == w;
        assert r[i] in e;
        var a :| 0 <= a < |e| && e[a] == r[i];
      }
    }
  }

  /** Permuting entries keeps each entry's count and category. */
  lemma PermutedCounted(e: seq<WordFrequency>, r: seq<WordFrequency>, ws: seq<string>)
    requires Counted(e, ws) && multiset(r) == multiset(e)
    ensures Counted(r, ws)
  {
    PermutationMembers(e, r);
    forall i | 0 <= i < |r|
      ensures r[i].count == multiset(ws)[r[i].word] >= 1 && r[i].category == CategoryOf(r[i].word)
    {
      assert r[i] in e;
    }
  }

  lemma SortedByCount(r: seq<WordFrequency>)
    requires SortedByKey(r, ByCountDesc)
    ensures ByCount(r)
  {
    forall i, j | 0 <= i < j < |r|
      ensures r[i].count >= r[j].count
    {
      assert ByCountDesc(r[i]) <= ByCountDesc(r[j]);
    }
  }

  /** The words of `keys` that occur exactly `c` times in `ws`, in the order of `keys`. */
  function WordsCounted(keys: seq<string>, ws: seq<string>, c: int): (r: seq<string>)
    decreases |keys|
  {
    if |keys| == 0 then []
    else
      var k := keys[|keys| - 1];
      WordsCounted(keys[..|keys| - 1], ws, c) + (if multiset(ws)[k] == c then [k] else [])
  }

  lemma {:induction false} WordListAppend(a: seq<WordFrequency>, b: seq<WordFrequency>)
    ensures WordList(a + b) == WordList(a) + WordList(b)
  {
  }

  /** Picking the entries of count `c` out of the entries of `keys` picks the keys counted `c` times. */
  lemma {:induction false} EntriesWithCount(keys: seq<string>, counts: map<string, int>, ws: seq<string>, c: int)
    requires forall k :: k in keys ==> k in counts && counts[k] == multiset(ws)[k]
    ensures WordList(WithKey(Entries(keys, counts), ByCountDesc, -c)) == WordsCounted(keys, ws, c)
    decreases |keys|
  {
    if |keys| > 0 {
      var p := keys[..|keys| - 1];
      var k := keys[|keys| - 1];
      var e := Entries(keys, counts);
      assert e[..|e| - 1] == Entries(p, counts);
      EntriesWithCount(p, counts, ws, c);
      var last := if ByCountDesc(e[|e| - 1]) == -c then [e[|e| - 1]] else [];
      assert WithKey(e, ByCountDesc, -c) == WithKey(Entries(p, counts), ByCountDesc, -c) + last;
      WordListAppend(WithKey(Entries(p, counts), ByCountDesc, -c), last);
      assert WordList(last) == if multiset(ws)[k] == c then [k] else [];
    }
  }

  /**
   * Ties keep the order of first appearance: the words of the full cloud
   * with `c` occurrences are the distinct counted words with `c` occurrences,
   * in the order they first appear in the messages (the count map's insertion
   * order, which the stable sort keeps). The cut takes tied words in this order.
   */
  lemma FullCloudTieOrder(ms: seq<Message>, c: int)
    ensures WordList(WithKey(FullCloud(ms), ByCountDesc, -c)) == WordsCounted(Distinct(Stream(ms)), Stream(ms), c)
  {
    var ws := Stream(ms);
    var keys := Distinct(ws);
    var counts := Tally(Ones(ws));
    FullCloudIsSorted(ms);
    TallyOfOnes(ws);
    var e := Entries(keys, counts);
    CloudTiesStable(e, c);
    EntriesWithCount(keys, counts, ws, c);
  }

  lemma CloudTiesStable(e: seq<WordFrequency>, c: int)
    ensures WithKey(SortByKey(e, ByCountDesc), ByCountDesc, -c) == WithKey(e, ByCountDesc, -c)
  {
    SortByKeyStable(e, ByCountDesc, -c);
  }

  /** The full cloud is the stable sort of the count map's entries. */
  lemma FullCloudIsSorted(ms: seq<Message>)
    ensures forall k :: k in Distinct(Stream(ms)) ==> k in Tally(Ones(Stream(ms)))
    ensures FullCloud(ms) == SortByKey(Entries(Distinct(Stream(ms)), Tally(Ones(Stream(ms)))), ByCountDesc)
  {
    assert KeysOf(Ones(Stream(ms))) == Stream(ms);
  }

  /** The fold of ones counts each word's occurrences. */
  lemma TallyOfOnes(ws: seq<string>)
    ensures forall k :: k in Distinct(ws) ==> k in Tally(Ones(ws)) && Tally(Ones(ws))[k] == multiset(ws)[k]
  {
    assert KeysOf(Ones(ws)) == ws;
    forall k | k in Distinct(ws)
      ensures k in Tally(Ones(ws)) && Tally(Ones(ws))[k] == multiset(ws)[k]
    {
      WeightOfOnes(ws, k);
    }
  }

  /**
   * `generateWordCloud(conversations, limit)`: `.slice(0, limit)` of the
   * full cloud — its first `limit` entries for a non-negative limit, all but
   * the last `-limit` for a negative one.
   */
  function GenerateWordCloud(cs: seq<Conversation>, limit: int): (r: seq<WordFrequency>)
    ensures var full := FullCloud(AllMessages(cs));
      && |r| <= |full| && r == full[..|r|]
      && (limit >= 0 ==> |r| == if limit < |full| then limit else |full|)
      && (limit < 0 ==> |r| == if |full| + limit > 0 then |full| + limit else 0)
  {
    SliceHead(FullCloud(AllMessages(cs)), limit);
    Slice(FullCloud(AllMessages(cs)), 0, limit)
  }

  lemma PrefixFacts(full: seq<WordFrequency>, r: seq<WordFrequency>, ws: seq<string>)
    requires NoDup(WordList(full)) && Counted(full, ws) && ByCount(full)
    requires forall w :: w in WordList(full) <==> w in ws
    requires |r| <= |full| && r == full[..|r|]
    ensures NoDup(WordList(r)) && Counted(r, ws) && ByCount(r)
    ensures forall w :: w in WordList(r) ==> w in ws
    ensures forall w, i :: w in ws && w !in WordList(r) && 0 <= i < |r| ==> multiset(ws)[w] <= r[i].count
  {
    assert WordList(r) == WordList(full)[..|r|];
    PrefixLeavesLess(full, r, ws);
  }

  /** A word the prefix of a ranked cloud leaves out occurs no more often than any word it keeps. */
  lemma PrefixLeavesLess(full: seq<WordFrequency>, r: seq<WordFrequency>, ws: seq<string>)
    requires Counted(full, ws) && ByCount(full)
    requires forall w :: w in WordList(full) <==> w in ws
    requires |r| <= |full| && r == full[..|r|]
    ensures forall w, i :: w in ws && w !in WordList(r) && 0 <= i < |r| ==> multiset(ws)[w] <= r[i].count
  {
    forall w, i | w in ws && w !in WordList(r) && 0 <= i < |r|
      ensures multiset(ws)[w] <= r[i].count
    {
      var j := PositionOf(WordList(full), w);
      assert full[j].word == w;
      assert |r| <= j;
      assert r[i] == full[i];
    }
  }

  /**
   * The cloud holds distinct counted words with their counts and categories,
   * most frequent first, and is the top of the ranking: a counted word left
   * out occurs no more often than any word kept.
   */
  lemma WordCloudIsTop(cs: seq<Conversation>, limit: int)
    ensures var ms := AllMessages(cs);
      var r := GenerateWordCloud(cs, limit);
      && NoDup(WordList(r)) && Counted(r, Stream(ms)) && ByCount(r)
      && (forall w :: w in WordList(r) ==> w in Stream(ms))
      && (forall w, i :: w in Stream(ms) && w !in WordList(r) && 0 <= i < |r| ==> multiset(Stream(ms))[w] <= r[i].count)
  {
    var ms := AllMessages(cs);
    PrefixFacts(FullCloud(ms), GenerateWordCloud(cs, limit), Stream(ms));
  }

  /** With a limit at least the number of distinct words, every counted word appears. */
  lemma WordCloudComplete(cs: seq<Conversation>, limit: int, w: string)
    requires limit >= |Distinct(Stream(AllMessages(cs)))|
    requires w in Stream(AllMessages(cs))
    ensures w in WordList(GenerateWordCloud(cs, limit))
  {
    var ms := AllMessages(cs);
    var full := FullCloud(ms);
    FullCloudSize(ms);
    assert GenerateWordCloud(cs, limit) == full;
  }

  /** The full cloud has one entry per distinct counted word. */
  lemma FullCloudSize(ms: seq<Message>)
    ensures |FullCloud(ms)| == |Distinct(Stream(ms))|
  {
    var full := FullCloud(ms);
    NoDupSameElements(WordList(full), Distinct(Stream(ms)));
    assert |WordList(full)| == |multiset(WordList(full))|;
    assert |Distinct(Stream(ms))| == |multiset(Distinct(Stream(ms)))|;
  }

  /** Every word of the cloud is made of ASCII word characters. */
  lemma CloudWordsAreAscii(cs: seq<Conversation>, limit: int, e: WordFrequency)
    requires e in GenerateWordCloud(cs, limit)
    ensures AllWordChars(e.word)
  {
    WordCloudIsTop(cs, limit);
    var r := GenerateWordCloud(cs, limit);
    var i :| 0 <= i < |r| && r[i] == e;
    assert WordList(r)[i] == e.word;
  }

  /**
   * Accented keywords can never be categorised: the scrub removes their
   * non-ASCII letters, so no cloud word (`CloudWordsAreAscii`) equals one.
   */
  lemma AccentedKeywordsNeverCounted(w: string)
    requires AllWordChars(w)
    ensures w != "g\U{00E9}nial" && w != "ch\U{00E9}ri" && w != "b\U{00E9}b\U{00E9}"
  {
    assert "g\U{00E9}nial"[1] == '\U{00E9}' && "ch\U{00E9}ri"[2] == '\U{00E9}' && "b\U{00E9}b\U{00E9}"[1] == '\U{00E9}';
  }
}
