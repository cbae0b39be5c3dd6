/**
 * The ranking behind the global search box: conversations whose display
 * name matches (relevance 100), participants whose name matches (90), and
 * up to 20 matching messages per conversation (80 down to 61), sorted by
 * relevance and cut to 50.
 */
module Search {
  import opened Wrappers
  import opened Text
  import opened Seqs
  import opened DateTime
  import opened Model
  import opened Utf16

  const MaxResults := 50
  const MaxMessageHitsPerConversation := 20
  const PreviewLength := 100

  datatype ResultType = ConversationResult | ParticipantResult | MessageResult

  /** One entry of the result list. */
  datatype SearchResult = SearchResult(
    kind: ResultType,
    id: string,
    title: string,
    subtitle: string,
    conversationId: string,
    conversationName: string,
    relevance: int)

  /** `conversation.customName || conversation.name`: an empty custom name falls back to the name. */
  function DisplayName(c: Conversation): string {
    match c.customName
    case Some(n) => if n != "" then n else c.name
    case None => c.name
  }

  /** `text.toLowerCase().includes(term)`. */
  predicate Matches(text: string, term: string) {
    Contains(ToLower(text), term)
  }

  /** `message.timestamp.getTime()`: milliseconds since the epoch. */
  function EpochMillis(t: Timestamp): int {
    t.minutes * 60000
  }

  /**
   * The message preview: the content when it is at most 100 UTF-16 units
   * long, otherwise `content.substring(0, 100)` followed by `...`. The cut
   * keeps the first 100 units, one fewer when the hundredth is the first
   * half of a surrogate pair.
   */
  function Preview(content: string): (p: string)
    ensures Utf16Length(content) <= PreviewLength ==> p == content
    ensures Utf16Length(content) > PreviewLength ==>
      |p| >= 3 && p[|p| - 3..] == "..." &&
      var cut := p[..|p| - 3];
      && |cut| < |content| && cut == content[..|cut|]
      && Utf16Length(cut) <= Utf16Length(content)
      && Encode(cut) == Encode(content)[..Utf16Length(cut)]
      && (Utf16Length(cut) == PreviewLength
          || (Utf16Length(cut) + 1 == PreviewLength && IsAstral(content[|cut|])))
  {
    if Utf16Length(content) > PreviewLength then
      var cut := Utf16Prefix(content, PreviewLength);
      Utf16PrefixLength(content, PreviewLength);
      EncodePrefix(content, |cut|);
      var p := cut + "...";
      assert p[..|p| - 3] == cut && p[|p| - 3..] == "...";
      p
    else content
  }

  /** The conversation's own result, present exactly when its display name matches. */
  function ConversationHits(c: Conversation, term: string): (r: seq<SearchResult>)
    ensures |r| <= 1
    ensures |r| == 1 <==> Matches(DisplayName(c), term)
    ensures forall x :: x in r ==> x.kind == ConversationResult && x.relevance == 100 && x.title == DisplayName(c)
  {
    var name := DisplayName(c);
    if Matches(name, term) then
      [SearchResult(ConversationResult, c.id, name, IntToString(c.messageCount) + " messages", c.id, name, 100)]
    else []
  }

  /** The participant result for `p` in `c`. */
  function ParticipantResultOf(c: Conversation, p: string): SearchResult {
    SearchResult(ParticipantResult, c.id + "-" + p, p, "Dans " + DisplayName(c), c.id, DisplayName(c), 90)
  }

  /** How many results in `r` are titled `t`. */
  function TitledCount(r: seq<SearchResult>, t: string): nat
    decreases |r|
  {
    if |r| == 0 then 0 else TitledCount(r[..|r| - 1], t) + (if r[|r| - 1].title == t then 1 else 0)
  }

  /**
   * One participant result (relevance 90) per matching entry of `ps`, in
   * order: every name that matches is listed as often as it occurs, and no
   * other name is listed.
   */
  function ParticipantHits(c: Conversation, ps: seq<string>, term: string): (r: seq<SearchResult>)
    ensures |r| <= |ps|
    ensures forall x :: x in r ==> x.kind == ParticipantResult && x.relevance == 90 && x.title in ps && Matches(x.title, term)
    ensures forall p :: TitledCount(r, p) == if Matches(p, term) then multiset(ps)[p] else 0
    decreases |ps|
  {
    if |ps| == 0 then []
    else
      var p := ps[|ps| - 1];
      assert ps == ps[..|ps| - 1] + [p];
      var prev := ParticipantHits(c, ps[..|ps| - 1], term);
      if Matches(p, term) then
        var r := prev + [ParticipantResultOf(c, p)];
        assert r[..|r| - 1] == prev;
        r
      else prev
  }

  /** `messages.filter(m => m.content.toLowerCase().includes(term))`. */
  function MatchingMessages(ms: seq<Message>, term: string): (r: seq<Message>)
    ensures |r| <= |ms|
    ensures forall m :: m in r <==> m in ms && Matches(m.content, term)
    decreases |ms|
  {
    if |ms| == 0 then []
    else
      var prev := MatchingMessages(ms[..|ms| - 1], term);
      assert ms == ms[..|ms| - 1] + [ms[|ms| - 1]];
      if Matches(ms[|ms| - 1].content, term) then prev + [ms[|ms| - 1]] else prev
  }

  /** The result for the `k`-th matching message of `c`. */
  function MessageResultOf(c: Conversation, m: Message, k: int, localeString: Timestamp -> string): SearchResult {
    SearchResult(MessageResult, c.id + "-" + IntToString(EpochMillis(m.timestamp)), Preview(m.content),
                 m.sender + " - " + localeString(m.timestamp), c.id, DisplayName(c), 80 - k)
  }

  /**
   * The first 20 matching messages, the `k`-th with relevance `80 - k` and
   * its preview as title: at most 20 results with relevances in 61..80.
   */
  function MessageHits(c: Conversation, term: string, localeString: Timestamp -> string): (r: seq<SearchResult>)
    ensures var matching := MatchingMessages(c.messages, term);
      && |r| == (if |matching| < MaxMessageHitsPerConversation then |matching| else MaxMessageHitsPerConversation)
      && forall k :: 0 <= k < |r| ==>
        && r[k].kind == MessageResult
        && r[k].relevance == 80 - k
        && 61 <= r[k].relevance <= 80
        && r[k].title == Preview(matching[k].content)
  {
    var top := Take(MatchingMessages(c.messages, term), MaxMessageHitsPerConversation);
    seq(|top|, k requires 0 <= k < |top| => MessageResultOf(c, top[k], k, localeString))
  }

  /** Every result one conversation contributes, in push order. */
  function ConversationResults(c: Conversation, term: string, localeString: Timestamp -> string): seq<SearchResult> {
    ConversationHits(c, term) + ParticipantHits(c, c.participants, term) + MessageHits(c, term, localeString)
  }

  /** The relevance tells the kind: 100 for a conversation, 90 for a participant, 61..80 for a message. */
  predicate Ranked(x: SearchResult) {
    || (x.kind == ConversationResult && x.relevance == 100)
    || (x.kind == ParticipantResult && x.relevance == 90)
    || (x.kind == MessageResult && 61 <= x.relevance <= 80)
  }

  /** All results of all conversations, before sorting. */
  function Candidates(cs: seq<Conversation>, term: string, localeString: Timestamp -> string): (r: seq<SearchResult>)
    ensures forall x :: x in r ==> Ranked(x)
    decreases |cs|
  {
    if |cs| == 0 then []
    else
      var c := cs[|cs| - 1];
      var mine := ConversationResults(c, term, localeString);
      assert forall x :: x in mine ==> Ranked(x) by {
        var h := MessageHits(c, term, localeString);
        assert forall k :: 0 <= k < |h| ==> Ranked(h[k]);
      }
      Candidates(cs[..|cs| - 1], term, localeString) + mine
  }

  /** The sort key of `(a, b) => b.relevance - a.relevance`. */
  function ByRelevanceDesc(x: SearchResult): int {
    -x.relevance
  }

  /** `!query.trim() || query.length < 2`, the length counted in UTF-16 units. */
  predicate Blank(query: string) {
    Trim(query) == "" || Utf16Length(query) < 2
  }

  /**
   * A query of one character is blank unless that character lies above
   * U+FFFF (an emoji): JavaScript counts it as two units and searches for it.
   */
  lemma OneCharacterQuery(c: char)
    requires !IsSpace(c)
    ensures Blank([c]) <==> !IsAstral(c)
  {
    assert Encode([c]) == Encode([c][..0]) + EncodeChar(c);
    TrimEmptyIff([c]);
  }

  /** `results.sort((a, b) => b.relevance - a.relevance).slice(0, 50)`. */
  function TopByRelevance(all: seq<SearchResult>): (r: seq<SearchResult>)
    ensures |r| == (if |all| < MaxResults then |all| else MaxResults)
    ensures forall i, j :: 0 <= i < j < |r| ==> r[i].relevance >= r[j].relevance
    ensures multiset(r) <= multiset(all)
  {
    var sorted := SortByKey(all, ByRelevanceDesc);
    var r := Take(sorted, MaxResults);
    PrefixSubMultiset(sorted, |r|);
    SortedPrefix(sorted, ByRelevanceDesc, |r|);
    RelevanceOrder(r);
    r
  }

  /** Ascending by `ByRelevanceDesc` is descending by relevance. */
  lemma RelevanceOrder(r: seq<SearchResult>)
    requires SortedByKey(r, ByRelevanceDesc)
    ensures forall i, j :: 0 <= i < j < |r| ==> r[i].relevance >= r[j].relevance
  {
    forall i, j | 0 <= i < j < |r|
      ensures r[i].relevance >= r[j].relevance
    {
      assert ByRelevanceDesc(r[i]) <= ByRelevanceDesc(r[j]);
    }
  }

  /**
   * The cut keeps the best: any candidate it dropped (one more copy than it
   * kept) ranks no higher than every result.
   */
  lemma TopKeepsBest(all: seq<SearchResult>, x: SearchResult)
    ensures var r := TopByRelevance(all);
      multiset(r)[x] < multiset(all)[x] ==> forall i :: 0 <= i < |r| ==> x.relevance <= r[i].relevance
  {
    var sorted := SortByKey(all, ByRelevanceDesc);
    var r := TopByRelevance(all);
    assert r == sorted[..|r|];
    if multiset(r)[x] < multiset(all)[x] {
      PrefixKeepsBest(sorted, ByRelevanceDesc, |r|, x);
    }
  }

  /** Among results of equal relevance, the cut keeps the first ones found, in the order they were found. */
  lemma TopKeepsOrder(all: seq<SearchResult>, k: int)
    ensures WithKey(TopByRelevance(all), ByRelevanceDesc, k) <= WithKey(all, ByRelevanceDesc, k)
  {
    var sorted := SortByKey(all, ByRelevanceDesc);
    var r := TopByRelevance(all);
    assert r == Take(sorted, MaxResults);
    var rest := sorted[|r|..];
    assert sorted == r + rest;
    WithKeyAppend(r, rest, ByRelevanceDesc, k);
    SortByKeyStable(all, ByRelevanceDesc, k);
  }

  /**
   * `searchResults`: nothing for a blank or one-character query; otherwise
   * the 50 best candidates for the lower-cased query (all of them when there
   * are fewer), by decreasing relevance.
   */
  function SearchResults(cs: seq<Conversation>, query: string, localeString: Timestamp -> string): (r: seq<SearchResult>)
    ensures Blank(query) ==> r == []
    ensures |r| <= MaxResults
    ensures forall i, j :: 0 <= i < j < |r| ==> r[i].relevance >= r[j].relevance
    ensures !Blank(query) ==> var all := Candidates(cs, ToLower(query), localeString);
      && multiset(r) <= multiset(all)
      && |r| == (if |all| < MaxResults then |all| else MaxResults)
  {
    if Blank(query) then [] else TopByRelevance(Candidates(cs, ToLower(query), localeString))
  }

  /** Every dropped candidate ranks no higher than every result, and ties keep the order they were found in. */
  lemma SearchKeepsTop(cs: seq<Conversation>, query: string, localeString: Timestamp -> string, x: SearchResult, k: int)
    requires !Blank(query)
    ensures var all := Candidates(cs, ToLower(query), localeString);
      var r := SearchResults(cs, query, localeString);
      && (multiset(r)[x] < multiset(all)[x] ==> forall i :: 0 <= i < |r| ==> x.relevance <= r[i].relevance)
      && WithKey(r, ByRelevanceDesc, k) <= WithKey(all, ByRelevanceDesc, k)
  {
    var all := Candidates(cs, ToLower(query), localeString);
    assert SearchResults(cs, query, localeString) == TopByRelevance(all);
    TopKeepsBest(all, x);
    TopKeepsOrder(all, k);
  }

  /** A conversation contributes a conversation result exactly when its display name contains the term. */
  lemma ConversationResultIff(c: Conversation, term: string, localeString: Timestamp -> string)
    ensures var r := ConversationResults(c, term, localeString);
      (exists i :: 0 <= i < |r| && r[i].kind == ConversationResult) <==> Matches(DisplayName(c), term)
  {
    var head := ConversationHits(c, term);
    var parts := ParticipantHits(c, c.participants, term);
    var msgs := MessageHits(c, term, localeString);
    assert forall k :: 0 <= k < |msgs| ==> msgs[k].kind == MessageResult;
    OnlyHeadIsConversation(head, parts, msgs);
  }

  /** Behind the head, participant and message results hold no conversation result. */
  lemma OnlyHeadIsConversation(head: seq<SearchResult>, parts: seq<SearchResult>, msgs: seq<SearchResult>)
    requires forall x :: x in head ==> x.kind == ConversationResult
    requires forall x :: x in parts ==> x.kind == ParticipantResult
    requires forall k :: 0 <= k < |msgs| ==> msgs[k].kind == MessageResult
    ensures var r := head + parts + msgs;
      (exists i :: 0 <= i < |r| && r[i].kind == ConversationResult) <==> |head| > 0
  {
    var r := head + parts + msgs;
    if |head| > 0 {
      assert r[0] == head[0];
    }
    forall i | |head| <= i < |r|
      ensures r[i].kind != ConversationResult
    {
      if i < |head| + |parts| {
        assert r[i] == parts[i - |head|];
      } else {
        assert r[i] == msgs[i - |head| - |parts|];
      }
    }
  }

  /** Two multisets, one inside the other, of the same size are equal. */
  lemma SubMultisetOfSameSize<T>(a: multiset<T>, b: multiset<T>)
    requires a <= b && |a| == |b|
    ensures a == b
  {
    var d := b - a;
    assert b == a + d;
    assert |d| == 0;
  }

  /** With at most 50 candidates nothing is cut: the results are the candidates, reordered. */
  lemma SearchKeepsAllWhenFew(cs: seq<Conversation>, query: string, localeString: Timestamp -> string)
    requires !Blank(query)
    requires |Candidates(cs, ToLower(query), localeString)| <= MaxResults
    ensures multiset(SearchResults(cs, query, localeString)) == multiset(Candidates(cs, ToLower(query), localeString))
  {
    var all := Candidates(cs, ToLower(query), localeString);
    var r := SearchResults(cs, query, localeString);
    SubMultisetOfSameSize(multiset(r), multiset(all));
  }

  /** Conversation results lead the list: nothing ranks above one, and only conversation results have relevance 100. */
  lemma ConversationsFirst(cs: seq<Conversation>, query: string, localeString: Timestamp -> string, i: int, j: int)
    requires !Blank(query)
    requires var r := SearchResults(cs, query, localeString);
      0 <= i < j < |r| && r[j].kind == ConversationResult
    ensures SearchResults(cs, query, localeString)[i].kind == ConversationResult
  {
    var all := Candidates(cs, ToLower(query), localeString);
    assert SearchResults(cs, query, localeString) == TopByRelevance(all);
    TopConversationsFirst(all, i, j);
  }

  lemma TopConversationsFirst(all: seq<SearchResult>, i: int, j: int)
    requires forall x :: x in all ==> Ranked(x)
    requires var r := TopByRelevance(all);
      0 <= i < j < |r| && r[j].kind == ConversationResult
    ensures TopByRelevance(all)[i].kind == ConversationResult
  {
    var r := TopByRelevance(all);
    assert r[i] in multiset(all) && r[j] in multiset(all);
    assert Ranked(r[i]) && Ranked(r[j]);
  }
}
