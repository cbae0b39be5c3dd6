# Chat-export parser and analytics, modelled in Dafny

This project models the logic of a chat-export viewer. The viewer reads
exported chat transcripts (WhatsApp, Instagram, Discord, SMS and a composite
"multi" format) and turns them into conversations. It then derives statistics
and analytics from them. The model has five parts:

- **The transcript parser.** This covers:
  - the line grammar `[d/m/yyyy, h:mm] Sender : content`;
  - header skipping;
  - date tokens turned into timestamps with the `Date` constructor's roll-over;
  - the conversation builder: stable sort by time, participants in order of first appearance, word count, start and end dates, file name without its extension;
  - the multi-section format: `[Platform](Name)` sections, one message counter for the whole file, empty sections dropped;
  - format detection and routing in `parseFile`;
  - the per-sender statistics.
- **The analytics engine.** This covers:
  - the day, week and month timeline;
  - the 24-bar hour histogram;
  - the keyword and emoji sentiment, with its clamped mood score computed in double arithmetic;
  - the word cloud: stop words, sort, cut and categories;
  - the per-participant rollup.
- **The lazy-loading chunk bookkeeping, the chunked storage and the memory buffer.**
  - The lazy loader tracks which chunks are loaded.
  - Chunked storage saves, loads and clears over a key/value store, modelled as a map from keys to sequences of UTF-16 code units.
  - The memory tracker keeps a bounded buffer of its last 100 measurements.
- **The virtual-scrolling window arithmetic.** This is modelled both for the scroller class and for the React hook.
- **The global search ranking.** This covers matching, relevance, sort and the cut to 50 results.

Modules follow the program's structure:

- Helpers:
  - `Wrappers`: `Option`.
  - `Arith`: floor and ceiling division.
  - `Seqs`: sums, distinct elements, the map fold, a stable sort.
  - `Text`: trimming, splitting, lower-casing, decimal numbers, lexicographic order.
  - `Utf16`: the UTF-16 encoding of a string, its length in code units and the prefix `substring` keeps.
  - `Binary64`: IEEE 754 double rounding of a quotient and of a product, and `Math.round`.
- The parser:
  - `DateTime`: timestamps and `parseDateTime`.
  - `Grammar`: the regular expressions, written as scanners.
  - `Model`: `Message`, `Conversation` and message ids.
  - `Builder`: `createConversation`.
  - `Parser`: `parseMessages` and `parseMultiFormat`.
  - `Routing`: `detectPlatform` and `parseFile`.
  - `Stats`: `calculateStats`.
- The analytics:
  - `Buckets`: per-key totals.
  - `Timeline`, `Hourly`, `Lexicon`, `Emotions`, `WordCloud`, `Activity`.
- The utilities:
  - `LazyLoading`, `ChunkedStorage`, `Viewport`, `Memory`, `Search`.

Every regular expression of the parser is written as an explicit scanner.
Each scanner has a soundness lemma and a completeness lemma. They relate it to
a declarative description of the language as a concatenation of pieces. The
multi-section parser is modelled twice:

- as the loop the source runs (`RunMulti`);
- as a reference decomposition of the lines into section blocks (`Blocks`, `Emit`).

A lemma proves the two equal, and the properties are proved on the reference.

Strings are sequences of code points. Where the source measures or cuts a
string by `length`, `substring` or `slice`, the model does it on the UTF-16
encoding: the search query's length, the search preview and the storage
chunks. The chunked store holds code units, so a chunk may end between the
two halves of a surrogate pair, as the browser's does.

`Math.round((p - n) / t * 100)` and `Math.round(words / messages)` are
computed as the source computes them: each division and product is rounded
to the nearest double, ties to even, before `Math.round` rounds halves up.
So an exact half such as 57.5 can come out as 57. An exact-rational
reference (`Emotions.RoundDiv`) is kept beside it, and a lemma says when the
two agree.

Where the code and the design description disagree, the model follows the code:

- The comma after the date is required; the description calls it optional.
- The participants are taken in first-appearance order of the unsorted
  messages. The description says the sorted ones.
- The timeline counts words with `split(' ')`, not with the parser's
  white-space tokens.

## Model

| member | source | states |
|---|---|---|
| Grammar.StripControls | src/utils/conversationParser.ts:35 | no carriage return, direction mark or byte-order mark survives the clean-up |
| Grammar.StripControlsKeeps | src/utils/conversationParser.ts:35 | the clean-up removes exactly the control characters: the remaining multiset is the input's minus its marks |
| Grammar.StripControlsAppend | src/utils/conversationParser.ts:35 | cleaning a concatenation cleans each part, so lines can be cleaned one by one |
| Grammar.MatchStampSound | src/utils/conversationParser.ts:39 | a recognised stamp is `[`, a date token, a comma, white space, a time token and `]` |
| Grammar.MatchStampComplete | src/utils/conversationParser.ts:39 | every text of that shape is recognised, with exactly its tokens and rest |
| Grammar.NoCommaNoStamp | src/utils/conversationParser.ts:39 | a line without a comma never matches: the comma after the date is mandatory |
| Grammar.TailMatchesIff | src/utils/conversationParser.ts:39 | the content check accepts a tail iff some split into white space and a non-empty, line-terminator-free rest exists |
| Grammar.MatchMessageLineSound | src/utils/conversationParser.ts:39 | an accepted line is a stamp, a non-empty colon-free sender field, a colon and an accepted tail |
| Grammar.MatchMessageLineComplete | src/utils/conversationParser.ts:39 | every line of that shape is accepted with exactly those parts |
| Grammar.HeaderIsNotMessage | src/utils/conversationParser.ts:43-45 | the four platform headers and `[Multi]` are never message lines |
| Grammar.MatchSectionSound | src/utils/conversationParser.ts:72 | an accepted section line is `[token](name)` with a `\w+` token and a non-empty name without `)` |
| Grammar.MatchSectionComplete | src/utils/conversationParser.ts:72 | every line of that shape is accepted with that token and name |
| Grammar.SectionIsNotMessage | src/utils/conversationParser.ts:72-73 | a section line is neither a message line, a header nor `[Multi]` |
| Grammar.MessageLineTriggersDetector | src/utils/conversationParser.ts:224-225 | a message line at the start of a line makes the detection pattern match there |
| Grammar.DetectorNeedsBracket | src/utils/conversationParser.ts:224 | a one-line text not starting with `[` never matches the detection pattern |
| DateTime.ParseDateTime | src/utils/conversationParser.ts:142-157 | a timestamp is produced iff the date is d/m/yyyy and the time h:mm in digits |
| DateTime.ParseFormatted | src/utils/conversationParser.ts:142-157 | round trip: formatting day, month, year, hours and minutes, zero-padded (`15/05/2025, 09:40`) or not (`15/5/2025, 9:40`), and parsing them gives the `Date` constructor's timestamp |
| DateTime.ParseFields | src/utils/conversationParser.ts:143-156 | a date and time of the two shapes give the timestamp of their captured fields read as decimals, the month minus one |
| DateTime.MakeTimestamp | src/utils/conversationParser.ts:150 | for hours 0..23 and minutes 0..59 the timestamp has that hour on the rolled-over day |
| DateTime.HourRollsOver | src/utils/conversationParser.ts:150 | hour 24 or more moves to the next day, as the constructor does |
| DateTime.MonthRollsOver | src/utils/conversationParser.ts:150 | month index 12 or more moves into the next year |
| DateTime.SameDayOrder | src/utils/conversationParser.ts:150 | on one day, a later hour and minute give a later timestamp |
| DateTime.Hour | src/utils/conversationParser.ts:150 | `getHours()` is always in 0..23, whatever fields built the date |
| DateTime.FullYear | src/utils/conversationParser.ts:150 | years 0..99 are read as 1900..1999 and other years are kept |
| Parser.LineFields | src/utils/conversationParser.ts:47-57 | fields are produced iff the grammar matches and the trimmed content is non-empty; then the sender is trimmed and colon-free and the content trimmed and non-empty |
| Parser.LineMessage | src/utils/conversationParser.ts:47-60 | a line yields a text message iff it yields fields, and the message carries the given id |
| Parser.NoMessageOnBlankOrMarker | src/utils/conversationParser.ts:82-84 | blank lines and `[Multi]` yield no message |
| Parser.FilterNonBlank | src/utils/conversationParser.ts:35 | the kept lines are non-blank lines of the input |
| Parser.FilterNonBlankAppend | src/utils/conversationParser.ts:35 | filtering a concatenation filters each part |
| Parser.SingleLineMessage | src/utils/conversationParser.ts:41-61 | a header line yields nothing; a message from the line at `index` has id `platform-index` and is a parsed text message |
| Parser.Numbered | src/utils/conversationParser.ts:41 | each hit records the position of the line it came from, in increasing order |
| Parser.NumberedComplete | src/utils/conversationParser.ts:41 | every line that yields a value appears among the hits with its position |
| Parser.SingleMessages | src/utils/conversationParser.ts:41-63 | every message comes from the line at its ordinal and the ids are pairwise distinct |
| Parser.SingleMessagesComplete | src/utils/conversationParser.ts:41-63 | every line that yields a message contributes it |
| Parser.ParseMessages | src/utils/conversationParser.ts:32-66 | the conversation is well formed, named after the file, and its messages are exactly the lines' messages, reordered, with distinct ids |
| Parser.ParseMessagesSound | src/utils/conversationParser.ts:41-61 | every message of the conversation is a parsed text message from the content line its id names |
| Parser.ParseMessagesComplete | src/utils/conversationParser.ts:41-65 | every message a content line yields is in the conversation |
| Parser.ParseMessagesRenderedIdsUnique | src/utils/conversationParser.ts:54 | the rendered `platform-index` ids are pairwise distinct |
| Parser.MapPlatformNameRoundTrip | src/utils/conversationParser.ts:133-140 | every platform's own name maps back to that platform |
| Parser.MapPlatformNameTokens | src/utils/conversationParser.ts:133-140 | the mapping ignores case and sends unknown tokens to whatsapp |
| Parser.SectionConversation | src/utils/conversationParser.ts:89-91 | a section's conversation holds the section's messages and is named, custom-named and platformed after the section |
| Parser.SectionConversationWellFormed | src/utils/conversationParser.ts:89-91 | a section's conversation satisfies the builder's invariants |
| Parser.SectionTokenNoDash | src/utils/conversationParser.ts:72 | a section token never contains `-`, so rendered ids stay unambiguous |
| Parser.RunMultiTracks | src/utils/conversationParser.ts:79-121 | loop invariant: after any prefix of lines the loop state is the open block, its messages, the shared counter and the emitted sections of the reference decomposition |
| Parser.ParseMultiFormatIsEmit | src/utils/conversationParser.ts:68-131 | the multi-format loop returns exactly the conversations of the non-empty section blocks |
| Parser.EmitOnePerNonEmptyBlock | src/utils/conversationParser.ts:86-128 | exactly one conversation per section with messages, in section order; empty sections are dropped |
| Parser.NonEmptyBlocks | src/utils/conversationParser.ts:88 | the positions of exactly the sections with messages, ascending |
| Parser.EmitIdsUnique | src/utils/conversationParser.ts:111 | the counter shared across sections makes every message id of the file distinct |
| Parser.ParseMultiFormatSections | src/utils/conversationParser.ts:86-128 | the k-th conversation is the k-th non-empty section, well formed, non-empty, with the section name as id and custom name and the mapped platform |
| Parser.ParseMultiFormatIdsUnique | src/utils/conversationParser.ts:77-111 | message ids are unique across the whole multi-section file |
| Parser.ParseMultiFormatMessages | src/utils/conversationParser.ts:109-117 | every multi-format message is a parsed text message and the rendered ids are distinct |
| Parser.BlocksIgnorePreamble | src/utils/conversationParser.ts:103 | lines before the first section line contribute no block |
| Parser.MultiIgnoresPreamble | src/utils/conversationParser.ts:103 | lines before the first section header do not change the result |
| Builder.StripExtension | src/utils/conversationParser.ts:183 | the name is a prefix of the file name, and when shorter it is cut at a dot followed by an extension without dot or slash |
| Builder.StripExtensionOf | src/utils/conversationParser.ts:183 | `base.ext` loses exactly `.ext` |
| Builder.StripExtensionNoDot | src/utils/conversationParser.ts:183 | a name without a dot is kept |
| Builder.CreateConversation | src/utils/conversationParser.ts:175-210 | the messages are a time-sorted permutation of the input; count, participants in first-appearance order, word count and first and last dates match; zero messages give zeros and the `now` dates |
| Builder.CreateConversationWellFormed | src/utils/conversationParser.ts:175-210 | the built conversation satisfies every invariant of a conversation |
| Builder.ParticipantsInFirstAppearanceOrder | src/utils/conversationParser.ts:194 | participants are ordered by where each sender first appears in the unsorted input |
| Builder.CreateConversationStable | src/utils/conversationParser.ts:197 | the sort is stable: messages with equal timestamps keep their input order |
| Builder.WordCountCountsTokens | src/utils/conversationParser.ts:195 | for trimmed non-empty contents the word count is the number of white-space-separated runs |
| Model.RenderIdInjective | src/utils/conversationParser.ts:54 | ids with dash-free tags render to distinct strings when they differ |
| Model.IdsUniquePermutation | src/utils/conversationParser.ts:197 | sorting keeps ids distinct |
| Model.WordsOfTrimmed | src/utils/conversationParser.ts:195 | the `/\s+/` piece count of a trimmed text is its number of runs |
| Model.SendersIff | src/utils/conversationParser.ts:194 | a name is among the senders iff some message has it as sender |
| Stats.CalculateStats | src/utils/conversationParser.ts:251-268 | totals and participants are copied; each table has exactly the senders, with each sender's message count (at least 1) and word count |
| Stats.StatsConserve | src/utils/conversationParser.ts:251-259 | over the participants, the per-sender counts sum to the message count and the word counts to the word count |
| Buckets.PerKey | src/utils/conversationParser.ts:255-259 | the map holds exactly the keys that occur, each with the total of its messages' weights |
| Buckets.PerKeyConserves | src/utils/conversationParser.ts:255-259 | summed over the distinct keys, the per-key totals equal the total weight |
| Routing.HeaderPlatform | src/utils/conversationParser.ts:218-221 | a platform is read iff the line is one of the four headers |
| Routing.HeaderRoundTrip | src/utils/conversationParser.ts:218-221 | each platform's header reads back as that platform |
| Routing.HeaderAgreesWithSections | src/utils/conversationParser.ts:133-140 | a header's bracketed word maps to the same platform in the section mapping |
| Routing.FirstLine | src/utils/conversationParser.ts:213-215 | the first line is trimmed and non-empty |
| Routing.FirstLineSkipsBlank | src/utils/conversationParser.ts:213 | blank leading lines are skipped |
| Routing.FirstLineOf | src/utils/conversationParser.ts:213-215 | the first non-blank line is taken, trimmed |
| Routing.ByPattern | src/utils/conversationParser.ts:224-229 | whatsapp iff the detection pattern matches somewhere, otherwise unknown |
| Routing.DetectPlatform | src/utils/conversationParser.ts:212-230 | multi iff the first line is `[Multi]`; unknown iff no header, no multi marker and no pattern match; a non-whatsapp platform only from its header |
| Routing.DetectHeader | src/utils/conversationParser.ts:218-221 | a file starting with a platform header is detected as that platform |
| Routing.DetectMulti | src/utils/conversationParser.ts:217 | a file starting with `[Multi]` is detected as multi |
| Routing.LineDetected | src/utils/conversationParser.ts:224-226 | a file with a message line among its raw lines is never unknown |
| Routing.Route | src/utils/conversationParser.ts:235-248 | unknown gives no conversation; a single platform exactly one with that platform and the file name as id; multi only custom-named non-empty ones |
| Routing.RouteSingle | src/utils/conversationParser.ts:238-245 | a single platform routes to the single-format parse, even when it finds no message |
| Routing.ParseFile | src/utils/conversationParser.ts:232-249 | unknown content gives no conversation and a detected platform exactly one |
| Routing.RouteInvariants | src/utils/conversationParser.ts:232-249 | every routed result is well formed, every message parsed, and ids and rendered ids unique |
| Routing.MultiFileInvariants | src/utils/conversationParser.ts:68-131 | the same for the multi-section parse |
| Routing.SingleFileInvariants | src/utils/conversationParser.ts:32-66 | the same for the single-format parse |
| Routing.MarkedExportIsDropped | src/utils/conversationParser.ts:212-230 | a one-line export behind a direction or byte-order mark is detected as unknown and dropped, although the parser reads one message from it |
| Routing.DetectPlatformFixed | src/utils/conversationParser.ts:212-230 | detection run on the cleaned text |
| Routing.ParseFileFixed | src/utils/conversationParser.ts:232-249 | routing after cleaned detection: unknown still gives no conversation |
| Routing.FixedDetectionKeepsMessages | src/utils/conversationParser.ts:212-230 | whenever the single-format parser finds a message, cleaned detection is not unknown |
| Routing.MarkedExportIsKept | src/utils/conversationParser.ts:232-249 | with cleaned detection the marked one-line export gives its one-message conversation |
| Timeline.WeekStart | src/utils/analytics.ts:66-67 | the week key's day is the Sunday on or before the message's day |
| Timeline.SameDaySameBucket | src/utils/analytics.ts:61-73 | messages of one day share their key for every period |
| Timeline.SameWeekSameBucket | src/utils/analytics.ts:65-68 | messages of one Sunday-to-Saturday week share the week key |
| Timeline.SpaceWordsIsNotWordsOf | src/utils/analytics.ts:78 | the timeline's single-space word count differs from the parser's white-space count |
| Timeline.TimelineKeys | src/utils/analytics.ts:83-85 | the keys are distinct, ascending, and exactly the keys of the messages |
| Timeline.GenerateTimeline | src/utils/analytics.ts:53-86 | entries have distinct ascending dates, one per occurring key, each counting its messages (at least 1) and their space-split words |
| Timeline.TimelineConserves | src/utils/analytics.ts:75-79 | the message counts sum to the number of messages and the word counts to the total word count |
| Hourly.HourHistogram | src/utils/analytics.ts:89-96 | 24 bars, bar h counting the accepted messages of hour h, summing to the accepted count |
| Hourly.GenerateHourlyActivity | src/utils/analytics.ts:88-99 | exactly 24 entries, entry h has hour h and the count of messages sent in hour h |
| Hourly.HourlyConserves | src/utils/analytics.ts:88-98 | the 24 counts sum to the number of messages |
| Lexicon.Hits | src/utils/analytics.ts:119-132 | a keyword adds at most one per message, so hits never exceed the table size |
| Lexicon.HitsOfAppend | src/utils/analytics.ts:119-132 | a keyword adds one exactly when the content contains it |
| Lexicon.HitsAmong | src/utils/analytics.ts:122-124 | affection hits are among the positive hits |
| Lexicon.KeywordTablesAreLowerCase | src/utils/analytics.ts:29-39 | lower-casing the keyword tables leaves them unchanged |
| Lexicon.AffectionWordsArePositive | src/utils/analytics.ts:122 | every affection word is a positive keyword |
| Lexicon.EmojiCount | src/utils/analytics.ts:114-116 | one count per emoji code point, never more than the length |
| Emotions.MessageBounds | src/utils/analytics.ts:119-132 | per message: affection ≤ positive ≤ 27 positive keywords, negative ≤ 26, emojis ≥ 0 |
| Emotions.RoundDiv | src/utils/analytics.ts:136 | the exact reference for `Math.round` of a quotient: within half of the exact rational quotient, halves rounding up |
| Emotions.RoundDivUnique | src/utils/analytics.ts:136 | that nearest integer is unique |
| Emotions.Clamp100 | src/utils/analytics.ts:141 | the result is in -100..100 and equals the input when it already is |
| Emotions.MoodMeaning | src/utils/analytics.ts:136-141 | the mood has the sign of the balance, saturates at ±100 from one net hit per message, and below 2^40 messages is within a half of the exact percentage |
| Emotions.PercentageSign | src/utils/analytics.ts:136 | the doubles keep the sign of the balance through both roundings and `Math.round` |
| Emotions.MoodSaturatesUp | src/utils/analytics.ts:136 | a balance of at least one hit per message gives at least 100 before the clamp |
| Emotions.MoodSaturatesDown | src/utils/analytics.ts:136 | a balance of at most minus one hit per message gives at most -100 before the clamp |
| Emotions.MoodNear | src/utils/analytics.ts:136 | with at most 2^40 messages the two roundings leave `Math.round` on a nearest integer of the percentage, inside -100..100 |
| Emotions.MoodMatchesExact | src/utils/analytics.ts:136-141 | off the exact halves the double computation equals the exact reference |
| Emotions.MoodAtTie | src/utils/analytics.ts:136 | 23 net hits over 40 messages give 57 in doubles, where the exact 57.5 rounds to 58 |
| Emotions.CountAllSums | src/utils/analytics.ts:108-134 | the running counters are the per-message totals and the message count |
| Emotions.AnalyzeEmotions | src/utils/analytics.ts:101-145 | affection ≤ positive ≤ messages × 27, negative ≤ messages × 26, emojis ≥ 0, mood in -100..100, all zero without messages |
| Emotions.EmotionScores | src/utils/analytics.ts:101-145 | each score is the sum of its per-message count and the mood is computed from them over the message count |
| WordCloud.Scrub | src/utils/analytics.ts:154 | every non-word, non-space character becomes a space and the rest is kept |
| WordCloud.KeepWords | src/utils/analytics.ts:156 | kept words are exactly the words longer than 2 characters that are not stop words, with their multiplicities |
| WordCloud.CloudWords | src/utils/analytics.ts:152-156 | every word of a message is kept and made of ASCII word characters |
| WordCloud.WeightOfOnes | src/utils/analytics.ts:158-159 | a word's count is its number of occurrences |
| WordCloud.FullCloud | src/utils/analytics.ts:164-171 | before the cut every counted word appears once, with its occurrence count (at least 1) and category, in non-increasing count order |
| WordCloud.FullCloudTieOrder | src/utils/analytics.ts:158-171 | words of equal count appear in the order of their first occurrence, which the map keeps and the stable sort does not change |
| WordCloud.GenerateWordCloud | src/utils/analytics.ts:164-172 | the cloud is a prefix of the full cloud, of length `limit` or less; a negative limit drops that many from the end |
| WordCloud.WordCloudIsTop | src/utils/analytics.ts:164-172 | distinct words, exact counts and categories, non-increasing counts, and no left-out word outcounts a kept one |
| WordCloud.WordCloudComplete | src/utils/analytics.ts:172 | with a limit at least the number of distinct words, every counted word is in the cloud |
| WordCloud.CloudWordsAreAscii | src/utils/analytics.ts:154 | every cloud word consists only of ASCII word characters |
| WordCloud.AccentedKeywordsNeverCounted | src/utils/analytics.ts:168-169 | accented keywords can never be cloud words, so they never get a category |
| Activity.EmotionalPointsBalance | src/utils/analytics.ts:214-222 | a message's points are its positive hits minus its negative hits |
| Activity.MostActive | src/utils/analytics.ts:230 | the index of the first maximum of the histogram, or -1 for an empty one |
| Activity.ActivitySummarises | src/utils/analytics.ts:184-223 | the map has exactly the senders, each with its message, space-split word and point totals |
| Activity.ActivitySettled | src/utils/analytics.ts:226-231 | the average and busiest hour are those of the last processed conversation |
| Activity.ActivityMeaning | src/utils/analytics.ts:175-235 | per sender: message count ≥ 1, words and points summed, average ≥ 1 and, below 2^52 words, a nearest integer to words per message; busiest hour the first argmax of the last conversation's histogram, or -1 if absent from it |
| Activity.AverageAtLeastOne | src/utils/analytics.ts:227 | with at least one word per message the rounded double average is at least 1 |
| Activity.AverageNear | src/utils/analytics.ts:227 | below 2^52 words the average is within a half of words per message, and off the exact halves it equals the exact reference |
| Activity.EmotionalScoresAgree | src/utils/analytics.ts:214-222 | summed over all senders, the emotional scores equal the emotion analysis's positive minus negative score |
| Activity.MessageCountsAgree | src/utils/analytics.ts:210 | for one conversation the per-sender message counts are those of the statistics |
| Activity.MostActiveHourLost | src/utils/analytics.ts:226-231 | a sender of the first conversation absent from the second ends with busiest hour -1 |
| Activity.FixedSummarises | src/utils/analytics.ts:184-223 | the corrected rollup keeps the same per-sender totals |
| Activity.FixedSettled | src/utils/analytics.ts:226-231 | the corrected busiest hour is taken over all the sender's messages |
| Activity.FixedMostActiveHour | src/utils/analytics.ts:226-231 | the corrected rollup has the same senders and totals, and every busiest hour is a real hour 0..23 that is the first maximum |
| LazyLoading.NewLoader | src/utils/performanceOptimization.ts:106-111 | a new loader has the given chunk size and no chunk loaded |
| LazyLoading.ChunkIndex | src/utils/performanceOptimization.ts:113-115 | the chunk of an index is the floor of index over chunk size |
| LazyLoading.ChunkIndexMonotone | src/utils/performanceOptimization.ts:113-115 | a larger index never has an earlier chunk |
| LazyLoading.MarkChunkLoaded | src/utils/performanceOptimization.ts:117-123 | afterwards the chunk is loaded, no other chunk changes, and marking twice changes nothing |
| LazyLoading.GetRequiredChunks | src/utils/performanceOptimization.ts:125-137 | strictly ascending, and exactly the unloaded chunks between the start's and the end's chunk |
| ChunkedStorage.ChunkKey | src/utils/performanceOptimization.ts:209 | a chunk key extends the base key |
| ChunkedStorage.ChunkKeyInjective | src/utils/performanceOptimization.ts:209 | chunk keys differ from the base key and from each other |
| ChunkedStorage.ChunkCount | src/utils/performanceOptimization.ts:199 | the chunk count is the ceiling of the length in UTF-16 units over 1048576 |
| ChunkedStorage.Chunk | src/utils/performanceOptimization.ts:205-208 | chunk i is the i-th slice of at most 1048576 UTF-16 units |
| ChunkedStorage.WriteChunks | src/utils/performanceOptimization.ts:205-210 | each chunk key holds its chunk and every other key is untouched |
| ChunkedStorage.ReadChunks | src/utils/performanceOptimization.ts:228-232 | reading succeeds iff every chunk is present and non-empty |
| ChunkedStorage.MetadataReads | src/utils/performanceOptimization.ts:210 | the stored units of `CHUNKED:n` read back as that text |
| ChunkedStorage.StoredCountOfMetadata | src/utils/performanceOptimization.ts:224 | `CHUNKED:n` reads back as n |
| ChunkedStorage.ChunkedLayout | src/utils/performanceOptimization.ts:195-217 | a chunked save writes `CHUNKED:n` and n chunks of at most 1048576 UTF-16 units that join back to the text, and nothing else |
| ChunkedStorage.SaveLoadRoundTrip | src/utils/performanceOptimization.ts:160-193 | loading what was saved, inline or chunked, parses the saved text |
| ChunkedStorage.MissingChunkFails | src/utils/performanceOptimization.ts:228-237 | a missing or empty chunk makes the load fail |
| ChunkedStorage.RemoveChunks | src/utils/performanceOptimization.ts:245-247 | exactly the first n chunk keys are removed |
| ChunkedStorage.ClearChunked | src/utils/performanceOptimization.ts:241-250 | the key is removed and every remaining entry is unchanged |
| ChunkedStorage.ClearAfterSave | src/utils/performanceOptimization.ts:241-250 | clearing after a chunked save removes exactly the key and its chunks |
| Viewport.StartIndex | src/utils/performanceOptimization.ts:24 | the start is non-negative, and either 0 or the first visible row minus the buffer |
| Viewport.EndIndex | src/utils/performanceOptimization.ts:25 | the end is at most the item count and at most start plus visible rows plus both buffers, and equals one of them |
| Viewport.GetVisibleRange | src/utils/performanceOptimization.ts:20-31 | start ≥ 0, end ≤ total items, end ≤ start + visible count + 2 × buffer, offset = start × item height |
| Viewport.WindowCovers | src/utils/performanceOptimization.ts:20-31 | with a buffer of at least 1, every item that is on screen lies inside the window |
| Viewport.UseVirtualScrolling | src/hooks/useVirtualScrolling.tsx:14-23 | startIndex ≥ 0, endIndex ≤ item count and ≤ start + visible + 2 × buffer, visible items are the slice (empty when start ≥ end), offset and total height as products |
| Viewport.HookMatchesScroller | src/hooks/useVirtualScrolling.tsx:17-22 | the hook and the scroller class compute the same window |
| Viewport.WindowEndNonNegative | src/hooks/useVirtualScrolling.tsx:19-21 | with non-negative heights and buffer the end is non-negative and the visible items are exactly the slice |
| Memory.Measure | src/utils/performanceOptimization.ts:273-287 | without a reading nothing changes and 0 is returned; with one, the sample is newest, the oldest drops beyond 100, and the usage is returned |
| Memory.MeasureAllKeepsLatest | src/utils/performanceOptimization.ts:277-282 | after any run of measurements the buffer holds the latest at most 100 samples, in order |
| Search.Preview | src/components/GlobalSearch.tsx:78-80 | content of up to 100 UTF-16 units is kept; longer content becomes a prefix whose encoding is its first 100 units (99 when unit 100 would split a pair) and `...` |
| Search.OneCharacterQuery | src/components/GlobalSearch.tsx:36 | a one-character query is skipped unless the character lies above U+FFFF, which counts as two units |
| Search.ConversationHits | src/components/GlobalSearch.tsx:42-55 | one result of relevance 100 titled with the display name iff the lower-cased display name contains the term |
| Search.ConversationResultIff | src/components/GlobalSearch.tsx:42-55 | a conversation's results hold a conversation result iff its display name matches |
| Search.ParticipantHits | src/components/GlobalSearch.tsx:58-70 | one relevance-90 result per matching participant occurrence, none for the others |
| Search.MatchingMessages | src/components/GlobalSearch.tsx:73-74 | exactly the messages whose lower-cased content contains the term |
| Search.MessageHits | src/components/GlobalSearch.tsx:73-91 | at most 20 results; the k-th has relevance 80 - k (61..80) and the preview of the k-th match as title |
| Search.Candidates | src/components/GlobalSearch.tsx:41-92 | every candidate's relevance tells its kind: 100, 90 or 61..80 |
| Search.TopByRelevance | src/components/GlobalSearch.tsx:95-97 | min(50, n) results, non-increasing relevance, drawn from the candidates |
| Search.TopKeepsBest | src/components/GlobalSearch.tsx:95-97 | a candidate left out never outranks a kept result |
| Search.TopKeepsOrder | src/components/GlobalSearch.tsx:96 | the sort is stable: results of equal relevance keep their order |
| Search.SearchResults | src/components/GlobalSearch.tsx:35-98 | a blank query or one shorter than two UTF-16 units gives nothing; otherwise at most 50 results, by non-increasing relevance, drawn from the candidates |
| Search.SearchKeepsTop | src/components/GlobalSearch.tsx:95-97 | left-out candidates never outrank kept ones, and equal relevances keep their order |
| Search.SearchKeepsAllWhenFew | src/components/GlobalSearch.tsx:95-97 | with at most 50 candidates every candidate is returned |
| Search.ConversationsFirst | src/components/GlobalSearch.tsx:95-97 | every result before a conversation result is a conversation result |
| Text.Trim | src/utils/conversationParser.ts:80 | the result has no leading or trailing white space |
| Text.TrimCharacterised | src/utils/conversationParser.ts:80 | trimming white space around a trimmed text gives that text back |
| Text.ToLower | src/utils/conversationParser.ts:134 | lower-casing maps each character and keeps the length |
| Text.JoinSplit | src/utils/conversationParser.ts:69 | joining the split lines with the separator gives the text back |
| Text.SplitWsCountsTokens | src/utils/conversationParser.ts:195 | on trimmed text the white-space split has one piece per run of non-space characters |
| Text.ParseIntOfNatToString | src/utils/performanceOptimization.ts:224 | `parseInt` reads a written count back |
| Seqs.SortByKey | src/utils/conversationParser.ts:197 | the sort returns a permutation in non-decreasing key order |
| Seqs.SortByKeyStable | src/utils/conversationParser.ts:197 | equal keys keep their input order |
| Seqs.TallyConserves | src/utils/analytics.ts:75-79 | the per-key totals of the map fold sum to the total weight |
| Utf16.Utf16Length | src/components/GlobalSearch.tsx:36 | `length` counts one unit per code point up to U+FFFF and two above it |
| Utf16.EncodeAppend | src/utils/performanceOptimization.ts:205-210 | the encoding of a concatenation is the concatenation of the encodings |
| Utf16.EncodePrefix | src/components/GlobalSearch.tsx:79 | the encoding of a prefix is a prefix of the encoding |
| Utf16.Utf16LengthOfBmp | src/components/GlobalSearch.tsx:36 | without code points above U+FFFF the unit count is the character count |
| Utf16.ReadableEncodeBmp | src/utils/performanceOptimization.ts:224 | text without surrogates or code points above U+FFFF reads back from its stored units unchanged |
| Utf16.Utf16Prefix | src/components/GlobalSearch.tsx:79 | the longest prefix whose encoding fits in n units |
| Utf16.Utf16PrefixLength | src/components/GlobalSearch.tsx:79 | that prefix is n units long, or n - 1 when unit n would split a surrogate pair |
| Binary64.Exponent | src/utils/analytics.ts:136 | the exponent puts the scaled quotient in [2^52, 2^53) |
| Binary64.NormalisedUnique | src/utils/analytics.ts:136 | a quotient has one such exponent |
| Binary64.RoundHalfEven | src/utils/analytics.ts:136 | the significand is within a half of the scaled quotient, and even at a tie |
| Binary64.RoundNeg | src/utils/analytics.ts:136 | rounding is symmetric in the sign |
| Binary64.RoundError | src/utils/analytics.ts:136 | one rounding of a quotient has relative error at most 2^-53 |
| Binary64.RoundAtLeast | src/utils/analytics.ts:136 | a quotient of at least an integer c below 2^52 rounds to at least c |
| Binary64.RoundAtMost | src/utils/analytics.ts:136 | a quotient of at most -c rounds to at most -c |
| Binary64.ScaledQuotientError | src/utils/analytics.ts:136 | `x / y * k` in doubles is within `3k|x|/y * 2^-53` of the exact value |
| Binary64.MathRoundBounds | src/utils/analytics.ts:136 | `Math.round` is within a half of its argument, halves going up |
| Binary64.MathRoundNear | src/utils/analytics.ts:136 | a double closer to v/y than 1/(2y) rounds to a nearest integer of v/y |

## Left out

- Reading files, `localStorage` calls, JSON `stringify` and `parse`, and the storage quota.
  - The serialised data is an opaque sequence of UTF-16 code units.
  - Parsing is a parameter `parse: Units -> Option<T>`.
  - A quota failure, which makes the source return `false`, is not modelled.
- `console` output, React state, rendering and the UI components. The lines that call the modelled functions are not modelled.
- The exporters, touch gestures, `processInChunks`, `useDebounce`, `usePerformanceMonitor`, `getAverageUsage` and `getMemoryTrend`. These involve timers, canvases and floating-point averages.
- Time zones: local time is taken to equal UTC. So `getHours`, `getDay` and `toISOString` agree on the day, and timestamps count minutes from 1970-01-01.
- `new Date()` for an empty conversation and `Date.now()` in `measure`. Both are parameters (`now`).
- `performance.memory`: a measurement is an optional reading passed in.
- `toLocaleString('fr-FR')` in a search result's subtitle. It is the parameter `localeString`.
- Search.Preview: when unit 100 is the first half of a surrogate pair, `substring(0, 100)` keeps that lone half. The model's preview is a string of code points, so it stops before the pair and the title is one unit shorter.
- `toLowerCase`: only ASCII and Latin-1 letters are lower-cased; every other character is kept.
- The map's insertion order in the participant activity. The result is a Dafny `map`, which has no order.
- Viewport.GetVisibleRange: pixel values are integers rather than floating point. An item height of 0 is excluded, because the source would divide by zero.
- LazyLoading.ChunkIndex: the chunk size must be positive; a zero chunk size divides by zero in the source.
- Viewport.WindowCovers: proved only for a buffer of at least 1. With no buffer, the floor of a fractional scroll can leave the last partly visible row outside the window.
- Viewport.UseVirtualScrolling: the slice statement holds when the end index is non-negative. `slice` with a negative end counts from the back, and that case is not described.
- Memory.Measure: the usage is a `real`. The megabyte division is exact, not floating point.
- Timeline.GenerateTimeline: `localeCompare` is modelled as code-point order. The keys hold digits and `-`, and day and week keys of years past 9999 start with `+` (`+010000-01-01`). Years below 0 cannot arise: years 0..99 read as 1900..1999, and a zero month or day rolls back at most to 1899. So `+` appears only first and `-` never first, and two keys never first differ where one holds `+` and the other `-`. Both orders rank `+` and `-` below the digits and order the digits alike, so they agree on these keys. `localeCompare` on other text is not modelled.
- Stats.CalculateStats: the per-sender tables are Dafny maps. In the source they are plain objects, so a sender named `__proto__` is not stored as an own key, and names such as `constructor` or `toString` start from the inherited method rather than 0. The model counts such senders like any other.
- Emotions.MoodMeaning: the near-percentage clause is proved for fewer than 2^40 messages; above that the error bound of the two roundings is not carried out.
- Activity.ActivityMeaning: the nearest-integer clause is proved for fewer than 2^52 words. Larger totals are not exact doubles in the source.
- Binary64: the exponent range is unbounded, so there is no overflow to infinity and no subnormal. Counts and their quotients here are far from both limits. Integer operands are taken to be exact doubles.

## Findings

| source | as written | input that shows it | evidently intended | confidence | as-written member | corrected member |
|---|---|---|---|---|---|---|
| src/utils/analytics.ts:226-231 | each conversation's pass recomputes every sender's busiest hour from that conversation's histogram only | two conversations, where Alice writes only in the first: her busiest hour ends as -1 | the busiest hour over all of the sender's messages, always in 0..23 | not executed | Activity.MostActiveHourLost | Activity.FixedMostActiveHour |
| src/utils/conversationParser.ts:212-230 | detection matches its pattern on the raw text, but the parsers first strip direction and byte-order marks | a one-line export `U+200E` + `[15/05/2025, 09:40] Alice : Hello` is detected as unknown, so no conversation is returned | detect on the cleaned text, as the parsers read it | not executed | Routing.MarkedExportIsDropped | Routing.MarkedExportIsKept |
