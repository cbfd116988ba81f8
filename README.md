# News indexer core, modelled in Dafny

This project models the decision and transformation logic of a news-indexing service
written in Go, plus the string code of a page-channel batch job from the same
repository.

The news pipeline works on one message from the news topic at a time:

1. It decodes a wire document (`CppDocument`).
2. It converts it into an indexable document.
3. It records a few fields in a per-message key/value log bag.
4. It runs a set of named admission filters.
5. It hands an admitted document to every registered emitter:
   - a search-index writer, or a mock that only logs;
   - optionally a trace notifier.

Around this are:

- a second emitter that pushes ids onto a capped recency list;
- a reference-data snapshot of source quality records, with its reload tickers;
- a sampled log line per message.

The page-channel code:

- counts the 1- to 4-word phrases of a page;
- removes duplicate keywords regardless of case;
- recognises numbers;
- strips entity suffixes;
- tests whole-word containment between channel names;
- sorts a score map by descending score in place;
- trims the ranked channel list to clean, non-overlapping channels.

One module per Go file:

| module | file |
|---|---|
| `Util` | Go's `nil`, `int64`, and the `strings`/`fmt` functions used |
| `Constant` | `common/constant.go` |
| `Message` | `common/message.go` |
| `LogBag` | `common/log.go` |
| `SourceData` | `common/data.go` |
| `Filter` | `server/filter.go` |
| `EsEmitor` | `emitor/es_emitor.go` |
| `RedisEmitor` | `emitor/newdoc_redis_emitor.go` |
| `DocEmitor` | `emitor/doc_emitor.go` |
| `Handler` | `server/handler.go` |
| `ChannelGrams`, `ChannelText`, `ChannelRank` | `remote/channel.go` |

Modelling choices:

- **State that Go changes in place is a class.** This covers the log bag, the emitter registry, the recency list, the snapshot and its tickers, and the handler with its consumer. Pure code is made of functions and datatypes.
- **Loops are methods.** Each is proved against a specification function. For example, `FilterChannels` is proved against `Filtered`, one `FilterStep` per ranked channel, and the lemmas about the filter are proved about `Filtered`.
- **Go map iteration order is a nondeterministic choice.** Contracts over such loops say "for some enumeration of the keys" (`Util.Enumerates`).
- **Outside answers are parameters.** These are the clock, the random draw, the JSON decoder and encoder, and the replies of the index service, the trace request, Redis and MongoDB.
- **Go's zero-value map index is written out.** A missing key reads 0 (`ScoreOf`, `CountOf`).
- **`int64` arithmetic that can overflow is written out.** This is the age test, via `Wrap64`.
- **Index buckets use Go's truncating division.** A negative epoch's bucket rounds toward zero.

## Model

| member | source | states |
|---|---|---|
| Constant.GeoTypeToScope | common/constant.go:18-33 | state, county and poi map to their scopes, and city and area both map to the city scope. Every other type is global. The DMA and ZIP scopes are never returned |
| Constant.ReplaceSpace | common/constant.go:35-37 | the result holds no space. Each space adds exactly one character. A text without spaces is returned unchanged |
| Constant.ReplaceSpaceRoundTrip | common/constant.go:35-37 | turning "^^" back into spaces restores any text that had no '^' of its own |
| Message.NewIndexerDocumentFromCpp | common/message.go:71-95 | the content type becomes "news" only when empty. A nil category becomes the empty struct. Id, epoch, title, domain, source, geo tags, local flag, pois, channels and topics are copied. Url is always "". Fields the wire document lacks keep Go's zero values |
| Message.TransformRoundTrip | common/message.go:71-95 | every output is normalised. Reading the wire fields back gives the input exactly when the input had a content type, a category and no URL |
| Message.LastAtLeastChoice | common/message.go:27-34 | the loop's result is "" or a visited key scoring at least the floor. It is such a key whenever one was visited |
| Message.GetFirstCategory | common/message.go:22-35 | "" for a nil category. Otherwise the result is the last key, in some enumeration of the map, that scores at least -1, because the running score is never raised |
| Message.FirstCategoryNotTop | common/message.go:27-32 | a visit order of a two-key map for which the result is not the highest-scoring key |
| Message.TopFirstCategory | common/message.go:26-34 | the intended selection: "" when no key reaches -1, otherwise a key with the highest score |
| Filter.BasicFilter | server/filter.go:24-31 | drops a document whose id is empty or whose epoch is at most 0 |
| Filter.LocalFilter | server/filter.go:33-35 | drops a document whose local flag is "true" when its category is missing or is not sport |
| Filter.DomainFilter | server/filter.go:22-40 | drops a document whose domain is in the static block list, which is empty |
| Filter.EpochFilter | server/filter.go:42-45 | drops a document whose age, the int64 difference now minus epoch with wrap-around, is strictly above the expiry |
| Filter.CTypeFilter | server/filter.go:47-49 | drops a document whose content type is neither "news" nor "3rd_video" |
| Filter.CategoryFilter | server/filter.go:51-57 | never drops a document without a category; otherwise drops it iff "Obituary" is a first category |
| Filter.AdultFilter | server/filter.go:59-61 | drops a document flagged adult |
| Filter.Rejects | server/filter.go:10-20 | each tag of the registry runs the predicate registered under its name |
| Filter.AnyRejects | server/filter.go:12-20 | some name of the seven-entry registry names a predicate that drops the document |
| Filter.FilterNews | server/filter.go:63-71 | the result is true iff some registered predicate rejects. A rejection logs the name of a rejecting predicate under "filter". A pass leaves the bag unchanged |
| Filter.FilterVerdictOnWire | server/filter.go:12-61 | for a transformed wire document, rejection is exactly one of these: an empty id, a non-positive epoch, the (wrapping) age above the expiry, an unknown non-empty content type, a local non-sport document, or an obituary. The adult and domain predicates never fire |
| Filter.EpochFilterWithoutOverflow | server/filter.go:42-45 | for non-negative clock and epoch, the age test is the strict comparison `now - epoch > expire` |
| Filter.EpochFilterWraps | server/filter.go:24-45 | the most negative epoch makes the age wrap around and pass the age test, but the basic predicate still rejects it |
| Filter.BasicAlwaysRejects | server/filter.go:24-31 | an empty id or a non-positive epoch is always rejected |
| EsEmitor.IndexSplit | emitor/es_emitor.go:51 | a non-negative epoch falls in its 86400-second window. A negative epoch is rounded toward zero |
| EsEmitor.IndexName | emitor/es_emitor.go:50-52 | the index name is the pattern, "-", then the decimal partition number |
| EsEmitor.SameIndexIff | emitor/es_emitor.go:50-52 | two epochs get the same index name iff they get the same partition number |
| EsEmitor.IndexSplitMonotone | emitor/es_emitor.go:51 | a later epoch never gets an earlier partition |
| EsEmitor.NextDayNewIndex | emitor/es_emitor.go:50-52 | non-negative epochs one window apart get different index names |
| EsEmitor.PartitionZeroIsDoubled | emitor/es_emitor.go:51-52 | epochs -86399 and 86399 share the index "<pattern>-0" |
| EsEmitor.MapKeyList | emitor/es_emitor.go:131-143 | lists each key scoring at least 0.3 exactly once, whatever `thr` is. An empty map gives an empty list |
| EsEmitor.TransformToBaseEsDoc | emitor/es_emitor.go:145-163 | id, date, title, content type, domain, url, pois, channels and tags are copied. The source is lower-cased, with its spaces replaced, so it holds no space. The topic and category lists are the keys scoring at least 0.3 |
| EsEmitor.TransformToExpEsDoc | emitor/es_emitor.go:165-183 | the same projection, built from the experimental channels and categories |
| EsEmitor.EsPrepare | emitor/es_emitor.go:50-60 | the projection chosen by `isExp`, and the index "<pattern>-<epoch div 86400>" |
| EsEmitor.ReplyError | emitor/es_emitor.go:81-106 | the reply gives no error iff it is a success with a version. An error status gives "es error status: <code>" |
| EsEmitor.DoIndexError | emitor/es_emitor.go:62-107 | indexing returns nil iff the document encoded and the service answered with a version |
| EsEmitor.VersionLoggedIffIndexed | emitor/es_emitor.go:89-104 | "es_version" is logged iff indexing succeeded |
| EsEmitor.DoIndex | emitor/es_emitor.go:62-107 | the error, and the bag with "es_doc", "es_status" and "es_version" added at the steps that were reached |
| EsEmitor.IndexNews | emitor/es_emitor.go:109-125 | "es_index" is logged before indexing, whatever the outcome. The error and the bag are those of `DoIndex` on the prepared document |
| EsEmitor.MockEsEmit | emitor/es_emitor.go:185-198 | an encoded document logs "es_index" and "es_doc" and returns nil. An encoding error is returned and leaves the bag untouched |
| RedisEmitor.RedisRejects | emitor/newdoc_redis_emitor.go:62-101 | the rejection rules in source order: old document, short title, no image, low engagement, blocked category, then missing or low-quality, paywalled or "block_" source |
| RedisEmitor.FilterForRedis | emitor/newdoc_redis_emitor.go:62-101 | the scan gives the source-ordered rejection rules |
| RedisEmitor.RedisAdmitsIff | emitor/newdoc_redis_emitor.go:13-101 | admission holds exactly when the document is new, has more than 5 title characters and some image, and has video, two or more images, or at least 100 words. It also needs no blocked first category, no POTUS third category, and a known source with quality > 3, tier > 1, no paywall and no "block_" compatibility |
| RedisEmitor.WireDocumentNeverPushed | emitor/newdoc_redis_emitor.go:68-73 | a document fresh from the transformer is always rejected: its title and image counts are zero |
| RedisEmitor.PushTrim | emitor/newdoc_redis_emitor.go:125-126 | the id is at the head and the old list follows. At most `limit + 1` ids are kept, because the trim's stop index is inclusive |
| RedisEmitor.PushAllKeepsNewest | emitor/newdoc_redis_emitor.go:125-126 | after any run of pushes, the list is the newest `limit + 1` of all the ids, newest first |
| RedisEmitor.PushTrimBounded | emitor/newdoc_redis_emitor.go:126 | the list never exceeds `limit + 1` ids. Below the cap, each push adds one |
| RedisEmitor.RedisClient.constructor | emitor/newdoc_redis_emitor.go:26-44 | the client keeps the configured key and limit |
| RedisEmitor.RedisClient.IndexNews | emitor/newdoc_redis_emitor.go:103-149 | a rejected document logs force_explore=0, leaves the list and returns nil. An admitted one logs force_explore=1. It returns only the connection or flush error, and is pushed and trimmed only when the commands are delivered |
| DocEmitor.RegistryShape | emitor/doc_emitor.go:14-34 | exactly one of "es" and "mock_es" is registered, and "trace" iff tracing is enabled. There are 1 or 2 entries, and the recency-list emitter is never among them |
| DocEmitor.EmitorRegistry.constructor | emitor/doc_emitor.go:11-12 | the registry starts uninitialised and empty |
| DocEmitor.EmitorRegistry.GetNewsEmitors | emitor/doc_emitor.go:14-34 | the first call builds the registry from its configuration. Later calls return the same registry |
| DocEmitor.RunEmitor | emitor/doc_emitor.go:43 | one emitter's error, as its module defines it. It writes no log key other than the emitters' own |
| DocEmitor.EmitRunStep | emitor/doc_emitor.go:42-48 | a run with no error so far, extended by one emitter, ends with that emitter's error |
| DocEmitor.RunAll | emitor/doc_emitor.go:42-49 | the names run are a prefix of an enumeration of the registry. All but the last returned nil. The run covers the whole registry when the result is nil |
| DocEmitor.EmitNews | emitor/doc_emitor.go:36-50 | stops at the first error without running the rest. It logs "dests" on every path, with each name appended after its emitter ran, the failing one included |
| DocEmitor.EmitSucceededAll | emitor/doc_emitor.go:42-49 | a nil result means every registered emitter ran, returned nil and is listed in "dests" |
| LogBag.Segments | common/log.go:28-31 | one "k=v" segment per key, in the given order |
| LogBag.LogInfo.constructor | common/log.go:13-17 | a new bag is empty |
| LogBag.LogInfo.Set | common/log.go:19-21 | the key now maps to the value, overwriting. Every other key is unchanged |
| LogBag.ToString | common/log.go:23-33 | "" for a nil bag. Otherwise the "k=v" segments of all keys, in some enumeration order, joined by single spaces |
| LogBag.SegmentsAppend | common/log.go:28-31 | visiting one more key appends its segment |
| LogBag.EmptyBagPrintsNothing | common/log.go:27-32 | an empty bag prints "" |
| LogBag.LineSplitsIntoSegments | common/log.go:27-32 | when no key or value holds a space, the line splits back into exactly the segments |
| Handler.LoggedUrlIsEmpty | server/handler.go:81-86 | the logged url is always "", and the logged content type is never empty |
| Handler.NewsMessageHandler | server/handler.go:73-101 | a decode error is returned before any key is set. A rejected document returns nil after logging the five fields and the filter name. Otherwise the result is exactly `EmitNews`'s |
| Handler.ShouldLog | server/handler.go:58 | the line is printed for an error, or when the draw is at most the sample rate |
| Handler.SampledDrawsCount | server/handler.go:58-59 | because the test is `<=`, a successful message is logged for exactly the draws 0..rate, which is rate + 1 of the 100 draws |
| Handler.LogLine | server/handler.go:61-67 | the line starts with the bag, the consumer name, the decimal cost in microseconds and " error=" |
| Handler.LogLineTail | server/handler.go:61-67 | the line is exactly the head (bag, consumer name, cost), " error=", a flag that is '1' exactly for an error, " msg=", then the error text or "OK" |
| Handler.HandleNews | server/handler.go:52-71 | the pipeline's error is returned unchanged: the decode error, nil on rejection, otherwise exactly `EmitNews`'s error with the registry built once. A line is printed iff the message erred or the draw is at most the sample rate, and it renders the segments of the bag the pipeline left |
| Handler.NewsHandler.constructor | server/handler.go:18-31 | a consumer exists iff the news topic is enabled |
| Handler.NewsHandler.Join | server/handler.go:39-43 | waits for the consumer, if any |
| Handler.NewsHandler.Stop | server/handler.go:45-50 | a consumer, if any, ends closed and joined |
| SourceData.Lookup | common/data.go:18-23 | nothing for an empty domain. Otherwise the snapshot's entry, when there is one |
| SourceData.SourceMapKeys | common/data.go:56-68 | a key is in the loaded map iff a decoded row has it as its id or its domain |
| SourceData.SourceMapLastWins | common/data.go:56-68 | a key maps to the last decoded row stored under it. Rows that fail to decode are skipped |
| SourceData.CollectSourceInfo | common/data.go:56-68 | the load loop builds exactly the map of decoded rows, in cursor order |
| SourceData.Ticker.constructor | common/data.go:101 | a new ticker runs |
| SourceData.Ticker.Stop | common/data.go:122 | the ticker is stopped |
| SourceData.SourceStore.constructor | common/data.go:14-16 | empty snapshot, no tickers |
| SourceData.SourceStore.GetSourceInfo | common/data.go:18-23 | looks the domain up in the current snapshot |
| SourceData.SourceStore.LoadSourceInfo | common/data.go:25-72 | on success, swaps in the newly built map whole. On a connect, ping, find or cursor error, returns it and keeps the old snapshot |
| SourceData.SourceStore.RegisterReloader | common/data.go:100-116 | appends exactly one new running ticker |
| SourceData.SourceStore.LoadAllDatas | common/data.go:74-98 | the result is always nil, even when the load fails. The ticker list becomes the single source_info reloader, every 10 minutes |
| SourceData.SourceStore.LoadAllDatasReported | common/data.go:81-89 | the intended version: nil iff the load succeeded |
| SourceData.SourceStore.ReleaseAllDatas | common/data.go:118-126 | every registered ticker is stopped, and the list becomes empty |
| ChannelText.IsSpaceChar | remote/channel.go:756-758 | the characters 12, 13 and 14 |
| ChannelText.IsDelimiter | remote/channel.go:741-754 | a space character, '^', or a character of the delimiter table |
| ChannelText.DelimiterTableIsPunctuation | remote/channel.go:33 | every delimiter in the table is ASCII and not a letter, digit or '_' |
| ChannelText.WordCharsAreNotDelimiters | remote/channel.go:741-758 | letters, digits and '_' are never delimiters. Every delimiter is ASCII |
| ChannelText.WholeFromIff | remote/channel.go:693-739 | scanning from `p` succeeds iff a whole occurrence starts at or after `p` |
| ChannelText.IsLeftBoundary | remote/channel.go:706-714 | the left test: the text's start, a delimiter before the match, or a pattern starting with a delimiter |
| ChannelText.IsRightBoundary | remote/channel.go:718-727 | the right test: the text's end, a delimiter after the match, or a pattern ending with a delimiter |
| ChannelText.NextOccurrence | remote/channel.go:701-705 | the first occurrence at or after the offset, or -1 when there is none |
| ChannelText.ContainWholeLowerString | remote/channel.go:693-739 | false for an empty text, true for an empty pattern. Otherwise true iff some occurrence has a boundary on both sides |
| ChannelText.ContainWholeString | remote/channel.go:682-691 | the same test, on lower-cased copies |
| ChannelText.ContainsWholeOccurs | remote/channel.go:693-739 | a whole-word match is an occurrence |
| ChannelText.ContainsWholeExamples | remote/channel.go:693-739 | illustration only, no property beyond WholeFromIff: a text contains itself, and a word after a space is contained whole |
| ChannelText.PartOfWordIsNotWhole | remote/channel.go:706-717 | illustration only, no property beyond WholeFromIff: "b" is not a whole word of "ab" |
| ChannelText.IsNumber | remote/channel.go:578-595 | true iff the text is non-empty, has at most one '.' and is otherwise all digits ("." alone is a number) |
| ChannelText.NumberTextExamples | remote/channel.go:578-595 | illustration only, no property beyond IsNumber's contract: "12", "1.5" and "." are numbers. "", "1.2.3" and "1a" are not |
| ChannelText.KeptWordsMembers | remote/channel.go:597-610 | every kept word is an input word and not an entity suffix |
| ChannelText.KeptWordsIdentity | remote/channel.go:597-610 | without suffixes, every word is kept |
| ChannelText.EntityRemovedStep | remote/channel.go:600-608 | one word of the loop appends it, with a space only when some text was already written |
| ChannelText.EntityRemoved | remote/channel.go:597-610 | the words split on single spaces, minus the entity suffixes, joined with a separator written only once text has been written |
| ChannelText.RemoveEntity | remote/channel.go:597-610 | the space-split words minus the entity suffixes, in order, joined by single spaces and without leading separators |
| ChannelText.EntityRemovedIdentity | remote/channel.go:597-610 | a text with no suffix and no leading space is unchanged |
| ChannelText.EntityRemovedEmpty | remote/channel.go:597-610 | "" stays "" |
| ChannelText.RemovedWordsClean | remote/channel.go:597-610 | the remaining words hold no space and no suffix |
| ChannelText.EntityRemovedIdempotent | remote/channel.go:597-610 | the result contains no suffix word, and removing again changes nothing |
| ChannelText.Dedup | remote/channel.go:336-350 | keywords and scores stay aligned, and the list never grows |
| ChannelText.DedupKeywords | remote/channel.go:336-350 | the loop keeps each keyword whose lower-case form was not seen before, in order, with its own score |
| ChannelText.DedupForms | remote/channel.go:336-350 | the kept keywords cover every lower-case form of the input |
| ChannelText.DedupDistinct | remote/channel.go:336-350 | no two kept keywords share a lower-case form |
| ChannelText.DedupFirst | remote/channel.go:336-350 | each kept keyword comes from an input position where its lower-case form appears first, with that position's score, and the positions strictly increase, so input order is kept |
| ChannelGrams.GramBagMembers | remote/channel.go:494-551 | a phrase is counted iff some window of good words spells it |
| ChannelGrams.GramBagStep | remote/channel.go:510-518 | a window adds one to the count of the phrase it spells, and nothing to any other |
| ChannelGrams.GramsSize | remote/channel.go:508-551 | the counts total at most len(words) - (n - 1) |
| ChannelGrams.KwsCountOccurrences | remote/channel.go:494-506 | a word of at least two bytes is counted once per occurrence. Shorter words are never counted |
| ChannelGrams.PhraseOfTwo | remote/channel.go:512 | a two-word phrase is the words joined by "^^" |
| ChannelGrams.PhraseOfThree | remote/channel.go:527 | a three-word phrase is the words joined by "^^" |
| ChannelGrams.PhraseOfFour | remote/channel.go:542 | a four-word phrase is the words joined by "^^" |
| ChannelGrams.PhraseLength | remote/channel.go:494-551 | a counted phrase is at least two bytes long |
| ChannelGrams.CountWindow | remote/channel.go:510-518 | one loop turn counts one more window |
| ChannelGrams.CountGrams | remote/channel.go:494-551 | the map holds each phrase of good words with its number of occurrences, and nothing else |
| ChannelGrams.CountKws | remote/channel.go:494-506 | the count map of single words |
| ChannelGrams.CountBws | remote/channel.go:508-521 | the count map of two-word phrases |
| ChannelGrams.CountTws | remote/channel.go:523-536 | the count map of three-word phrases |
| ChannelGrams.CountQws | remote/channel.go:538-551 | the count map of four-word phrases |
| ChannelGrams.GramCountsKeys | remote/channel.go:494-551 | every count is at least 1. The keys are exactly the phrases of good windows |
| ChannelGrams.AddGramKeys | remote/channel.go:299-313 | one text's four count maps are merged into the key set |
| ChannelGrams.ListKeys | remote/channel.go:329-333 | each key is listed exactly once |
| ChannelGrams.GetKwsCandidate | remote/channel.go:297-334 | the 1- to 4-word keys of the non-empty title and content, each exactly once |
| ChannelGrams.GramKeysIff | remote/channel.go:297-334 | a candidate key is a phrase of 1 to 4 good words of the text |
| ChannelGrams.ShortWordNoCandidate | remote/channel.go:297-334 | the empty word and one-letter words are never candidates |
| ChannelGrams.NewPageContext | remote/channel.go:61-75 | the given texts and keywords. Every count map is empty, both sizes are 0, and there are no channels |
| ChannelGrams.TitleTermFrequency | remote/channel.go:638-648 | the term's one-word plus two-word count in the title, a missing key counting 0 |
| ChannelGrams.ContentTermFrequency | remote/channel.go:650-660 | the term's one-word plus two-word count in the content, a missing key counting 0 |
| ChannelGrams.TextWords | remote/channel.go:300 | the literal three characters \s+ become a space (no pattern matching), then the text splits on single spaces; the same split opens the content branch (line 310) and both counting branches (lines 359 and 368) |
| ChannelGrams.CountPage | remote/channel.go:356-374 | the title's and the content's word counts and one- and two-word count maps, each set only when that text is non-empty |
| ChannelGrams.CountedContentFrequency | remote/channel.go:356-374 | once counted, a term has a content frequency iff the content is non-empty and one or two good words of it spell the term |
| ChannelGrams.FrequencyZeroIffAbsent | remote/channel.go:638-660 | with counted maps, a frequency is 0 iff neither map has the term |
| ChannelGrams.GramCountsCounted | remote/channel.go:494-551 | counting never stores a zero count |
| ChannelGrams.AllInContentIff | remote/channel.go:629-635 | the word scan succeeds iff every word has a content frequency |
| ChannelGrams.AreAllWordsAppearInPage | remote/channel.go:612-623 | false for empty input or no page. Otherwise true iff every piece is found in the title or the content, as written or lower-cased |
| ChannelGrams.AreAllWordsAppearInPageContent | remote/channel.go:625-636 | the same test, looking only at the content and only at the word as written |
| ChannelGrams.ContentImpliesPage | remote/channel.go:612-636 | passing the content test implies passing the page test |
| ChannelGrams.ContentTestIsMembership | remote/channel.go:625-660 | with counted maps, the content test holds iff every piece is a key of the content's counts |
| ChannelGrams.FreshContextFindsNothing | remote/channel.go:61-75 | an uncounted context passes neither test |
| ChannelRank.SwapStep | remote/channel.go:670-674 | one inner turn keeps the prefix's dominance and extends the head's dominance by one |
| ChannelRank.ExtendSorted | remote/channel.go:669-675 | a dominating head extends the sorted prefix by one |
| ChannelRank.ExchangeSort | remote/channel.go:669-675 | the array ends as a permutation of itself, sorted by non-increasing score |
| ChannelRank.SwapInLargest | remote/channel.go:670-674 | position i ends up holding a highest score among i onwards. Earlier positions are untouched and the content is permuted |
| ChannelRank.Swap | remote/channel.go:672 | exchanges two positions |
| ChannelRank.PermutedEnumeration | remote/channel.go:664-675 | reordering a listing of the keys still lists each key once |
| ChannelRank.SortMap | remote/channel.go:663-680 | every key exactly once, by non-increasing score, with each value being its key's score |
| ChannelRank.HasOverlap | remote/channel.go:477-483 | true iff the channel contains, or is contained in, some kept channel as a whole word, ignoring case |
| ChannelRank.StoppedStays | remote/channel.go:448-450 | after the break, nothing changes |
| ChannelRank.FilterStep | remote/channel.go:443-490 | one turn: stop at a score of at most 0.2, skip a seen name, mark a blacklisted, unsupported or overlapping name seen, otherwise append it with "^^" for spaces and its score |
| ChannelRank.Filtered | remote/channel.go:443-490 | the state after the first n ranked channels, folding the turn from position 0 on |
| ChannelRank.FilterChannels | remote/channel.go:439-492 | the output lists are those of the scan over all ranked channels |
| ChannelRank.FilterTurn | remote/channel.go:446-489 | the loop body equals one scan step, checked in source order: break, seen, blacklist, entity, overlap, append |
| ChannelRank.StepCases | remote/channel.go:446-489 | a turn keeps both lists, or appends the space-replaced channel and its score. It appends only when the scan has not stopped, the score exceeds 0.2, the name is new, and the channel is neither blacklisted nor an unsupported entity nor overlapping |
| ChannelRank.StepAligned | remote/channel.go:446-489 | a turn keeps the lists aligned |
| ChannelRank.FilteredAligned | remote/channel.go:439-492 | the outputs have equal length, every score exceeds 0.2, and no name holds a space |
| ChannelRank.DisjointPairwise | remote/channel.go:474-486 | a disjoint list is one in which no two channels overlap |
| ChannelRank.StepDisjoint | remote/channel.go:474-489 | a turn keeps the list disjoint |
| ChannelRank.FilteredDisjoint | remote/channel.go:439-492 | no kept channel contains another as a whole word, in either direction |
| ChannelRank.StepSeen | remote/channel.go:452-457 | a turn that does not stop had a score above 0.2 and marks the name as seen |
| ChannelRank.FilteredSeen | remote/channel.go:443-457 | until the break, the names seen are those scanned |
| ChannelRank.FilteredSources | remote/channel.go:439-492 | each kept channel, with its score, comes from an increasing ranked position. That position is the name's first occurrence, is not blacklisted, is not an unsupported entity, and has no score at or below 0.2 at or before it |
| ChannelRank.KeptLast | remote/channel.go:446-489 | a channel appended at a step comes from that step's position |
| ChannelRank.StepGrows | remote/channel.go:488-489 | a turn only appends |
| ChannelRank.FilteredGrows | remote/channel.go:439-492 | the kept list only grows as the scan goes on |
| ChannelRank.FirstChannelKept | remote/channel.go:439-492 | the top channel is kept first when its score exceeds 0.2, it is not blacklisted and it has no entity suffix |
| ChannelRank.EmptyContentDropsEntities | remote/channel.go:467-472 | with empty content counts, every kept channel is free of entity suffixes |

## Left out

- Kafka consumption (`server/consumer.go`): the worker pool, signals and offsets. The consumer is reduced to closed/joined flags driven by the handler.
- Creating the index client, and `glog.Fatalf` on failure. The registry entry for "es" is modelled as the base (non-experimental) indexer.
- The HTTP exchanges of the index writer, the trace emitter, Redis and MongoDB. Their outcomes are parameters (`EsReply`, `SinkIo.traceErr`, `RedisIo`, `MongoLoad`), so a nil response that would panic is not modelled.
- JSON decoding and encoding. These are parameters (`Result<CppDocument>`, `encode`).
- The Redis server itself. Only the list effect of LPUSH followed by LTRIM is modelled, and it is all-or-nothing: the list changes only when the connection, the queueing of both commands and the flush all succeed (`RedisEmitor.Delivered`). A send error is one outcome for the pair, so a push applied without its trim is not modelled.
- Metrics, glog output and timing. The printed line is returned; the elapsed time and the random draw are parameters.
- Concurrency: `sync.Map`, `sync.Once` and the loader goroutine are sequential here.
- Parts of the page-channel job that depend on floating-point vectors, files or the network: `simVector`, the ranking part of `rankChannels` after its counting, `ProcessChannel`, `LoadChannels`, `getChannel` and the MongoDB get/set/replace helpers. The embedding vector is dropped from `PageContext`.
- The channel blacklist is loaded from a file in Go. Here it is a parameter of the filter.
- Go's nil and empty slices and maps are not distinguished.
- `Message.HasFirstCategory`, `Message.HasThirdCategory` and `Message.IsSport` are not part of this model's source files. They are taken to be key membership, with "sport" meaning the first category "Sports".
- ChannelText.IsNumber: accepts only the ASCII digits, whereas Go's `unicode.IsNumber` also accepts other Unicode number characters.
- ChannelText.ContainWholeString: lower-cases ASCII letters only, whereas `strings.ToLower` lower-cases all of Unicode.
- Non-ASCII text: strings are sequences of characters and all text is taken to be ASCII, so a byte is a character. Go's byte lengths (`len(word) >= 2` in `countKws` and the other counters, the offsets of `containWholeLowerString`, the byte tests of `isDelimiter`) are character counts here; multi-byte UTF-8 text is not modelled.
- ChannelGrams.CountGrams: counts are unbounded naturals, whereas Go uses `int64`, which cannot overflow at realistic text sizes.
- EsEmitor.TransformToBaseEsDoc: `Date` is the epoch in seconds rather than a `time.Time`, and `Timestamp` is a parameter rather than the clock.

## Findings

| source | as written | input that shows it | evidently intended | confidence | as-written member | corrected member |
|---|---|---|---|---|---|---|
| common/message.go:27-32 | the running score stays -1, so the result is the last key in map order scoring at least -1 | {"Politics": 0.9, "Sports": 0.1}, visited in that order, gives "Sports" | the first category with the highest score, as the comment says | not executed | Message.FirstCategoryNotTop | Message.TopFirstCategory |
| common/data.go:81-89 | the loader's error is stored only if the shared `err` is already non-nil, which it never is | a load whose connection fails: `LoadAllDatas` returns nil | `if ferr != nil { err = ferr }`, reporting the failure | not executed | SourceData.SourceStore.LoadAllDatas | SourceData.SourceStore.LoadAllDatasReported |
