# search-server in Dafny

This is a model of the sequential core of `search-server`, a small in-memory TF-IDF search engine written in C++, with proofs about it. The parts modelled are:

- **Tokenizer and stop-word builder** (`StringProcessing`). `SplitIntoWords` cuts a text at every single space. `MakeUniqueNonEmptyStrings` turns a listing of strings into the set of its non-empty members.
- **The server** (`SearchServerModel`, with `Index`, `Ids`, `Ranking` and `Lexicographic`). `SearchServer` is a class holding:
  - the stop words;
  - the forward index `word -> (id -> tf)`;
  - the reverse index `id -> (word -> tf)`;
  - the documents `id -> {rating, status}`;
  - the set of ids.

  Its methods cover the constructors, `AddDocument`, `RemoveDocument`, `GetWordFrequencies`, `GetDocumentCount`, ascending id iteration, query parsing, `MatchDocument`, and the sequential `FindTopDocuments` / `FindAllDocuments` pipeline: filter, minus-word exclusion, ranking, and the cut to `MAX_RESULT_DOCUMENT_COUNT` = 5.
- **Duplicate removal** (`DuplicateRemoval`). `RemoveDuplicates` fingerprints each document by its word set while scanning ids in ascending order. It then removes every id whose fingerprint an earlier id already had.
- **Request statistics** (`RequestQueueModel`). `RequestQueue` keeps a window of the last 1440 "empty result" flags and a counter of the true ones.
- **Batch queries** (`QueryBatch`). `ProcessQueries` answers each query of a list in place, and `ProcessQueriesJoined` concatenates those answers.
- **The example program** (`SearchExample`). This is the check in `main.cpp` that a stop-word query finds nothing while a word of the only document finds it. It runs on servers built from a stop-word text, a vector and a set.

Errors thrown by the C++ code become `Result` values:
- `InvalidArgument` for `std::invalid_argument`;
- `OutOfRange` for the `std::out_of_range` of a failing `map::at`.

Term frequencies and relevances are exact reals. The inverse document frequency `log(documentCount / df)` is the server's constant function `idf(documentCount, df)`.

On these points the model follows the code as written:
- `SplitIntoWords` does emit empty tokens. The empty text gives `[""]`. Leading, trailing and doubled spaces give `""` tokens.
- `ParseQueryWord` rejects the empty token. So an empty query, or one with a leading, trailing or doubled space, is rejected with `InvalidArgument` (`EmptyQueryFails`, `SpacedQueryFails`).
- A document made only of stop words gets a `documents_` and `all_ids_` entry but no reverse-index entry. `GetWordFrequencies` on it is then an `OutOfRange` fault (`id_to_w_freqs_.at`), and so are `RemoveDocument` and `RemoveDuplicates` reaching it. The model keeps this fault as an `Err(OutOfRange)` that leaves the server unchanged.
- `MatchDocument` on an id that is not a document reaches `documents_.at`. It yields `Err(OutOfRange)` after the query has parsed.

## Model

| member | source | states |
|---|---|---|
| StringProcessing.SplitIntoWords | search-server/string_processing.cpp:9-22 | the loop returns exactly `Words(s)`, the tokenization whose properties the lemmas below state |
| StringProcessing.FindSpace | search-server/string_processing.cpp:14 | the position found is the first space, or the length when there is none |
| StringProcessing.Words | search-server/string_processing.cpp:13-21 | a text always splits into at least one token |
| StringProcessing.WordsJoin | search-server/string_processing.cpp:9-22 | joining the tokens with single spaces gives back the text exactly |
| StringProcessing.WordsSpaceFree | search-server/string_processing.cpp:14-15 | no token contains a space |
| StringProcessing.WordsUnique | search-server/string_processing.cpp:15-19 | any space-free token list that joins to the text is the tokenization, so tokens are the contiguous slices of the text in order |
| StringProcessing.WordsCount | search-server/string_processing.cpp:13-21 | the number of tokens is the number of spaces plus one |
| StringProcessing.WordsAppend | search-server/string_processing.cpp:15-19 | tokenizing `a + " " + b` gives the tokens of `a` followed by those of `b` |
| StringProcessing.WordsUnfold | search-server/string_processing.cpp:14-19 | one loop step: the first token is the text before the first space, and the rest is the tokenization after it |
| StringProcessing.WordsOfSpaceFree | search-server/string_processing.cpp:16-17 | a text without spaces is its own single token |
| StringProcessing.WordsOfEmpty | search-server/string_processing.cpp:15-16 | the empty text gives one empty token |
| StringProcessing.WordsLeadingSpace | search-server/string_processing.cpp:15 | a leading space yields an empty first token |
| StringProcessing.WordsTrailingSpace | search-server/string_processing.cpp:15-19 | a trailing space yields an empty last token |
| StringProcessing.WordsDoubleSpace | search-server/string_processing.cpp:15-19 | two consecutive spaces yield an empty token between them |
| StringProcessing.JoinAppend | search-server/string_processing.cpp:15-19 | joining two token lists is joining each and putting one space between |
| StringProcessing.MakeUniqueNonEmptyStrings | search-server/string_processing.h:10-17 | the result never holds `""` and holds exactly the non-empty strings of the input |
| StringProcessing.UniqueNonEmpty | search-server/string_processing.h:10-17 | definition: the set of the non-empty strings of a listing |
| StringProcessing.UniqueNonEmptyIdempotent | search-server/string_processing.h:10-17 | applying the function to any listing of its own result gives the same set |
| Lexicographic.Less | search-server/search_server.cpp:159-164 | definition: the `std::string` `operator<` that `std::sort` uses, comparing character by character with a proper prefix first |
| Lexicographic.LessIrreflexive | search-server/search_server.cpp:159-164 | the string order used by `std::sort` never ranks a string before itself |
| Lexicographic.LessTransitive | search-server/search_server.cpp:159-164 | the string order is transitive |
| Lexicographic.LessTotal | search-server/search_server.cpp:159-164 | any two distinct strings are ordered one way or the other |
| Lexicographic.LessAsymmetric | search-server/search_server.cpp:159-164 | the string order is asymmetric |
| Lexicographic.InsertUnique | search-server/search_server.cpp:159-164 | inserting into a strictly sorted list keeps it strictly sorted, and the members become the old ones plus the new word |
| Lexicographic.SortUnique | search-server/search_server.cpp:159-164 | sort-then-unique yields a strictly sorted, so duplicate-free, list with exactly the input's members |
| Lexicographic.HeadIsLeast | search-server/search_server.cpp:159-164 | the head of a strictly sorted list precedes every other member |
| Lexicographic.StrictlySortedUnique | search-server/search_server.cpp:159-164 | two strictly sorted lists with the same members are equal, so the sorted form depends only on the member set |
| Lexicographic.SortUniqueIdempotent | search-server/search_server.cpp:159-164 | sorting and deduplicating twice is the same as once |
| SearchServerModel.IsValidWord | search-server/search_server.cpp:96-101 | definition: a word is valid when none of its characters lies in `['\0', ' ')` |
| SearchServerModel.Sum | search-server/search_server.cpp:120-123 | definition: the sum the rating loop accumulates |
| SearchServerModel.TruncatedDiv | search-server/search_server.cpp:124 | C++ `int` division: the remainder has the sign of the dividend and is smaller than the divisor in magnitude |
| SearchServerModel.AverageRating | search-server/search_server.cpp:116-125 | 0 for no ratings; otherwise the mean rounded toward zero, for negative sums too |
| SearchServerModel.ComputeAverageRating | search-server/search_server.cpp:116-125 | the accumulating loop returns `AverageRating(ratings)` |
| SearchServerModel.Consistent | search-server/search_server.h:178-182 | definition of the index invariant: the documents and the id set have the same ids, ids are non-negative, every reverse entry belongs to a known id and is non-empty, the forward and reverse indexes hold the same postings with equal values, and no stop word is indexed |
| SearchServerModel.SearchServer.Valid | search-server/search_server.h:178-182 | definition: the stop words are non-empty and valid, and the containers satisfy `Consistent` |
| SearchServerModel.SearchServer.constructor | search-server/search_server.h:245-254 | a server built from valid non-empty stop words is `Valid`, has no documents and keeps exactly those stop words |
| SearchServerModel.SearchServer.Create | search-server/search_server.h:245-254 | fails with `InvalidArgument` exactly when some non-empty listed stop word holds a control character; otherwise the fresh empty server's stop words are the distinct non-empty listed strings |
| SearchServerModel.SearchServer.CreateFromText | search-server/search_server.h:29-37 | the text constructor: `Create` applied to the tokens of the text, with the same failure condition over those tokens |
| SearchServerModel.SearchServer.IsStopWord | search-server/search_server.cpp:83-85 | definition: membership in the stop-word set |
| SearchServerModel.SearchServer.DropStopWords | search-server/search_server.cpp:109-111 | definition: the tokens that are not stop words, in order; never longer than the input |
| SearchServerModel.SearchServer.DropStopWordsCount | search-server/search_server.cpp:109-111 | each non-stop word occurs in the filtered list as often as in the tokens, and a stop word not at all, so the tf stored by `AddDocument` counts the word's occurrences in the document |
| SearchServerModel.SearchServer.DropStopWordsMembers | search-server/search_server.cpp:109-111 | the kept tokens are exactly the tokens that are not stop words |
| SearchServerModel.SearchServer.NonStopWords | search-server/search_server.cpp:103-114 | `InvalidArgument` exactly when some token holds a control character; otherwise the words are exactly the tokens that are not stop words |
| SearchServerModel.SearchServer.SplitIntoWordsNoStop | search-server/search_server.cpp:103-114 | the loop returns `NonStopWords(text)`, including its error |
| Index.Count | search-server/search_server.cpp:17-18 | an occurrence count is at most the length, and positive exactly when the word occurs |
| Index.Shares | search-server/search_server.cpp:17-18 | the accumulated shares are keyed by exactly the words of the document |
| Index.TermFrequencies | search-server/search_server.cpp:16-18 | the term frequencies are keyed by exactly the words of the document |
| Index.TermFrequencyValue | search-server/search_server.cpp:16-18 | a word's tf is its occurrences divided by the number of non-stop tokens, and lies in (0, 1] |
| Index.ShareOfCount | search-server/search_server.cpp:16-18 | adding `1/n` `c` times gives `c/n`, which lies in (0, 1] |
| Index.InvWordCount | search-server/search_server.cpp:16 | definition: `1.0 / words.size()`, the share one occurrence adds |
| Index.AddToIndex | search-server/search_server.cpp:17-18 | adding a document posts it under exactly its words with the given tf, and leaves every other posting and its value in place |
| Index.RemoveFromIndex | search-server/search_server.cpp:30-31 | erasing an id from every bucket removes exactly its postings, keeps every bucket, and leaves other documents' values unchanged |
| Index.RemoveAllFromIndex | search-server/remove_duplicates.cpp:27-29 | erasing a set of ids removes exactly their postings and leaves other documents' values unchanged |
| Index.RemoveAllStep | search-server/remove_duplicates.cpp:27-29 | removing the ids one at a time equals removing the set at once |
| Index.RemoveNone | search-server/remove_duplicates.cpp:27-29 | removing no ids changes nothing |
| Index.AddThenRemove | search-server/search_server.cpp:10-35 | adding a new document and removing it again restores every posting |
| Index.RemoveUnposted | search-server/search_server.cpp:30-31 | removing an id that is posted nowhere leaves the index identical |
| Index.MirroredAfterAdd | search-server/search_server.cpp:17-21 | after an add the forward and reverse indexes still hold the same postings with equal values |
| Index.MirroredAfterRemove | search-server/search_server.cpp:30-32 | after removing ids from both indexes they still mirror each other |
| Ids.Min | search-server/remove_duplicates.cpp:14-25 | the least member of a non-empty id set |
| Ids.SortedIds | search-server/search_server.h:162-168 | the ids of a set in strictly ascending order, each exactly once |
| SearchServerModel.PostWords | search-server/search_server.cpp:16-18 | the loop adding `1/n` per occurrence into the buckets yields `AddToIndex` with each word's accumulated share |
| SearchServerModel.PostedStep | search-server/search_server.cpp:17-18 | one loop step keeps the invariant: the buckets hold the shares accumulated over the words seen so far |
| SearchServerModel.PostedAll | search-server/search_server.cpp:17-18 | after the last word the buckets are exactly the forward index with the document added |
| SearchServerModel.ReverseEntry | search-server/search_server.cpp:19-21 | the reverse entry copies, for each word, the value just stored in the forward index |
| SearchServerModel.TermFrequenciesEmpty | search-server/search_server.cpp:19-21 | a document gets a reverse entry exactly when it has a non-stop word |
| SearchServerModel.IndexDocument | search-server/search_server.cpp:16-21 | both index updates of an add: the forward index gains the document's term frequencies, and the reverse index gains an entry unless the document has no words |
| SearchServerModel.ConsistentAfterAdd | search-server/search_server.cpp:10-24 | an add of a fresh non-negative id with non-stop words keeps the server invariant |
| SearchServerModel.SearchServer.AddDocument | search-server/search_server.cpp:10-24 | `InvalidArgument`, with nothing changed, exactly for a negative id, a known id or a token with a control character; otherwise the four maps gain exactly the new document, with tf values and the truncated mean rating |
| SearchServerModel.EraseFromBuckets | search-server/search_server.cpp:30-31 | erasing the id from the bucket of each of its words equals erasing it from every bucket |
| SearchServerModel.WordFrequenciesArePostings | search-server/search_server.cpp:76-81 | under the server invariant, a successful `WordFrequencies` (the reverse-entry lookup) holds exactly the words under which the document is posted in the forward index, each with that bucket's tf |
| SearchServerModel.SearchServer.GetWordFrequencies | search-server/search_server.cpp:76-81 | the result holds exactly the words under which the document is posted, with their forward-index tf, or the `OutOfRange` fault |
| SearchServerModel.SearchServer.RemoveDocument | search-server/search_server.cpp:26-35 | an unknown id changes nothing; otherwise the id leaves all four maps, other documents keep their entries, and its word frequencies are then empty, so a second call is a no-op |
| SearchServerModel.PostedAreDocuments | search-server/search_server.cpp:17-23 | every posted id is a stored document, which `documents_.at` relies on |
| SearchServerModel.SearchServer.GetDocumentCount | search-server/search_server.cpp:47-49 | the count is the number of ids |
| SearchServerModel.SearchServer.Ids | search-server/search_server.h:162-168 | iteration yields exactly the current ids, in strictly ascending order |
| SearchServerModel.SearchServer.ParseQueryWord | search-server/search_server.cpp:127-142 | rejected exactly for an empty token, a lone `-`, a `--` prefix, or a control character; otherwise one leading `-` is stripped as the minus flag, the word is non-empty and valid, and the stop flag says whether it is a stop word |
| SearchServerModel.SearchServer.ParseTokens | search-server/search_server.cpp:146-155 | rejected exactly when some token is rejected; the plus and minus lists hold valid non-stop words |
| SearchServerModel.SearchServer.ParseTokensStep | search-server/search_server.cpp:146-155 | each token adds its word to the minus or plus list, or is dropped as a stop word |
| SearchServerModel.SearchServer.ParsePlusWords | search-server/search_server.cpp:148-153 | the plus words are exactly the tokens without a `-` prefix that are not stop words |
| SearchServerModel.SearchServer.MinusTokenOf | search-server/search_server.cpp:133-141 | a token is the minus form of a word exactly when it parses as that word with the minus flag |
| SearchServerModel.SearchServer.ParseMinusWords | search-server/search_server.cpp:148-151 | the minus words are exactly the words whose `-` form is a token and which are not stop words |
| SearchServerModel.SearchServer.ParsedQuery | search-server/search_server.cpp:144-166 | definition: the tokens parsed by `ParseTokens`, and with sorting both lists sorted and deduplicated; `ParseQuery` is proved equal to it and `ParsedQuerySorted` states the sorted form |
| SearchServerModel.SearchServer.ParseQuery | search-server/search_server.cpp:144-166 | the loop returns `ParsedQuery(text, isSort)`: tokens parsed in order, stop words dropped, optional sort and unique |
| SearchServerModel.SearchServer.ParsedQuerySorted | search-server/search_server.cpp:156-165 | with sorting, both lists are strictly sorted and keep exactly the unsorted lists' members |
| SearchServerModel.SearchServer.BlankTokenQueryFails | search-server/search_server.cpp:128-147 | any query with an empty token is rejected with `InvalidArgument` |
| SearchServerModel.SearchServer.EmptyQueryFails | search-server/search_server.cpp:128-147 | the empty query is rejected, because it splits into one empty token |
| SearchServerModel.SearchServer.SpacedQueryFails | search-server/search_server.cpp:128-147 | a query with a leading, trailing or doubled space is rejected |
| SearchServerModel.HasAnyWord | search-server/search_server.cpp:63-71 | definition: the document is posted under one of the words, the test of both match loops |
| SearchServerModel.HasAnyWordSameMembers | search-server/search_server.cpp:63-71 | whether a document holds one of the words depends only on the set of words, not their order or repeats |
| SearchServerModel.AnyPosted | search-server/search_server.cpp:63-66 | the minus-word loop answers whether the document holds any of the words |
| SearchServerModel.PostedWords | search-server/search_server.cpp:68-71 | over a sorted word list, the matched words are exactly those the document holds, still strictly sorted |
| SearchServerModel.SearchServer.MatchDocument | search-server/search_server.cpp:51-74 | a rejected query gives `InvalidArgument` and an unknown id `OutOfRange`; otherwise the status is the stored one, and the words are empty if a minus word occurs in the document, else exactly the plus words it holds, sorted and deduplicated |
| SearchServerModel.WordRelevance | search-server/search_server.h:264-268 | definition: `tf * idf(documentCount, df)` of one word for one document, 0 when the document lacks the word |
| SearchServerModel.Relevance | search-server/search_server.h:260-271 | definition: the per-word relevances summed over the plus words in order |
| SearchServerModel.Admitted | search-server/search_server.h:266-267 | definition: a stored document that the caller's predicate accepts on its id, status and rating |
| SearchServerModel.Qualifies | search-server/search_server.h:260-280 | definition: admitted, posted under a plus word, and under no minus word |
| SearchServerModel.RelevanceOfAbsent | search-server/search_server.h:260-270 | a document holding none of the plus words has relevance 0 |
| SearchServerModel.QualifyingIds | search-server/search_server.h:260-280 | the hits are exactly the documents that pass the predicate, hold a plus word and hold no minus word |
| SearchServerModel.HitRelevances | search-server/search_server.h:258-280 | relevances are kept for exactly the hits |
| SearchServerModel.ToDocuments | search-server/search_server.h:282-286 | each listed id becomes a result with its relevance and its stored rating |
| SearchServerModel.AllDocuments | search-server/search_server.h:256-288 | definition: the hits in ascending id order with their relevances and stored ratings; the lemmas below and `CollectDocuments` state its properties |
| SearchServerModel.AllDocumentsAscending | search-server/search_server.h:282-286 | `FindAllDocuments` lists its hits in ascending id order, as the relevance map iterates |
| SearchServerModel.AllDocumentsSound | search-server/search_server.h:260-286 | every listed document is a hit, with its stored rating and its relevance summed over the plus words |
| SearchServerModel.AllDocumentsComplete | search-server/search_server.h:260-286 | every hit is listed, and there are exactly as many results as hits |
| SearchServerModel.AllDocumentsDistinct | search-server/search_server.h:282-286 | listed ids are pairwise distinct |
| SearchServerModel.OneWordHits | search-server/search_server.h:260-270 | for a one-word query, every admitted holder of the word is a hit, and there are no more hits than holders |
| SearchServerModel.AddWordRelevance | search-server/search_server.h:264-270 | one plus word credits `tf * idf` to each admitted document of its bucket and leaves the others' totals as they were |
| SearchServerModel.PlusRelevance | search-server/search_server.h:260-271 | after the plus-word loop the map holds exactly the admitted documents holding a plus word, each with its summed relevance |
| SearchServerModel.DropMinusHits | search-server/search_server.h:273-280 | the minus-word loop erases exactly the documents holding a minus word and keeps the rest's relevances |
| SearchServerModel.AccumulatedAreHits | search-server/search_server.h:258-280 | the map the two loops build equals `HitRelevances` |
| SearchServerModel.ListDocuments | search-server/search_server.h:282-286 | the final loop emits one result per id, with relevance and stored rating |
| SearchServerModel.CollectDocuments | search-server/search_server.h:256-288 | the whole sequential `FindAllDocuments` returns `AllDocuments`, whose soundness, completeness, order and distinctness are the lemmas above |
| SearchServerModel.SearchServer.FindAllDocuments | search-server/search_server.h:256-288 | the server's `FindAllDocuments` over its own indexes returns `AllDocuments` |
| Ranking.Before | search-server/search_server.h:117-124 | definition of the comparator: higher relevance first, and on equal relevance higher rating first |
| Ranking.BeforeTransitive | search-server/search_server.h:117-124 | the ranking comparator is transitive |
| Ranking.InsertRanked | search-server/search_server.h:117-124 | inserting into a ranked list keeps it ranked and adds exactly one copy of the document |
| Ranking.RankSort | search-server/search_server.h:117-124 | the sort yields a permutation of its input in which no document is ranked above an earlier one |
| Ranking.InsertRankedDistinct | search-server/search_server.h:117-124 | inserting a document with a new id keeps ids distinct |
| Ranking.RankSortDistinct | search-server/search_server.h:117-124 | sorting keeps ids distinct |
| Ranking.Truncate | search-server/search_server.h:125-127 | definition: the first 5 documents when there are more |
| Ranking.Top | search-server/search_server.h:117-127 | at most 5 results (`min(n, 5)` of them), ranked, all drawn from the input |
| Ranking.TopKeepsAllFew | search-server/search_server.h:125-127 | with at most 5 inputs, every input is returned |
| Ranking.TopIsBest | search-server/search_server.h:117-127 | no document cut off ranks strictly above a kept one |
| Ranking.TopDistinct | search-server/search_server.h:117-127 | the cut keeps ids distinct |
| SearchServerModel.SearchServer.TopDocuments | search-server/search_server.h:104-129 | definition: parse with sorting, then `Top` of `AllDocuments`; the lemmas below state its properties and `FindTopDocuments` is proved equal to it |
| SearchServerModel.StatusIs | search-server/search_server.cpp:38-40 | definition: the filter that accepts exactly the documents with the given status |
| SearchServerModel.SearchServer.TopDocumentsShape | search-server/search_server.h:104-129 | `FindTopDocuments` fails exactly when the query does not parse; otherwise it returns at most 5 ranked results with distinct ids |
| SearchServerModel.SearchServer.TopDocumentsSound | search-server/search_server.h:104-129 | every result passes the predicate, holds a plus word and no minus word, carries its stored rating, and has relevance summed over the distinct plus words |
| SearchServerModel.SearchServer.TopDocumentsKeepsFew | search-server/search_server.h:104-129 | when at most 5 documents qualify, each of them is returned |
| SearchServerModel.SearchServer.TopDocumentsBest | search-server/search_server.h:115-127 | a qualifying document that was cut ranks no higher than any returned one |
| SearchServerModel.SearchServer.SameWordsSameResults | search-server/search_server.h:105-115 | queries with the same plus and minus word sets give the same results, so repeated query words count once |
| SearchServerModel.SearchServer.StatusOverloadFilters | search-server/search_server.cpp:37-41 | the status overload returns only documents with that status |
| SearchServerModel.SearchServer.StopWordQueryFindsNothing | search-server/main.cpp:21-23 | a parsing query made only of stop words finds nothing |
| SearchServerModel.SearchServer.OneWordQuery | search-server/search_server.cpp:144-166 | a single plain non-stop word parses to a query with just that plus word |
| SearchServerModel.SearchServer.ContainedWordFindsDocument | search-server/main.cpp:25-28 | a non-stop word held by an admitted document, held by at most 5 documents, finds that document |
| SearchServerModel.SearchServer.FindTopDocuments | search-server/search_server.h:104-129 | the parse, sort and unique, collect, rank and cut return `TopDocuments`, whose properties are the lemmas above |
| SearchServerModel.SearchServer.FindTopDocumentsWithStatus | search-server/search_server.cpp:37-41 | the status overload is the predicate overload with "status equals" |
| SearchServerModel.SearchServer.FindTopDocumentsActual | search-server/search_server.cpp:43-45 | the default overload filters for `ACTUAL` |
| DuplicateRemoval.Duplicates | search-server/remove_duplicates.cpp:14-25 | the ids removed are drawn from the scanned ids |
| DuplicateRemoval.WordSetOf | search-server/remove_duplicates.cpp:15-17 | the fingerprint is exactly the document's word set, frequencies ignored |
| DuplicateRemoval.DuplicatesStep | search-server/remove_duplicates.cpp:19-24 | scanning a larger id adds its fingerprint, and marks it exactly when that fingerprint was seen before |
| DuplicateRemoval.ScanDuplicates | search-server/remove_duplicates.cpp:14-25 | the ascending scan fails with `OutOfRange` exactly when some id has no reverse entry; otherwise it returns exactly the ids whose word set a smaller id has |
| DuplicateRemoval.ScanStep | search-server/remove_duplicates.cpp:14-25 | one scan step keeps the loop invariant |
| DuplicateRemoval.ScanDone | search-server/remove_duplicates.cpp:14-25 | the finished scan has seen exactly the listed ids |
| DuplicateRemoval.LowestSurvives | search-server/remove_duplicates.cpp:14-29 | every removed id has a surviving smaller id with the same word set |
| DuplicateRemoval.NoDuplicatesRemain | search-server/remove_duplicates.cpp:14-29 | no two surviving documents have the same word set |
| DuplicateRemoval.SecondRunRemovesNothing | search-server/remove_duplicates.cpp:14-29 | running the removal again on the survivors finds no duplicates |
| DuplicateRemoval.RemoveAll | search-server/remove_duplicates.cpp:27-29 | removing the collected ids one by one erases exactly them from all four maps and keeps the server valid |
| DuplicateRemoval.RemoveDuplicates | search-server/remove_duplicates.cpp:11-30 | `OutOfRange`, with nothing changed, if some document has no words; otherwise exactly the duplicates leave every map, the rest stay unchanged, and the count drops by their number |
| RequestQueueModel.CountEmpty | search-server/request_queue.cpp:21-34 | the count of empty-result flags is at most the number of flags |
| RequestQueueModel.CountEmptyAppend | search-server/request_queue.cpp:21-34 | counts of empty-result flags add up over concatenation |
| RequestQueueModel.Window | search-server/request_queue.cpp:21-34 | the window is the last `min(n, 1440)` flags of the call history, in call order |
| RequestQueueModel.Slide | search-server/request_queue.cpp:22-32 | definition: drop the oldest flag when 1440 are held, then append the new one |
| RequestQueueModel.SlideWindow | search-server/request_queue.cpp:21-34 | one call, which drops the oldest flag when the window is full and appends the new one, turns the window of a history into the window of the extended history |
| RequestQueueModel.SlideCount | search-server/request_queue.cpp:22-31 | the counter update (minus a dropped empty flag, plus a new empty one) tracks the count of empty flags |
| RequestQueueModel.ReplayIsWindow | search-server/request_queue.cpp:21-34 | any run of calls turns the window of a history into the window of the extended history |
| RequestQueueModel.ReplayFromEmpty | search-server/request_queue.h:28-30 | from a fresh queue, after n calls the window is the last `min(n, 1440)` flags and never exceeds 1440 |
| RequestQueueModel.RequestQueue.Valid | search-server/request_queue.h:27-30 | definition of the queue invariant: the window is the last 1440 flags of the call history, and the counter equals its number of empty flags |
| RequestQueueModel.RequestQueue.constructor | search-server/request_queue.h:8-9 | a new queue has an empty window and a zero counter, and refers to the given server |
| RequestQueueModel.RequestQueue.GetNoResultRequests | search-server/request_queue.cpp:17-19 | the counter equals the number of empty results in the window, which holds at most 1440 flags |
| RequestQueueModel.RequestQueue.RequestProcessing | search-server/request_queue.cpp:21-34 | the result is returned unchanged; the window slides by one flag, true iff the result is empty; the counter keeps matching the window |
| RequestQueueModel.RequestQueue.AddFindRequest | search-server/request_queue.h:11-14 | forwards the query and predicate to `FindTopDocuments`, returns its answer and records it; the server is not modified |
| RequestQueueModel.RequestQueue.AddFindRequestWithStatus | search-server/request_queue.cpp:11-13 | the same with the status overload |
| RequestQueueModel.RequestQueue.AddFindRequestActual | search-server/request_queue.cpp:14-16 | the same with the default `ACTUAL` overload |
| QueryBatch.Answers | search-server/process_queries.cpp:13-20 | one answer list per query |
| QueryBatch.AnswersAt | search-server/process_queries.cpp:16-17 | the i-th answer is the default `FindTopDocuments` of the i-th query |
| QueryBatch.AnswersShape | search-server/process_queries.cpp:16-17 | each answer has at most 5 ranked documents with distinct ids |
| QueryBatch.Flatten | search-server/process_queries.cpp:8-9 | definition: the answers appended one after another |
| QueryBatch.FlattenLength | search-server/process_queries.cpp:8-9 | the joined length is the sum of the answer lengths |
| QueryBatch.FlattenAppend | search-server/process_queries.cpp:8-9 | joining is concatenation in order, without re-ranking |
| QueryBatch.FlattenMembers | search-server/process_queries.cpp:8-9 | a document is in the joined list exactly when it is in some answer |
| QueryBatch.TotalLengthBound | search-server/process_queries.cpp:8-9 | lists of at most k documents each total at most k times their number |
| QueryBatch.JoinedBound | search-server/process_queries.cpp:6-11 | the joined list has at most 5 documents per query |
| QueryBatch.ProcessQueries | search-server/process_queries.cpp:13-20 | returns exactly the positional answers, and only reads the server |
| QueryBatch.ProcessQueriesJoined | search-server/process_queries.cpp:6-11 | returns exactly the in-order concatenation of those answers |
| SearchExample.WordsThree | search-server/string_processing.cpp:9-22 | three space-free words joined by single spaces split back into exactly those three words |
| SearchExample.ExampleTexts | search-server/main.cpp:19-31 | the stop-word text and the example document each split into their three words |
| SearchExample.ListingBuildsStopWords | search-server/main.cpp:33-35 | the text, the vector and the set all build the same stop-word set |
| SearchExample.ExampleDocumentWords | search-server/main.cpp:19 | with those stop words the document is indexed under "кот" and "мешке" only |
| SearchExample.ExampleStopQuery | search-server/main.cpp:21 | the query "в" parses and consists of stop words |
| SearchExample.AddExampleDocument | search-server/main.cpp:19 | adding the document to an empty server stores it as `ACTUAL` and posts it under "кот" |
| SearchExample.WordQueryFindsDocument | search-server/main.cpp:25 | the query "кот" returns exactly the one document |
| SearchExample.CheckSearch | search-server/main.cpp:17-29 | `check_search`: the stop-word query finds nothing, and the word query finds document 0 |
| SearchExample.CheckSearchWith | search-server/main.cpp:34-35 | the check holds for a server built from any container listing the three stop words |
| SearchExample.CheckSearchWithText | search-server/main.cpp:31-33 | the check holds for the server built from the stop-word text |
| SearchExample.Test | search-server/main.cpp:16-36 | on all three servers the stop-word query finds nothing and the word query finds the document |

## Left out

- The execution-policy overloads are not modelled. These are `RemoveDocument(policy, …)`, `FindTopDocuments(policy, …)`, `MatchDocument(policy, …)`, `IsValidWord(policy, …)` and the parallel `FindAllDocuments`. They exist for concurrency and rely on `ConcurrentMap`. `concurrent_map.h` is not part of this model.
- Floating point is not modelled. Term frequencies and relevances are exact reals. `ComputeWordInverseDocumentFreq`, that is `log(count / df)`, is the server's constant function `idf`, applied as `idf(|documents|, |bucket|)` inside `WordRelevance` and `AddWordRelevance`.
- The comparator's `1e-6` tolerance is dropped. With exact reals, two relevances are tied only when equal.
- Ranking.RankSort: `std::sort` is not stable, so the order among documents that rank equal is not pinned. `RankSort` is one valid order (an insertion sort on values). The lemmas state only what every valid order shares: ranked, a permutation, distinct ids. The sort is applied to the result sequence as a value, not in place.
- The `string_view` / `std::deque` storage of document texts is not modelled. Words are plain strings.
- Console output is not modelled: the "Found duplicate document id" line in `RemoveDuplicates` and `PrintDocument`. `read_input_functions.cpp` is not part of this model.
- SearchServerModel.AverageRating: `rating_sum` is an unbounded integer. The C++ `int` sum could overflow; that is not modelled.
- QueryBatch.ProcessQueries: the parallel `transform` is modelled as a sequential positional map. It requires every query to parse, because a throw inside `std::execution::par` terminates the program rather than reaching the caller.
- SearchExample.Test: the `std::set` of stop words is modelled by the listing it hands over, in ascending order.
- Strings are sequences of characters, while the C++ code splits, validates and compares bytes. On UTF-8 text the two agree: the split at byte 0x20, the `c < ' '` control test and the unsigned byte order coincide with the character-level space, control test and code-point order.
