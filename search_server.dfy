/**
 * The search server: stop words, the inverted index with its reverse map,
 * document records, query parsing, matching and TF-IDF ranking.
 */
module SearchServerModel {
  import opened Errors
  import opened StringProcessing
  import opened Lexicographic
  import opened Index
  import opened Ids
  import opened Ranking

  datatype DocumentStatus = Actual | Irrelevant | Banned | Removed

  /** What the server keeps per document besides its words. */
  datatype DocumentData = DocumentData(rating: int, status: DocumentStatus)

  /** One parsed query token. */
  datatype QueryWord = QueryWord(data: string, isMinus: bool, isStop: bool)

  datatype Query = Query(plusWords: seq<string>, minusWords: seq<string>)

  /** The tuple `MatchDocument` returns. */
  datatype MatchResult = MatchResult(words: seq<string>, status: DocumentStatus)

  /** The caller's filter on `(document_id, status, rating)`. */
  type DocumentPredicate = (int, DocumentStatus, int) -> bool

  /** The filter of the status overloads: `document_status == status`. */
  function StatusIs(status: DocumentStatus): DocumentPredicate
  {
    (id: int, documentStatus: DocumentStatus, rating: int) => documentStatus == status
  }

  /** A word is valid when none of its characters lies in `['\0', ' ')`. */
  predicate IsValidWord(word: string)
  {
    forall i :: 0 <= i < |word| ==> !('\0' <= word[i] < ' ')
  }

  function Sum(s: seq<int>): int
  {
    if |s| == 0 then 0 else Sum(s[..|s| - 1]) + s[|s| - 1]
  }

  /** C++ `int` division, which rounds toward zero. */
  function TruncatedDiv(a: int, b: int): (q: int)
    requires b > 0
    ensures a >= 0 ==> 0 <= a - q * b < b
    ensures a < 0 ==> -b < a - q * b <= 0
  {
    if a >= 0 then a / b else -((-a) / b)
  }

  /** Mean rating, truncated toward zero; 0 for no ratings. */
  function AverageRating(ratings: seq<int>): (r: int)
    ensures |ratings| == 0 ==> r == 0
    ensures |ratings| > 0 && Sum(ratings) >= 0 ==> 0 <= Sum(ratings) - r * |ratings| < |ratings|
    ensures |ratings| > 0 && Sum(ratings) < 0 ==> -|ratings| < Sum(ratings) - r * |ratings| <= 0
  {
    if |ratings| == 0 then 0 else TruncatedDiv(Sum(ratings), |ratings|)
  }

  /** `ComputeAverageRating`: the summing loop, proved to give `AverageRating`. */
  method ComputeAverageRating(ratings: seq<int>) returns (r: int)
    ensures r == AverageRating(ratings)
  {
    if |ratings| == 0 {
      return 0;
    }
    var ratingSum := 0;
    for i := 0 to |ratings|
      invariant ratingSum == Sum(ratings[..i])
    {
      assert ratings[..i + 1][..i] == ratings[..i];
      ratingSum := ratingSum + ratings[i];
    }
    assert ratings[..|ratings|] == ratings;
    r := TruncatedDiv(ratingSum, |ratings|);
  }

  /** The query token that excludes `word`. */
  function MinusForm(word: string): string
  {
    "-" + word
  }

  /** Every word of the query is one `ParseQueryWord` accepts and not a stop word. */
  predicate QueryWordsWellFormed(words: seq<string>, stopWords: set<string>)
  {
    forall i :: 0 <= i < |words| ==>
      words[i] != "" && words[i][0] != '-' && IsValidWord(words[i]) && words[i] !in stopWords
  }

  /** The first loop of `AddDocument`: adds `1 / |words|` to the bucket entry of `id` once per occurrence. */
  method PostWords<W(==,!new)>(fwd: ForwardIndex<W>, id: int, words: seq<W>, invWordCount: real) returns (r: ForwardIndex<W>)
    requires forall w :: w in fwd ==> id !in fwd[w]
    ensures r == AddToIndex(fwd, id, Shares(words, invWordCount))
  {
    r := fwd;
    for i := 0 to |words|
      invariant PostedPrefix(fwd, id, words[..i], invWordCount, r)
    {
      var word := words[i];
      var bucket := if word in r then r[word] else map[];
      var current := if id in bucket then bucket[id] else 0.0;
      assert words[..i + 1] == words[..i] + [word];
      ghost var r0 := r;
      r := r[word := bucket[id := current + invWordCount]];
      PostedStep(fwd, id, words[..i], word, invWordCount, r0, r);
    }
    assert words[..|words|] == words;
    PostedAll(fwd, id, words, invWordCount, r);
  }

  /** `r` is `fwd` with the occurrences in `words` posted for `id`, seen word by word. */
  ghost predicate PostedPrefix<W(!new)>(fwd: ForwardIndex<W>, id: int, words: seq<W>, share: real, r: ForwardIndex<W>)
  {
    && (forall w :: w in r <==> w in fwd || w in words)
    && (forall w :: w in r ==>
          r[w] == if w in words then Bucket(fwd, w)[id := Share(Count(words, w), share)] else fwd[w])
  }

  /** One turn of the posting loop extends the posted prefix by one word. */
  lemma PostedStep<W(!new)>(fwd: ForwardIndex<W>, id: int, prefix: seq<W>, word: W, share: real,
                            r0: ForwardIndex<W>, r: ForwardIndex<W>)
    requires forall w :: w in fwd ==> id !in fwd[w]
    requires PostedPrefix(fwd, id, prefix, share, r0)
    requires r == r0[word := Bucket(r0, word)[id := (if id in Bucket(r0, word) then Bucket(r0, word)[id] else 0.0) + share]]
    ensures PostedPrefix(fwd, id, prefix + [word], share, r)
  {
    forall w | w in r
      ensures r[w] == if w in prefix + [word] then Bucket(fwd, w)[id := Share(Count(prefix + [word], w), share)]
                      else fwd[w]
    {
      CountSnoc(prefix, word, w);
      if w == word {
        assert w in prefix + [word];
        assert Bucket(r0, word) == if w in prefix then Bucket(fwd, w)[id := Share(Count(prefix, w), share)] else Bucket(fwd, w);
      } else {
        assert w in prefix + [word] <==> w in prefix;
        assert r[w] == r0[w];
      }
    }
  }

  /** The pointwise outcome of the posting loop is `AddToIndex` with the document's term frequencies. */
  lemma PostedAll<W(!new)>(fwd: ForwardIndex<W>, id: int, words: seq<W>, share: real, r: ForwardIndex<W>)
    requires PostedPrefix(fwd, id, words, share, r)
    ensures r == AddToIndex(fwd, id, Shares(words, share))
  {
    var expected := AddToIndex(fwd, id, Shares(words, share));
    assert forall w :: w in r ==> r[w] == expected[w];
  }

  /** The second loop of `AddDocument`: the reverse entry of `id`, read back from the buckets. */
  method ReverseEntry<W(==,!new)>(fwd: ForwardIndex<W>, id: int, words: seq<W>) returns (entry: map<W, real>)
    requires forall w :: w in words ==> w in fwd && id in fwd[w]
    ensures entry == map w | w in words :: fwd[w][id]
  {
    entry := map[];
    for i := 0 to |words|
      invariant entry == map w | w in words[..i] :: fwd[w][id]
    {
      var word := words[i];
      assert words[..i + 1] == words[..i] + [word];
      if word !in entry {
        entry := entry[word := fwd[word][id]];
      }
    }
    assert words[..|words|] == words;
  }

  /** The loop of `RemoveDocument`: erases `id` from the bucket of each of its words. */
  method EraseFromBuckets(fwd: ForwardIndex<string>, id: int, words: set<string>) returns (r: ForwardIndex<string>)
    requires words <= fwd.Keys
    requires forall w :: w in fwd && id in fwd[w] ==> w in words
    ensures r == RemoveFromIndex(fwd, id)
  {
    r := fwd;
    var todo := words;
    while todo != {}
      invariant todo <= words
      invariant r.Keys == fwd.Keys
      invariant forall w :: w in r ==> r[w] == if w in words - todo then fwd[w] - {id} else fwd[w]
      decreases todo
    {
      NonEmptyHasWord(todo);
      var word :| word in todo;
      r := r[word := r[word] - {id}];
      todo := todo - {word};
    }
    assert forall w :: w in fwd && w !in words ==> fwd[w] - {id} == fwd[w];
  }

  /**
   * The invariant that links the server's containers: the document records
   * and the id set agree, the forward and reverse maps mirror each other, no
   * stop word is indexed and no reverse entry is empty.
   */
  ghost predicate Consistent(stopWords: set<string>, fwd: ForwardIndex<string>, documents: map<int, DocumentData>,
                             allIds: set<int>, rev: ReverseIndex<string>)
  {
    && documents.Keys == allIds
    && rev.Keys <= allIds
    && (forall id :: id in allIds ==> id >= 0)
    && Mirrored(fwd, rev)
    && (forall w :: w in fwd ==> w !in stopWords)
    && (forall id :: id in rev ==> rev[id] != map[])
  }

  /** A document has no term frequencies exactly when it has no words. */
  lemma TermFrequenciesEmpty(words: seq<string>)
    ensures TermFrequencies(words) == map[] <==> words == []
  {
    if words != [] {
      assert words[0] in TermFrequencies(words);
    }
  }

  /** The two loops of `AddDocument` on the forward and reverse maps. */
  method IndexDocument(fwd: ForwardIndex<string>, rev: ReverseIndex<string>, id: int, words: seq<string>)
    returns (fwd': ForwardIndex<string>, rev': ReverseIndex<string>)
    requires forall w :: w in fwd ==> id !in fwd[w]
    ensures fwd' == AddToIndex(fwd, id, TermFrequencies(words))
    ensures rev' == if words == [] then rev else rev[id := TermFrequencies(words)]
  {
    // 1.0 / words.size() is infinite for a document of stop words only, and then unused.
    var invWordCount := InvWordCount(|words|);
    fwd' := PostWords(fwd, id, words, invWordCount);
    var entry := ReverseEntry(fwd', id, words);
    assert entry == TermFrequencies(words);
    rev' := if words == [] then rev else rev[id := entry];
  }

  /** Adding a document with a fresh id and words that are not stop words keeps the containers consistent. */
  lemma ConsistentAfterAdd(stopWords: set<string>, fwd: ForwardIndex<string>, documents: map<int, DocumentData>,
                           allIds: set<int>, rev: ReverseIndex<string>, id: int, words: seq<string>, data: DocumentData)
    requires Consistent(stopWords, fwd, documents, allIds, rev)
    requires id >= 0 && id !in allIds
    requires forall w :: w in words ==> w !in stopWords
    ensures forall w :: w in fwd ==> id !in fwd[w]
    ensures Consistent(stopWords, AddToIndex(fwd, id, TermFrequencies(words)), documents[id := data], allIds + {id},
                       if words == [] then rev else rev[id := TermFrequencies(words)])
  {
    assert id !in rev;
    TermFrequenciesEmpty(words);
    MirroredAfterAdd(fwd, rev, id, TermFrequencies(words));
  }

  /**
   * `GetWordFrequencies` on the containers: the reverse entry of a known id,
   * a fault for a known id without one, the empty map for an unknown id.
   */
  function WordFrequencies(allIds: set<int>, rev: ReverseIndex<string>, id: int): (r: Result<map<string, real>>)
    ensures r.Err? <==> id in allIds && id !in rev
    ensures r.Err? ==> r.error == OutOfRange
    ensures r.Ok? ==> r.value == if id in allIds then rev[id] else map[]
  {
    if id in allIds then
      if id in rev then Ok(rev[id]) else Err(OutOfRange)
    else Ok(map[])
  }

  /**
   * Under the invariant, a successful `GetWordFrequencies` is the forward
   * index seen from the document: exactly the words it is posted under, each
   * with the tf stored in that word's bucket.
   */
  lemma WordFrequenciesArePostings(stopWords: set<string>, fwd: ForwardIndex<string>, documents: map<int, DocumentData>,
                                   allIds: set<int>, rev: ReverseIndex<string>, id: int)
    requires Consistent(stopWords, fwd, documents, allIds, rev)
    ensures var r := WordFrequencies(allIds, rev, id);
      r.Ok? ==>
        && (forall w :: w in r.value <==> Posted(fwd, w, id))
        && (forall w :: w in r.value ==> Posted(fwd, w, id) && r.value[w] == fwd[w][id])
  {
  }

  /** Every posted id is a stored document. */
  lemma PostedAreDocuments(stopWords: set<string>, fwd: ForwardIndex<string>, documents: map<int, DocumentData>,
                           allIds: set<int>, rev: ReverseIndex<string>)
    requires Consistent(stopWords, fwd, documents, allIds, rev)
    ensures forall w, id :: w in fwd && id in fwd[w] ==> id in documents
  {
  }

  /** Document `id` holds one of `words`. */
  predicate HasAnyWord(fwd: ForwardIndex<string>, words: seq<string>, id: int)
  {
    exists i :: 0 <= i < |words| && Posted(fwd, words[i], id)
  }

  lemma HasAnyWordSnoc(fwd: ForwardIndex<string>, words: seq<string>, word: string, id: int)
    ensures HasAnyWord(fwd, words + [word], id) <==> HasAnyWord(fwd, words, id) || Posted(fwd, word, id)
  {
    if HasAnyWord(fwd, words + [word], id) {
      var i :| 0 <= i < |words + [word]| && Posted(fwd, (words + [word])[i], id);
      if i < |words| {
        assert Posted(fwd, words[i], id);
      }
    }
    if HasAnyWord(fwd, words, id) {
      var i :| 0 <= i < |words| && Posted(fwd, words[i], id);
      assert (words + [word])[i] == words[i];
    }
    if Posted(fwd, word, id) {
      assert (words + [word])[|words|] == word;
    }
  }

  /** Only the members of `words` matter, not their order or repetition. */
  lemma HasAnyWordSameMembers(fwd: ForwardIndex<string>, a: seq<string>, b: seq<string>, id: int)
    requires forall w :: w in a <==> w in b
    ensures HasAnyWord(fwd, a, id) <==> HasAnyWord(fwd, b, id)
  {
    if HasAnyWord(fwd, a, id) {
      var i :| 0 <= i < |a| && Posted(fwd, a[i], id);
      assert a[i] in b;
    }
    if HasAnyWord(fwd, b, id) {
      var i :| 0 <= i < |b| && Posted(fwd, b[i], id);
      assert b[i] in a;
    }
  }

  /** The minus-word loop of `MatchDocument`: is document `id` posted under one of `words`? */
  method AnyPosted(fwd: ForwardIndex<string>, words: seq<string>, id: int) returns (found: bool)
    ensures found == HasAnyWord(fwd, words, id)
  {
    for i := 0 to |words|
      invariant forall k :: 0 <= k < i ==> !Posted(fwd, words[k], id)
    {
      if words[i] in fwd && id in fwd[words[i]] {
        return true;
      }
    }
    return false;
  }

  /** The plus-word loop of `MatchDocument`: the words of the sorted `words` posted for `id`, still sorted. */
  method PostedWords(fwd: ForwardIndex<string>, words: seq<string>, id: int) returns (matched: seq<string>)
    requires StrictlySorted(words)
    ensures StrictlySorted(matched)
    ensures forall w :: w in matched <==> w in words && Posted(fwd, w, id)
  {
    matched := [];
    for i := 0 to |words|
      invariant StrictlySorted(matched)
      invariant forall w :: w in matched ==> exists k :: 0 <= k < i && words[k] == w
      invariant forall k :: 0 <= k < i ==> (words[k] in matched <==> Posted(fwd, words[k], id))
    {
      var word := words[i];
      if word in fwd && id in fwd[word] {
        assert forall w :: w in matched ==> Less(w, word);
        matched := matched + [word];
      }
    }
  }

  /** `tf * idf` of `word` in document `id`, 0 when the document lacks the word. */
  function WordRelevance(fwd: ForwardIndex<string>, documentCount: int, idf: (int, int) -> real, word: string, id: int): real
  {
    if Posted(fwd, word, id) then fwd[word][id] * idf(documentCount, |fwd[word]|) else 0.0
  }

  /** Relevance of document `id`: `tf * idf` summed over `words`, in order. */
  function Relevance(fwd: ForwardIndex<string>, documentCount: int, idf: (int, int) -> real, words: seq<string>, id: int): real
  {
    if |words| == 0 then 0.0
    else Relevance(fwd, documentCount, idf, words[..|words| - 1], id) + WordRelevance(fwd, documentCount, idf, words[|words| - 1], id)
  }

  /** A document holding none of `words` has relevance 0. */
  lemma {:induction false} RelevanceOfAbsent(fwd: ForwardIndex<string>, documentCount: int, idf: (int, int) -> real,
                                             words: seq<string>, id: int)
    requires !HasAnyWord(fwd, words, id)
    ensures Relevance(fwd, documentCount, idf, words, id) == 0.0
  {
    if |words| > 0 {
      var init := words[..|words| - 1];
      assert words == init + [words[|words| - 1]];
      HasAnyWordSnoc(fwd, init, words[|words| - 1], id);
      RelevanceOfAbsent(fwd, documentCount, idf, init, id);
    }
  }

  /** The document exists and the caller's filter accepts it. */
  predicate Admitted(documents: map<int, DocumentData>, pred: DocumentPredicate, id: int)
  {
    id in documents && pred(id, documents[id].status, documents[id].rating)
  }

  /** Document `id` is a hit: admitted, holds a plus word and no minus word. */
  predicate Qualifies(fwd: ForwardIndex<string>, documents: map<int, DocumentData>, q: Query, pred: DocumentPredicate, id: int)
  {
    Admitted(documents, pred, id) && HasAnyWord(fwd, q.plusWords, id) && !HasAnyWord(fwd, q.minusWords, id)
  }

  function QualifyingIds(fwd: ForwardIndex<string>, documents: map<int, DocumentData>, q: Query, pred: DocumentPredicate): (ids: set<int>)
    ensures forall id :: id in ids <==> Qualifies(fwd, documents, q, pred, id)
  {
    set id | id in documents.Keys && Qualifies(fwd, documents, q, pred, id)
  }

  /** The relevance of every hit. */
  function HitRelevances(fwd: ForwardIndex<string>, documents: map<int, DocumentData>, idf: (int, int) -> real,
                         q: Query, pred: DocumentPredicate): (m: map<int, real>)
    ensures m.Keys == QualifyingIds(fwd, documents, q, pred)
  {
    map id | id in QualifyingIds(fwd, documents, q, pred) :: Relevance(fwd, |documents|, idf, q.plusWords, id)
  }

  /** Result documents for `ids`, with their relevance from `relevance` and their stored rating. */
  function ToDocuments(documents: map<int, DocumentData>, relevance: map<int, real>, ids: seq<int>): (r: seq<Document>)
    requires forall i :: 0 <= i < |ids| ==> ids[i] in documents && ids[i] in relevance
    ensures |r| == |ids|
    ensures forall i :: 0 <= i < |ids| ==> r[i] == Document(ids[i], relevance[ids[i]], documents[ids[i]].rating)
  {
    if |ids| == 0 then []
    else
      var last := ids[|ids| - 1];
      ToDocuments(documents, relevance, ids[..|ids| - 1]) + [Document(last, relevance[last], documents[last].rating)]
  }

  /** What the sequential `FindAllDocuments` returns: every hit with its relevance and rating, ascending by id. */
  function AllDocuments(fwd: ForwardIndex<string>, documents: map<int, DocumentData>, idf: (int, int) -> real,
                        q: Query, pred: DocumentPredicate): seq<Document>
  {
    var relevance := HitRelevances(fwd, documents, idf, q, pred);
    var ids := SortedIds(relevance.Keys);
    assert forall i :: 0 <= i < |ids| ==> ids[i] in relevance.Keys;
    ToDocuments(documents, relevance, ids)
  }

  /** The hits come in ascending id order. */
  lemma AllDocumentsAscending(fwd: ForwardIndex<string>, documents: map<int, DocumentData>, idf: (int, int) -> real,
                              q: Query, pred: DocumentPredicate)
    ensures var r := AllDocuments(fwd, documents, idf, q, pred);
      forall i, j :: 0 <= i < j < |r| ==> r[i].id < r[j].id
  {
    var relevance := HitRelevances(fwd, documents, idf, q, pred);
    var ids := SortedIds(relevance.Keys);
    var r := AllDocuments(fwd, documents, idf, q, pred);
    assert forall i :: 0 <= i < |r| ==> r[i].id == ids[i];
  }

  /** Every listed document is a hit, with its relevance and its stored rating. */
  lemma AllDocumentsSound(fwd: ForwardIndex<string>, documents: map<int, DocumentData>, idf: (int, int) -> real,
                          q: Query, pred: DocumentPredicate, d: Document)
    requires d in AllDocuments(fwd, documents, idf, q, pred)
    ensures Qualifies(fwd, documents, q, pred, d.id)
    ensures d.relevance == Relevance(fwd, |documents|, idf, q.plusWords, d.id)
    ensures d.rating == documents[d.id].rating
  {
    var relevance := HitRelevances(fwd, documents, idf, q, pred);
    var ids := SortedIds(relevance.Keys);
    var r := AllDocuments(fwd, documents, idf, q, pred);
    var i :| 0 <= i < |r| && r[i] == d;
    assert ids[i] in relevance.Keys;
    assert d == Document(ids[i], relevance[ids[i]], documents[ids[i]].rating);
  }

  /** Every hit is listed, once. */
  lemma AllDocumentsComplete(fwd: ForwardIndex<string>, documents: map<int, DocumentData>, idf: (int, int) -> real,
                             q: Query, pred: DocumentPredicate, id: int)
    requires Qualifies(fwd, documents, q, pred, id)
    ensures exists d :: d in AllDocuments(fwd, documents, idf, q, pred) && d.id == id
    ensures |AllDocuments(fwd, documents, idf, q, pred)| == |QualifyingIds(fwd, documents, q, pred)|
  {
    var relevance := HitRelevances(fwd, documents, idf, q, pred);
    var ids := SortedIds(relevance.Keys);
    var r := AllDocuments(fwd, documents, idf, q, pred);
    assert forall i :: 0 <= i < |ids| ==> ids[i] in relevance.Keys;
    var i :| 0 <= i < |ids| && ids[i] == id;
    assert r[i].id == id;
  }

  /** No two hits share an id. */
  lemma AllDocumentsDistinct(fwd: ForwardIndex<string>, documents: map<int, DocumentData>, idf: (int, int) -> real,
                             q: Query, pred: DocumentPredicate)
    ensures DistinctIds(AllDocuments(fwd, documents, idf, q, pred))
  {
    AllDocumentsAscending(fwd, documents, idf, q, pred);
  }

  /** A document holding `word` is a hit of the one-word query, and the hits are among the word's holders. */
  lemma OneWordHits(fwd: ForwardIndex<string>, documents: map<int, DocumentData>, word: string,
                    pred: DocumentPredicate, id: int)
    requires Posted(fwd, word, id) && Admitted(documents, pred, id)
    ensures Qualifies(fwd, documents, Query([word], []), pred, id)
    ensures |QualifyingIds(fwd, documents, Query([word], []), pred)| <=
            |set d | d in documents && Posted(fwd, word, d)|
  {
    var q := Query([word], []);
    assert q.plusWords[0] == word;
    var hits := QualifyingIds(fwd, documents, q, pred);
    var holders := set d | d in documents && Posted(fwd, word, d);
    forall d | d in hits
      ensures d in holders
    {
      var i :| 0 <= i < |q.plusWords| && Posted(fwd, q.plusWords[i], d);
    }
    SubsetSize(hits, holders);
  }

  /** The inner loop of `FindAllDocuments` for one plus word: credits every admitted document in its bucket. */
  method AddWordRelevance(fwd: ForwardIndex<string>, documents: map<int, DocumentData>, idf: (int, int) -> real,
                          relevance: map<int, real>, word: string, pred: DocumentPredicate) returns (r: map<int, real>)
    requires word in fwd
    requires forall id :: id in fwd[word] ==> id in documents
    ensures forall id :: id in r <==> id in relevance || (Posted(fwd, word, id) && Admitted(documents, pred, id))
    ensures forall id :: id in r ==>
      r[id] == (if id in relevance then relevance[id] else 0.0)
             + (if Admitted(documents, pred, id) then WordRelevance(fwd, |documents|, idf, word, id) else 0.0)
  {
    var bucket := fwd[word];
    var inverseDocumentFreq := idf(|documents|, |bucket|);
    r := relevance;
    var todo := bucket.Keys;
    while todo != {}
      invariant todo <= bucket.Keys
      invariant forall id :: id in r <==> id in relevance || (id in bucket && id !in todo && Admitted(documents, pred, id))
      invariant forall id :: id in r ==>
        r[id] == (if id in relevance then relevance[id] else 0.0)
               + (if id in bucket && id !in todo && Admitted(documents, pred, id) then WordRelevance(fwd, |documents|, idf, word, id) else 0.0)
      decreases todo
    {
      NonEmptyHasElement(todo);
      var id :| id in todo;
      var documentData := documents[id];
      if pred(id, documentData.status, documentData.rating) {
        r := r[id := (if id in r then r[id] else 0.0) + bucket[id] * inverseDocumentFreq];
      }
      todo := todo - {id};
    }
  }

  /** The plus-word loop of `FindAllDocuments`: the relevance of every admitted document holding a plus word. */
  method PlusRelevance(fwd: ForwardIndex<string>, documents: map<int, DocumentData>, idf: (int, int) -> real,
                       words: seq<string>, pred: DocumentPredicate) returns (relevance: map<int, real>)
    requires forall w, id :: w in fwd && id in fwd[w] ==> id in documents
    ensures forall id :: id in relevance <==> Admitted(documents, pred, id) && HasAnyWord(fwd, words, id)
    ensures forall id :: id in relevance ==> relevance[id] == Relevance(fwd, |documents|, idf, words, id)
  {
    relevance := map[];
    for i := 0 to |words|
      invariant forall id :: id in relevance <==> Admitted(documents, pred, id) && HasAnyWord(fwd, words[..i], id)
      invariant forall id :: id in relevance ==> relevance[id] == Relevance(fwd, |documents|, idf, words[..i], id)
    {
      var word := words[i];
      ghost var prefix := words[..i];
      assert words[..i + 1] == prefix + [word];
      assert (prefix + [word])[..i] == prefix;
      ghost var previous := relevance;
      if word in fwd {
        relevance := AddWordRelevance(fwd, documents, idf, relevance, word, pred);
      }
      forall id
        ensures (id in relevance <==> Admitted(documents, pred, id) && HasAnyWord(fwd, prefix + [word], id))
        ensures id in relevance ==> relevance[id] == Relevance(fwd, |documents|, idf, prefix + [word], id)
      {
        HasAnyWordSnoc(fwd, prefix, word, id);
        if id in relevance && id !in previous {
          RelevanceOfAbsent(fwd, |documents|, idf, prefix, id);
        }
      }
    }
    assert words[..|words|] == words;
  }

  /** The minus-word loop of `FindAllDocuments`: drops every document holding a minus word. */
  method DropMinusHits(fwd: ForwardIndex<string>, relevance: map<int, real>, words: seq<string>) returns (r: map<int, real>)
    ensures forall id :: id in r <==> id in relevance && !HasAnyWord(fwd, words, id)
    ensures forall id :: id in r ==> r[id] == relevance[id]
  {
    r := relevance;
    for i := 0 to |words|
      invariant forall id :: id in r <==> id in relevance && !HasAnyWord(fwd, words[..i], id)
      invariant forall id :: id in r ==> r[id] == relevance[id]
    {
      var word := words[i];
      assert words[..i + 1] == words[..i] + [word];
      if word in fwd {
        r := r - fwd[word].Keys;
      }
      forall id
        ensures HasAnyWord(fwd, words[..i + 1], id) <==> HasAnyWord(fwd, words[..i], id) || Posted(fwd, word, id)
      {
        HasAnyWordSnoc(fwd, words[..i], word, id);
      }
    }
    assert words[..|words|] == words;
  }

  /** The sequential `FindAllDocuments` on the index: sums relevance, erases minus-word hits, lists the rest by id. */
  method CollectDocuments(fwd: ForwardIndex<string>, documents: map<int, DocumentData>, idf: (int, int) -> real,
                          q: Query, pred: DocumentPredicate) returns (r: seq<Document>)
    requires forall w, id :: w in fwd && id in fwd[w] ==> id in documents
    ensures r == AllDocuments(fwd, documents, idf, q, pred)
  {
    var relevance := PlusRelevance(fwd, documents, idf, q.plusWords, pred);
    relevance := DropMinusHits(fwd, relevance, q.minusWords);
    AccumulatedAreHits(fwd, documents, idf, q, pred, relevance);
    var ids := SortedIds(relevance.Keys);
    assert forall i :: 0 <= i < |ids| ==> ids[i] in relevance.Keys;
    r := ListDocuments(documents, relevance, ids);
  }

  /** A map holding exactly the hits, each with its relevance, is `HitRelevances`. */
  lemma AccumulatedAreHits(fwd: ForwardIndex<string>, documents: map<int, DocumentData>, idf: (int, int) -> real,
                           q: Query, pred: DocumentPredicate, relevance: map<int, real>)
    requires forall id :: id in relevance <==>
      (Admitted(documents, pred, id) && HasAnyWord(fwd, q.plusWords, id)) && !HasAnyWord(fwd, q.minusWords, id)
    requires forall id :: id in relevance ==> relevance[id] == Relevance(fwd, |documents|, idf, q.plusWords, id)
    ensures relevance == HitRelevances(fwd, documents, idf, q, pred)
  {
    var hits := HitRelevances(fwd, documents, idf, q, pred);
    forall id
      ensures id in relevance <==> id in hits
    {
    }
    assert relevance.Keys == hits.Keys;
  }

  /** The last loop of `FindAllDocuments`: the accumulated relevances of `ids` as documents. */
  method ListDocuments(documents: map<int, DocumentData>, relevance: map<int, real>, ids: seq<int>) returns (r: seq<Document>)
    requires forall i :: 0 <= i < |ids| ==> ids[i] in documents && ids[i] in relevance
    ensures r == ToDocuments(documents, relevance, ids)
  {
    r := [];
    for k := 0 to |ids|
      invariant |r| == k
      invariant forall i :: 0 <= i < k ==> r[i] == Document(ids[i], relevance[ids[i]], documents[ids[i]].rating)
    {
      r := r + [Document(ids[k], relevance[ids[k]], documents[ids[k]].rating)];
    }
    ghost var expected := ToDocuments(documents, relevance, ids);
    assert forall i :: 0 <= i < |ids| ==> r[i] == expected[i];
  }

  class SearchServer {
    const stopWords: set<string>
    /** The inverse document frequency from (document count, documents holding the word); the source uses `log(count / df)`. */
    const idf: (int, int) -> real
    var wordToDocumentFreqs: ForwardIndex<string>
    var documents: map<int, DocumentData>
    var allIds: set<int>
    var idToWordFreqs: ReverseIndex<string>

    ghost predicate Valid()
      reads this
    {
      && (forall w :: w in stopWords ==> w != "" && IsValidWord(w))
      && Consistent(stopWords, wordToDocumentFreqs, documents, allIds, idToWordFreqs)
    }

    /** An index without documents. */
    ghost predicate IsEmpty()
      reads this
    {
      wordToDocumentFreqs == map[] && documents == map[] && allIds == {} && idToWordFreqs == map[]
    }

    /** The constructor body once the stop words have passed the validity check. */
    constructor (words: set<string>, idf: (int, int) -> real)
      requires forall w :: w in words ==> w != "" && IsValidWord(w)
      ensures Valid() && IsEmpty()
      ensures stopWords == words && this.idf == idf
    {
      stopWords := words;
      this.idf := idf;
      wordToDocumentFreqs := map[];
      documents := map[];
      allIds := {};
      idToWordFreqs := map[];
    }

    /**
     * The container constructor: keeps the distinct non-empty stop words and
     * throws `invalid_argument` if one of them is invalid.
     */
    static method Create(stopWordsIn: seq<string>, idf: (int, int) -> real) returns (r: Result<SearchServer>)
      ensures r.Err? <==> exists w :: w in UniqueNonEmpty(stopWordsIn) && !IsValidWord(w)
      ensures r.Err? ==> r.error == InvalidArgument
      ensures r.Ok? ==> fresh(r.value) && r.value.Valid() && r.value.IsEmpty()
      ensures r.Ok? ==> r.value.stopWords == UniqueNonEmpty(stopWordsIn) && r.value.idf == idf
    {
      var words := MakeUniqueNonEmptyStrings(stopWordsIn);
      assert words == UniqueNonEmpty(stopWordsIn);
      if exists w :: w in words && !IsValidWord(w) {
        return Err(InvalidArgument);
      }
      var server := new SearchServer(words, idf);
      return Ok(server);
    }

    /** The text constructor: the stop words are the tokens of `text`. */
    static method CreateFromText(text: string, idf: (int, int) -> real) returns (r: Result<SearchServer>)
      ensures r.Err? <==> exists w :: w in UniqueNonEmpty(Words(text)) && !IsValidWord(w)
      ensures r.Err? ==> r.error == InvalidArgument
      ensures r.Ok? ==> fresh(r.value) && r.value.Valid() && r.value.IsEmpty()
      ensures r.Ok? ==> r.value.stopWords == UniqueNonEmpty(Words(text)) && r.value.idf == idf
    {
      var tokens := SplitIntoWords(text);
      r := Create(tokens, idf);
    }

    predicate IsStopWord(word: string)
    {
      word in stopWords
    }

    /** The tokens that are not stop words, in order. */
    function DropStopWords(tokens: seq<string>): (r: seq<string>)
      ensures |r| <= |tokens|
    {
      if |tokens| == 0 then []
      else
        var init := tokens[..|tokens| - 1];
        var last := tokens[|tokens| - 1];
        assert tokens == init + [last];
        DropStopWords(init) + (if IsStopWord(last) then [] else [last])
    }

    lemma {:induction false} DropStopWordsMembers(tokens: seq<string>)
      ensures forall w :: w in DropStopWords(tokens) <==> w in tokens && w !in stopWords
    {
      if |tokens| > 0 {
        var init := tokens[..|tokens| - 1];
        var last := tokens[|tokens| - 1];
        assert tokens == init + [last];
        DropStopWordsMembers(init);
      }
    }

    /** A non-stop word keeps all its occurrences after filtering, and a stop word has none left. */
    lemma {:induction false} DropStopWordsCount(tokens: seq<string>, w: string)
      ensures Count(DropStopWords(tokens), w) == if w in stopWords then 0 else Count(tokens, w)
    {
      if |tokens| > 0 {
        var init := tokens[..|tokens| - 1];
        var last := tokens[|tokens| - 1];
        assert tokens == init + [last];
        DropStopWordsCount(init, w);
        CountSnoc(init, last, w);
        if IsStopWord(last) {
          assert DropStopWords(init) + [] == DropStopWords(init);
        } else {
          CountSnoc(DropStopWords(init), last, w);
        }
      }
    }

    /** What `SplitIntoWordsNoStop` returns or throws for `text`. */
    function NonStopWords(text: string): (r: Result<seq<string>>)
      ensures r.Err? <==> exists t :: t in Words(text) && !IsValidWord(t)
      ensures r.Err? ==> r.error == InvalidArgument
      ensures r.Ok? ==> forall w :: w in r.value <==> w in Words(text) && w !in stopWords
    {
      var tokens := Words(text);
      if exists i :: 0 <= i < |tokens| && !IsValidWord(tokens[i]) then Err(InvalidArgument)
      else
        DropStopWordsMembers(tokens);
        Ok(DropStopWords(tokens))
    }

    /** `SplitIntoWordsNoStop`: validates every token and drops the stop words. */
    method SplitIntoWordsNoStop(text: string) returns (r: Result<seq<string>>)
      ensures r == NonStopWords(text)
    {
      var tokens := SplitIntoWords(text);
      var words := [];
      for i := 0 to |tokens|
        invariant forall k :: 0 <= k < i ==> IsValidWord(tokens[k])
        invariant words == DropStopWords(tokens[..i])
      {
        if !IsValidWord(tokens[i]) {
          return Err(InvalidArgument);
        }
        assert tokens[..i + 1][..i] == tokens[..i];
        if !IsStopWord(tokens[i]) {
          words := words + [tokens[i]];
        }
      }
      assert tokens[..|tokens|] == tokens;
      return Ok(words);
    }

    /** `AddDocument`. */
    method AddDocument(id: int, document: string, status: DocumentStatus, ratings: seq<int>) returns (r: Result<()>)
      requires Valid()
      modifies this
      ensures Valid()
      ensures r.Err? <==> id < 0 || id in old(documents) || NonStopWords(document).Err?
      ensures r.Err? ==> r.error == InvalidArgument && unchanged(this)
      ensures r.Ok? ==>
        var words := NonStopWords(document).value;
        && wordToDocumentFreqs == AddToIndex(old(wordToDocumentFreqs), id, TermFrequencies(words))
        && idToWordFreqs == (if words == [] then old(idToWordFreqs) else old(idToWordFreqs)[id := TermFrequencies(words)])
        && documents == old(documents)[id := DocumentData(AverageRating(ratings), status)]
        && allIds == old(allIds) + {id}
    {
      if id < 0 || id in documents {
        return Err(InvalidArgument);
      }
      var parsed := SplitIntoWordsNoStop(document);
      if parsed.Err? {
        return Err(parsed.error);
      }
      var words := parsed.value;
      var rating := ComputeAverageRating(ratings);
      ConsistentAfterAdd(stopWords, wordToDocumentFreqs, documents, allIds, idToWordFreqs,
                         id, words, DocumentData(rating, status));
      wordToDocumentFreqs, idToWordFreqs := IndexDocument(wordToDocumentFreqs, idToWordFreqs, id, words);
      documents := documents[id := DocumentData(rating, status)];
      allIds := allIds + {id};
      return Ok(());
    }

    /** `GetWordFrequencies`: the words posted for `id` with their term frequencies, empty for an unknown id. */
    function GetWordFrequencies(id: int): (r: Result<map<string, real>>)
      reads this
      requires Valid()
      ensures r.Err? <==> id in allIds && id !in idToWordFreqs
      ensures r.Err? ==> r.error == OutOfRange
      ensures r.Ok? ==> forall w :: w in r.value <==> Posted(wordToDocumentFreqs, w, id)
      ensures r.Ok? ==> forall w :: w in r.value ==>
        Posted(wordToDocumentFreqs, w, id) && r.value[w] == wordToDocumentFreqs[w][id]
    {
      WordFrequencies(allIds, idToWordFreqs, id)
    }

    /** `RemoveDocument` (the sequential overload). */
    method RemoveDocument(id: int) returns (r: Result<()>)
      requires Valid()
      modifies this
      ensures Valid()
      ensures r.Err? <==> id in old(allIds) && id !in old(idToWordFreqs)
      ensures r.Err? ==> r.error == OutOfRange && unchanged(this)
      ensures id !in old(allIds) ==> unchanged(this)
      ensures r.Ok? ==>
        && wordToDocumentFreqs == RemoveFromIndex(old(wordToDocumentFreqs), id)
        && idToWordFreqs == old(idToWordFreqs) - {id}
        && documents == old(documents) - {id}
        && allIds == old(allIds) - {id}
      ensures r.Ok? ==> GetWordFrequencies(id) == Ok(map[])
    {
      if id !in allIds {
        RemoveUnposted(wordToDocumentFreqs, id);
        return Ok(());
      }
      var freqs := GetWordFrequencies(id);
      if freqs.Err? {
        return Err(freqs.error);
      }
      ghost var fwd0 := wordToDocumentFreqs;
      ghost var rev0 := idToWordFreqs;
      wordToDocumentFreqs := EraseFromBuckets(wordToDocumentFreqs, id, freqs.value.Keys);
      MirroredAfterRemove(fwd0, rev0, {id});
      idToWordFreqs := idToWordFreqs - {id};
      documents := documents - {id};
      allIds := allIds - {id};
      return Ok(());
    }

    /** `GetDocumentCount`. */
    function GetDocumentCount(): (n: int)
      reads this
      requires Valid()
      ensures n == |allIds|
    {
      |documents|
    }

    /** `begin()`/`end()`: the current ids, ascending. */
    function Ids(): (r: seq<int>)
      reads this
      ensures StrictlyIncreasing(r)
      ensures forall id :: id in r <==> id in allIds
    {
      SortedIds(allIds)
    }

    /** `ParseQueryWord`: strips one leading `'-'` and rejects malformed words. */
    function ParseQueryWord(text: string): (r: Result<QueryWord>)
      ensures r.Err? <==>
        || text == ""
        || text == "-"
        || (|text| >= 2 && text[0] == '-' && text[1] == '-')
        || (text[0] == '-' && !IsValidWord(text[1..]))
        || (text[0] != '-' && !IsValidWord(text))
      ensures r.Err? ==> r.error == InvalidArgument
      ensures r.Ok? ==> r.value.isMinus == (text[0] == '-')
      ensures r.Ok? ==> text == if r.value.isMinus then MinusForm(r.value.data) else r.value.data
      ensures r.Ok? ==> r.value.data != "" && r.value.data[0] != '-' && IsValidWord(r.value.data)
      ensures r.Ok? ==> (r.value.isStop <==> r.value.data in stopWords)
    {
      if text == "" then Err(InvalidArgument)
      else
        var isMinus := text[0] == '-';
        var word := if isMinus then text[1..] else text;
        if word == "" || word[0] == '-' || !IsValidWord(word) then Err(InvalidArgument)
        else Ok(QueryWord(word, isMinus, IsStopWord(word)))
    }

    /** The plus and minus words of `tokens`, in order, stop words dropped; an error if a token is malformed. */
    function ParseTokens(tokens: seq<string>): (r: Result<Query>)
      ensures r.Err? <==> exists i :: 0 <= i < |tokens| && ParseQueryWord(tokens[i]).Err?
      ensures r.Err? ==> r.error == InvalidArgument
      ensures r.Ok? ==> QueryWordsWellFormed(r.value.plusWords, stopWords)
      ensures r.Ok? ==> QueryWordsWellFormed(r.value.minusWords, stopWords)
    {
      if |tokens| == 0 then Ok(Query([], []))
      else
        var init := tokens[..|tokens| - 1];
        var last := tokens[|tokens| - 1];
        assert tokens == init + [last];
        match ParseTokens(init)
        case Err(e) => Err(e)
        case Ok(q) =>
          match ParseQueryWord(last)
          case Err(e) => Err(e)
          case Ok(word) =>
            if word.isStop then Ok(q)
            else if word.isMinus then Ok(Query(q.plusWords, q.minusWords + [word.data]))
            else Ok(Query(q.plusWords + [word.data], q.minusWords))
    }

    /** One more token: the query of `init` extended by the parsed `last`. */
    lemma ParseTokensStep(init: seq<string>, last: string)
      requires ParseTokens(init + [last]).Ok?
      ensures ParseTokens(init).Ok? && ParseQueryWord(last).Ok?
      ensures
        var q0 := ParseTokens(init).value;
        var word := ParseQueryWord(last).value;
        ParseTokens(init + [last]).value ==
          if word.isStop then q0
          else if word.isMinus then Query(q0.plusWords, q0.minusWords + [word.data])
          else Query(q0.plusWords + [word.data], q0.minusWords)
    {
      assert (init + [last])[..|init + [last]| - 1] == init;
    }

    /** The plus words are exactly the tokens without a `-` prefix that are not stop words. */
    lemma {:induction false} ParsePlusWords(tokens: seq<string>)
      requires ParseTokens(tokens).Ok?
      ensures forall w :: w in ParseTokens(tokens).value.plusWords <==>
        w in tokens && w != "" && w[0] != '-' && w !in stopWords
    {
      if |tokens| > 0 {
        var init := tokens[..|tokens| - 1];
        var last := tokens[|tokens| - 1];
        assert tokens == init + [last];
        ParseTokensStep(init, last);
        ParsePlusWords(init);
        var word := ParseQueryWord(last).value;
        forall w
          ensures w in ParseTokens(tokens).value.plusWords <==> w in tokens && w != "" && w[0] != '-' && w !in stopWords
        {
          assert w in tokens <==> w in init || w == last;
        }
      }
    }

    lemma MinusTokenOf(token: string, w: string)
      requires ParseQueryWord(token).Ok?
      ensures MinusForm(w) == token <==> ParseQueryWord(token).value.isMinus && ParseQueryWord(token).value.data == w
    {
      if MinusForm(w) == token {
        assert token[1..] == w;
      }
    }

    /** The minus words are exactly the `w` of the tokens `-w` whose `w` is not a stop word. */
    lemma {:induction false} ParseMinusWords(tokens: seq<string>)
      requires ParseTokens(tokens).Ok?
      ensures forall w :: w in ParseTokens(tokens).value.minusWords <==> MinusForm(w) in tokens && w !in stopWords
    {
      if |tokens| > 0 {
        var init := tokens[..|tokens| - 1];
        var last := tokens[|tokens| - 1];
        assert tokens == init + [last];
        ParseTokensStep(init, last);
        ParseMinusWords(init);
        var word := ParseQueryWord(last).value;
        forall w
          ensures w in ParseTokens(tokens).value.minusWords <==> MinusForm(w) in tokens && w !in stopWords
        {
          assert MinusForm(w) in tokens <==> MinusForm(w) in init || MinusForm(w) == last;
          MinusTokenOf(last, w);
          var q0 := ParseTokens(init).value;
          var q := ParseTokens(tokens).value;
          if word.isStop || !word.isMinus {
            assert q.minusWords == q0.minusWords;
          } else {
            assert q.minusWords == q0.minusWords + [word.data];
          }
        }
      }
    }

    /** What `ParseQuery(text, isSort)` returns or throws. */
    function ParsedQuery(text: string, isSort: bool): (r: Result<Query>)
    {
      match ParseTokens(Words(text))
      case Err(e) => Err(e)
      case Ok(q) =>
        if isSort then Ok(Query(SortUnique(q.plusWords), SortUnique(q.minusWords))) else Ok(q)
    }

    /** `ParseQuery`: parses every token, keeps the non-stop words, optionally sorts and deduplicates. */
    method ParseQuery(text: string, isSort: bool) returns (r: Result<Query>)
      ensures r == ParsedQuery(text, isSort)
    {
      var tokens := SplitIntoWords(text);
      var plusWords := [];
      var minusWords := [];
      for i := 0 to |tokens|
        invariant ParseTokens(tokens[..i]) == Ok(Query(plusWords, minusWords))
      {
        assert tokens[..i + 1][..i] == tokens[..i];
        var queryWord := ParseQueryWord(tokens[i]);
        if queryWord.Err? {
          return Err(queryWord.error);
        }
        if !queryWord.value.isStop {
          if queryWord.value.isMinus {
            minusWords := minusWords + [queryWord.value.data];
          } else {
            plusWords := plusWords + [queryWord.value.data];
          }
        }
      }
      assert tokens[..|tokens|] == tokens;
      if !isSort {
        return Ok(Query(plusWords, minusWords));
      }
      return Ok(Query(SortUnique(plusWords), SortUnique(minusWords)));
    }

    /** `MatchDocument` (the sequential overload). */
    method MatchDocument(rawQuery: string, id: int) returns (r: Result<MatchResult>)
      requires Valid()
      ensures r.Ok? <==> ParsedQuery(rawQuery, false).Ok? && id in documents
      ensures r.Err? ==> r.error == if ParsedQuery(rawQuery, false).Err? then InvalidArgument else OutOfRange
      ensures r.Ok? ==> r.value.status == documents[id].status
      ensures r.Ok? && HasAnyWord(wordToDocumentFreqs, ParsedQuery(rawQuery, false).value.minusWords, id) ==>
        r.value.words == []
      ensures r.Ok? && !HasAnyWord(wordToDocumentFreqs, ParsedQuery(rawQuery, false).value.minusWords, id) ==>
        && StrictlySorted(r.value.words)
        && forall w :: w in r.value.words <==>
             w in ParsedQuery(rawQuery, false).value.plusWords && Posted(wordToDocumentFreqs, w, id)
    {
      var parsed := ParseQuery(rawQuery, false);
      if parsed.Err? {
        return Err(parsed.error);
      }
      var minusWords := SortUnique(parsed.value.minusWords);
      var plusWords := SortUnique(parsed.value.plusWords);
      HasAnyWordSameMembers(wordToDocumentFreqs, minusWords, parsed.value.minusWords, id);
      var excluded := AnyPosted(wordToDocumentFreqs, minusWords, id);
      var matchedWords := [];
      if !excluded {
        matchedWords := PostedWords(wordToDocumentFreqs, plusWords, id);
      }
      if id !in documents {
        return Err(OutOfRange);
      }
      return Ok(MatchResult(matchedWords, documents[id].status));
    }

    /** What `FindTopDocuments(raw_query, predicate)` returns or throws. */
    function TopDocuments(rawQuery: string, pred: DocumentPredicate): (r: Result<seq<Document>>)
      reads this
    {
      match ParsedQuery(rawQuery, true)
      case Err(e) => Err(e)
      case Ok(q) => Ok(Top(AllDocuments(wordToDocumentFreqs, documents, idf, q, pred)))
    }

    /** The sequential `FindAllDocuments`. */
    method FindAllDocuments(q: Query, pred: DocumentPredicate) returns (r: seq<Document>)
      requires Valid()
      ensures r == AllDocuments(wordToDocumentFreqs, documents, idf, q, pred)
    {
      PostedAreDocuments(stopWords, wordToDocumentFreqs, documents, allIds, idToWordFreqs);
      r := CollectDocuments(wordToDocumentFreqs, documents, idf, q, pred);
    }

    /** With sorting, both word lists are strictly sorted and hold the same words as without. */
    lemma ParsedQuerySorted(text: string)
      requires ParsedQuery(text, false).Ok?
      ensures ParsedQuery(text, true).Ok?
      ensures
        var sorted := ParsedQuery(text, true).value;
        var q := ParsedQuery(text, false).value;
        && StrictlySorted(sorted.plusWords) && StrictlySorted(sorted.minusWords)
        && (forall w :: w in sorted.plusWords <==> w in q.plusWords)
        && (forall w :: w in sorted.minusWords <==> w in q.minusWords)
    {
    }

    /** An empty query, or one with a leading, trailing or doubled space, holds an empty token and is rejected. */
    lemma BlankTokenQueryFails(text: string, isSort: bool)
      requires "" in Words(text)
      ensures ParsedQuery(text, isSort) == Err(InvalidArgument)
    {
      var i :| 0 <= i < |Words(text)| && Words(text)[i] == "";
      assert ParseQueryWord(Words(text)[i]).Err?;
    }

    lemma EmptyQueryFails(isSort: bool)
      ensures ParsedQuery("", isSort) == Err(InvalidArgument)
    {
      WordsOfEmpty();
      BlankTokenQueryFails("", isSort);
    }

    lemma SpacedQueryFails(a: string, b: string, isSort: bool)
      ensures ParsedQuery(" " + a, isSort) == Err(InvalidArgument)
      ensures ParsedQuery(a + " ", isSort) == Err(InvalidArgument)
      ensures ParsedQuery(a + "  " + b, isSort) == Err(InvalidArgument)
    {
      WordsLeadingSpace(a);
      assert "" in Words(" " + a);
      BlankTokenQueryFails(" " + a, isSort);
      WordsTrailingSpace(a);
      assert Words(a + " ")[|Words(a)|] == "";
      BlankTokenQueryFails(a + " ", isSort);
      WordsDoubleSpace(a, b);
      assert Words(a + "  " + b)[|Words(a)|] == "";
      BlankTokenQueryFails(a + "  " + b, isSort);
    }

    /** At most five results, best first, distinct ids; `Err` exactly when the query does not parse. */
    lemma TopDocumentsShape(rawQuery: string, pred: DocumentPredicate)
      ensures TopDocuments(rawQuery, pred).Err? <==> ParsedQuery(rawQuery, false).Err?
      ensures TopDocuments(rawQuery, pred).Ok? ==>
        var r := TopDocuments(rawQuery, pred).value;
        |r| <= MaxResultDocumentCount && Ranked(r) && DistinctIds(r)
    {
      if ParsedQuery(rawQuery, true).Ok? {
        var q := ParsedQuery(rawQuery, true).value;
        AllDocumentsDistinct(wordToDocumentFreqs, documents, idf, q, pred);
        TopDistinct(AllDocuments(wordToDocumentFreqs, documents, idf, q, pred));
      }
    }

    /**
     * Every result passes the filter, holds a plus word and no minus word of
     * the query, carries its stored rating and its relevance summed over the
     * distinct plus words.
     */
    lemma TopDocumentsSound(rawQuery: string, pred: DocumentPredicate, d: Document)
      requires TopDocuments(rawQuery, pred).Ok? && d in TopDocuments(rawQuery, pred).value
      ensures ParsedQuery(rawQuery, false).Ok?
      ensures
        var q := ParsedQuery(rawQuery, false).value;
        && Admitted(documents, pred, d.id)
        && HasAnyWord(wordToDocumentFreqs, q.plusWords, d.id)
        && !HasAnyWord(wordToDocumentFreqs, q.minusWords, d.id)
        && d.rating == documents[d.id].rating
        && d.relevance == Relevance(wordToDocumentFreqs, |documents|, idf, SortUnique(q.plusWords), d.id)
    {
      var q := ParsedQuery(rawQuery, false).value;
      var sorted := ParsedQuery(rawQuery, true).value;
      AllDocumentsSound(wordToDocumentFreqs, documents, idf, sorted, pred, d);
      HasAnyWordSameMembers(wordToDocumentFreqs, sorted.plusWords, q.plusWords, d.id);
      HasAnyWordSameMembers(wordToDocumentFreqs, sorted.minusWords, q.minusWords, d.id);
    }

    /** When at most five documents qualify, every one of them is returned. */
    lemma TopDocumentsKeepsFew(rawQuery: string, pred: DocumentPredicate, id: int)
      requires ParsedQuery(rawQuery, true).Ok?
      requires |QualifyingIds(wordToDocumentFreqs, documents, ParsedQuery(rawQuery, true).value, pred)| <= MaxResultDocumentCount
      requires Qualifies(wordToDocumentFreqs, documents, ParsedQuery(rawQuery, true).value, pred, id)
      ensures exists d :: d in TopDocuments(rawQuery, pred).value && d.id == id
    {
      var all := AllDocuments(wordToDocumentFreqs, documents, idf, ParsedQuery(rawQuery, true).value, pred);
      AllDocumentsComplete(wordToDocumentFreqs, documents, idf, ParsedQuery(rawQuery, true).value, pred, id);
      TopKeepsAllFew(all);
      var d :| d in all && d.id == id;
      assert d in multiset(Top(all));
    }

    /** A hit that is not returned ranks no better than any returned document. */
    lemma TopDocumentsBest(rawQuery: string, pred: DocumentPredicate, d: Document, e: Document)
      requires ParsedQuery(rawQuery, true).Ok?
      requires d in TopDocuments(rawQuery, pred).value
      requires e in AllDocuments(wordToDocumentFreqs, documents, idf, ParsedQuery(rawQuery, true).value, pred)
      requires e !in TopDocuments(rawQuery, pred).value
      ensures !Before(e, d)
    {
      TopIsBest(AllDocuments(wordToDocumentFreqs, documents, idf, ParsedQuery(rawQuery, true).value, pred), d, e);
    }

    /** Queries with the same plus and minus words, in any order and with any repetition, give the same results. */
    lemma SameWordsSameResults(text1: string, text2: string, pred: DocumentPredicate)
      requires ParsedQuery(text1, false).Ok? && ParsedQuery(text2, false).Ok?
      requires forall w :: w in ParsedQuery(text1, false).value.plusWords <==> w in ParsedQuery(text2, false).value.plusWords
      requires forall w :: w in ParsedQuery(text1, false).value.minusWords <==> w in ParsedQuery(text2, false).value.minusWords
      ensures TopDocuments(text1, pred) == TopDocuments(text2, pred)
    {
      var q1 := ParsedQuery(text1, false).value;
      var q2 := ParsedQuery(text2, false).value;
      StrictlySortedUnique(SortUnique(q1.plusWords), SortUnique(q2.plusWords));
      StrictlySortedUnique(SortUnique(q1.minusWords), SortUnique(q2.minusWords));
    }

    /** The status overloads return only documents with that status. */
    lemma StatusOverloadFilters(rawQuery: string, status: DocumentStatus, d: Document)
      requires TopDocuments(rawQuery, StatusIs(status)).Ok? && d in TopDocuments(rawQuery, StatusIs(status)).value
      ensures d.id in documents && documents[d.id].status == status
    {
      TopDocumentsSound(rawQuery, StatusIs(status), d);
    }

    /** A query that parses and consists of stop words only finds nothing. */
    lemma StopWordQueryFindsNothing(rawQuery: string, pred: DocumentPredicate)
      requires ParsedQuery(rawQuery, false).Ok?
      requires forall t :: t in Words(rawQuery) ==> t in stopWords
      ensures TopDocuments(rawQuery, pred) == Ok([])
    {
      ParsePlusWords(Words(rawQuery));
      assert ParsedQuery(rawQuery, true).value.plusWords == [];
    }

    /** A single plus word that is not a stop word is the whole query. */
    lemma OneWordQuery(word: string)
      requires ' ' !in word
      requires ParseQueryWord(word).Ok? && !ParseQueryWord(word).value.isMinus && word !in stopWords
      ensures ParsedQuery(word, true) == Ok(Query([word], []))
    {
      WordsOfSpaceFree(word);
      var none: seq<string> := [];
      assert none + [word] == [word];
      ParseTokensStep(none, word);
      assert ParseTokens([word]) == Ok(Query([word], []));
      StrictlySortedUnique(SortUnique([word]), [word]);
      StrictlySortedUnique(SortUnique(none), none);
    }

    /** A one-word query finds a document holding that word when at most five documents hold it. */
    lemma ContainedWordFindsDocument(word: string, id: int, pred: DocumentPredicate)
      requires ' ' !in word
      requires ParseQueryWord(word).Ok? && !ParseQueryWord(word).value.isMinus && word !in stopWords
      requires Posted(wordToDocumentFreqs, word, id) && Admitted(documents, pred, id)
      requires |set d | d in documents && Posted(wordToDocumentFreqs, word, d)| <= MaxResultDocumentCount
      ensures TopDocuments(word, pred).Ok?
      ensures exists d :: d in TopDocuments(word, pred).value && d.id == id
    {
      OneWordQuery(word);
      OneWordHits(wordToDocumentFreqs, documents, word, pred, id);
      TopDocumentsKeepsFew(word, pred, id);
    }

    /** `FindTopDocuments(raw_query, predicate)` (sequential). */
    method FindTopDocuments(rawQuery: string, pred: DocumentPredicate) returns (r: Result<seq<Document>>)
      requires Valid()
      ensures r == TopDocuments(rawQuery, pred)
    {
      var parsed := ParseQuery(rawQuery, false);
      if parsed.Err? {
        return Err(parsed.error);
      }
      var query := Query(SortUnique(parsed.value.plusWords), SortUnique(parsed.value.minusWords));
      var matchedDocuments := FindAllDocuments(query, pred);
      matchedDocuments := RankSort(matchedDocuments);
      if |matchedDocuments| > MaxResultDocumentCount {
        matchedDocuments := matchedDocuments[..MaxResultDocumentCount];
      }
      return Ok(matchedDocuments);
    }

    /** `FindTopDocuments(raw_query, status)`. */
    method FindTopDocumentsWithStatus(rawQuery: string, status: DocumentStatus) returns (r: Result<seq<Document>>)
      requires Valid()
      ensures r == TopDocuments(rawQuery, StatusIs(status))
    {
      r := FindTopDocuments(rawQuery, StatusIs(status));
    }

    /** `FindTopDocuments(raw_query)`: the status overload with `ACTUAL`. */
    method FindTopDocumentsActual(rawQuery: string) returns (r: Result<seq<Document>>)
      requires Valid()
      ensures r == TopDocuments(rawQuery, StatusIs(Actual))
    {
      r := FindTopDocumentsWithStatus(rawQuery, Actual);
    }
  }
}
