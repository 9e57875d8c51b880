/**
 * The check the program's `Test` runs on three servers built from the stop
 * words "и в на" (as one text, as a vector and as a set): after adding the
 * document "кот в мешке", the query made of the stop word "в" finds nothing
 * and the query "кот" finds that document.
 */
module SearchExample {
  import opened Errors
  import opened StringProcessing
  import opened Index
  import opened Ranking
  import opened SearchServerModel

  const ExampleStopWords: set<string> := {"и", "в", "на"}

  /** Three space-free words joined by single spaces split back into those three words. */
  lemma WordsThree(a: string, b: string, c: string)
    requires ' ' !in a && ' ' !in b && ' ' !in c
    ensures Words(a + " " + b + " " + c) == [a, b, c]
  {
    WordsOfSpaceFree(a);
    WordsOfSpaceFree(b);
    WordsOfSpaceFree(c);
    WordsAppend(b, c);
    WordsAppend(a, b + " " + c);
    assert a + " " + (b + " " + c) == a + " " + b + " " + c;
  }

  /** The stop-word text and the document of the example are three-word texts. */
  lemma ExampleTexts()
    ensures Words("и в на") == ["и", "в", "на"]
    ensures Words("кот в мешке") == ["кот", "в", "мешке"]
  {
    WordsThree("и", "в", "на");
    assert "и" + " " + "в" + " " + "на" == "и в на";
    WordsThree("кот", "в", "мешке");
    assert "кот" + " " + "в" + " " + "мешке" == "кот в мешке";
  }

  /** Every listing of the three stop words builds the same stop-word set. */
  lemma ListingBuildsStopWords(listing: seq<string>)
    requires forall w :: w in listing <==> w in ExampleStopWords
    ensures UniqueNonEmpty(listing) == ExampleStopWords
  {
  }

  /** With the example stop words, the document keeps "кот" and "мешке" and drops "в". */
  lemma ExampleDocumentWords(server: SearchServer)
    requires server.stopWords == ExampleStopWords
    ensures server.NonStopWords("кот в мешке") == Ok(["кот", "мешке"])
  {
    ExampleTexts();
    ExampleTokensValid(["кот", "в", "мешке"]);
    ExampleDropStopWords(server, ["кот", "в", "мешке"]);
  }

  lemma ExampleDropStopWords(server: SearchServer, tokens: seq<string>)
    requires server.stopWords == ExampleStopWords
    requires tokens == ["кот", "в", "мешке"]
    ensures server.DropStopWords(tokens) == ["кот", "мешке"]
  {
    assert tokens[..|tokens| - 1] == ["кот", "в"];
    var two := ["кот", "в"];
    assert two[..|two| - 1] == ["кот"];
    var one := ["кот"];
    assert one[..|one| - 1] == [];
    assert server.DropStopWords(one) == ["кот"];
    assert server.DropStopWords(two) == ["кот"];
  }

  lemma ExampleTokensValid(tokens: seq<string>)
    requires tokens == ["кот", "в", "мешке"]
    ensures !exists i :: 0 <= i < |tokens| && !IsValidWord(tokens[i])
  {
    forall i | 0 <= i < |tokens|
      ensures IsValidWord(tokens[i])
    {
      forall k | 0 <= k < |tokens[i]|
        ensures tokens[i][k] >= ' '
      {
      }
    }
  }

  /** The stop word "в" alone parses, and every token of it is a stop word. */
  lemma ExampleStopQuery(server: SearchServer)
    requires server.stopWords == ExampleStopWords
    ensures server.ParsedQuery("в", false).Ok?
    ensures forall t :: t in Words("в") ==> t in server.stopWords
  {
    WordsOfSpaceFree("в");
    var none: seq<string> := [];
    assert none + ["в"] == ["в"];
    server.ParseTokensStep(none, "в");
  }

  /** In an index holding only document 0, at most one document holds any word. */
  lemma OneDocumentHolders(fwd: ForwardIndex<string>, documents: map<int, DocumentData>, word: string)
    requires documents.Keys == {0}
    ensures |set d | d in documents && Posted(fwd, word, d)| <= MaxResultDocumentCount
  {
    var holders := set d | d in documents && Posted(fwd, word, d);
    assert holders <= {0};
    Ids.SubsetSize(holders, {0});
  }

  /** Adds document 0, whose words other than stop words are "кот" and "мешке", to an empty server. */
  method AddExampleDocument(server: SearchServer, document: string, ratings: seq<int>)
    requires server.Valid() && server.IsEmpty() && server.stopWords == ExampleStopWords
    requires server.NonStopWords(document) == Ok(["кот", "мешке"])
    modifies server
    ensures server.Valid() && server.stopWords == ExampleStopWords
    ensures server.documents.Keys == {0} && server.documents[0].status == Actual
    ensures Posted(server.wordToDocumentFreqs, "кот", 0)
  {
    var added := server.AddDocument(0, document, Actual, ratings);
    assert added.Ok?;
    assert server.documents == map[0 := DocumentData(AverageRating(ratings), Actual)];
    assert server.wordToDocumentFreqs == AddToIndex(map[], 0, TermFrequencies(["кот", "мешке"]));
    assert "кот" in TermFrequencies(["кот", "мешке"]);
  }

  /** `check_search`: one document, one query by a stop word, one by a word of the document. */
  method CheckSearch(server: SearchServer, document: string, stopQuery: string, wordQuery: string)
    returns (stopHits: Result<seq<Document>>, wordHits: Result<seq<Document>>)
    requires server.Valid() && server.IsEmpty() && server.stopWords == ExampleStopWords
    requires document == "кот в мешке" && stopQuery == "в" && wordQuery == "кот"
    modifies server
    ensures stopHits == Ok([])
    ensures wordHits.Ok? && |wordHits.value| == 1 && wordHits.value[0].id == 0
  {
    ExampleDocumentWords(server);
    AddExampleDocument(server, document, [1, 2, 3]);
    ExampleStopQuery(server);
    server.StopWordQueryFindsNothing(stopQuery, StatusIs(Actual));
    stopHits := server.FindTopDocumentsActual(stopQuery);
    WordQueryFindsDocument(server, wordQuery);
    wordHits := server.FindTopDocumentsActual(wordQuery);
  }

  /** In an index holding only the `ACTUAL` document 0, a word of that document finds exactly it. */
  lemma WordQueryFindsDocument(server: SearchServer, wordQuery: string)
    requires server.Valid() && server.stopWords == ExampleStopWords
    requires server.documents.Keys == {0} && server.documents[0].status == Actual
    requires wordQuery == "кот" && Posted(server.wordToDocumentFreqs, wordQuery, 0)
    ensures server.TopDocuments(wordQuery, StatusIs(Actual)).Ok?
    ensures var hits := server.TopDocuments(wordQuery, StatusIs(Actual)).value;
      |hits| == 1 && hits[0].id == 0
  {
    WordsOfSpaceFree(wordQuery);
    OneDocumentHolders(server.wordToDocumentFreqs, server.documents, wordQuery);
    server.ContainedWordFindsDocument(wordQuery, 0, StatusIs(Actual));
    OnlyDocumentZero(server, server.TopDocuments(wordQuery, StatusIs(Actual)).value);
  }

  /** Results of "кот" from an index holding only document 0 are that one document. */
  lemma OnlyDocumentZero(server: SearchServer, hits: seq<Document>)
    requires server.Valid() && server.documents.Keys == {0}
    requires server.TopDocuments("кот", StatusIs(Actual)) == Ok(hits)
    requires exists d :: d in hits && d.id == 0
    ensures |hits| == 1 && hits[0].id == 0
  {
    server.TopDocumentsShape("кот", StatusIs(Actual));
    forall d | d in hits
      ensures d.id == 0
    {
      server.TopDocumentsSound("кот", StatusIs(Actual), d);
    }
    if |hits| > 1 {
      assert false;
    }
  }

  /** The words of the stop-word text are the three stop words. */
  lemma TextListsStopWords(text: string)
    requires text == "и в на"
    ensures forall w :: w in Words(text) <==> w in ExampleStopWords
  {
    ExampleTexts();
  }

  /** The vector and the set of `Test` list the three stop words. */
  lemma ContainersListStopWords(vector: seq<string>, ordered: seq<string>)
    requires vector == ["и", "в", "на"] && ordered == ["в", "и", "на"]
    ensures forall w :: w in vector <==> w in ExampleStopWords
    ensures forall w :: w in ordered <==> w in ExampleStopWords
  {
  }

  /** `check_search` on a server built from any container listing the three stop words. */
  method CheckSearchWith(idf: (int, int) -> real, stopWords: seq<string>)
    returns (stopHits: Result<seq<Document>>, wordHits: Result<seq<Document>>)
    requires forall w :: w in stopWords <==> w in ExampleStopWords
    ensures stopHits == Ok([])
    ensures wordHits.Ok? && |wordHits.value| == 1 && wordHits.value[0].id == 0
  {
    ListingBuildsStopWords(stopWords);
    assert forall w :: w in ExampleStopWords ==> w != "" && IsValidWord(w);
    var created := SearchServer.Create(stopWords, idf);
    stopHits, wordHits := CheckSearch(created.value, "кот в мешке", "в", "кот");
  }

  /** `check_search` on a server built by the text constructor. */
  method CheckSearchWithText(idf: (int, int) -> real, text: string)
    returns (stopHits: Result<seq<Document>>, wordHits: Result<seq<Document>>)
    requires text == "и в на"
    ensures stopHits == Ok([])
    ensures wordHits.Ok? && |wordHits.value| == 1 && wordHits.value[0].id == 0
  {
    TextListsStopWords(text);
    ListingBuildsStopWords(Words(text));
    assert forall w :: w in ExampleStopWords ==> w != "" && IsValidWord(w);
    var created := SearchServer.CreateFromText(text, idf);
    stopHits, wordHits := CheckSearch(created.value, "кот в мешке", "в", "кот");
  }

  /** `Test`: the same check on servers built from the stop words as a text, a vector and a set. */
  method Test(idf: (int, int) -> real) returns (stopHits: seq<Result<seq<Document>>>, wordHits: seq<Result<seq<Document>>>)
    ensures |stopHits| == 3 && |wordHits| == 3
    ensures forall i :: 0 <= i < 3 ==> stopHits[i] == Ok([])
    ensures forall i :: 0 <= i < 3 ==> wordHits[i].Ok? && |wordHits[i].value| == 1 && wordHits[i].value[0].id == 0
  {
    var s1, w1 := CheckSearchWithText(idf, "и в на");
    // A `std::set` hands its words over in ascending order.
    var vector, ordered := ["и", "в", "на"], ["в", "и", "на"];
    ContainersListStopWords(vector, ordered);
    var s2, w2 := CheckSearchWith(idf, vector);
    var s3, w3 := CheckSearchWith(idf, ordered);
    stopHits, wordHits := [s1, s2, s3], [w1, w2, w3];
  }
}
