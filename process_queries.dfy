/**
 * `ProcessQueries` and `ProcessQueriesJoined`: the default `FindTopDocuments`
 * (ACTUAL documents) applied to a list of queries, one result list per query,
 * and those lists concatenated in query order.
 */
module QueryBatch {
  import opened Errors
  import opened Ranking
  import opened SearchServerModel

  /** Every query of the batch parses, so none of them throws. */
  predicate AllParse(server: SearchServer, queries: seq<string>)
  {
    forall i :: 0 <= i < |queries| ==> server.ParsedQuery(queries[i], false).Ok?
  }

  /** The answer of each query, in query order. */
  function Answers(server: SearchServer, queries: seq<string>): (r: seq<seq<Document>>)
    reads server
    requires AllParse(server, queries)
    ensures |r| == |queries|
  {
    if queries == [] then []
    else
      var init := queries[..|queries| - 1];
      server.TopDocumentsShape(queries[|queries| - 1], StatusIs(Actual));
      Answers(server, init) + [server.TopDocuments(queries[|queries| - 1], StatusIs(Actual)).value]
  }

  /** The `i`-th answer is `FindTopDocuments(queries[i])`, whatever order the queries are worked in. */
  lemma {:induction false} AnswersAt(server: SearchServer, queries: seq<string>, i: int)
    requires AllParse(server, queries)
    requires 0 <= i < |queries|
    ensures server.TopDocuments(queries[i], StatusIs(Actual)) == Ok(Answers(server, queries)[i])
    decreases |queries|
  {
    server.TopDocumentsShape(queries[i], StatusIs(Actual));
    var init := queries[..|queries| - 1];
    if i < |queries| - 1 {
      assert init[i] == queries[i];
      AnswersAt(server, init, i);
    }
  }

  /** Each answer holds at most five documents with distinct ids, best first. */
  lemma AnswersShape(server: SearchServer, queries: seq<string>, i: int)
    requires AllParse(server, queries)
    requires 0 <= i < |queries|
    ensures |Answers(server, queries)[i]| <= MaxResultDocumentCount
    ensures Ranked(Answers(server, queries)[i]) && DistinctIds(Answers(server, queries)[i])
  {
    AnswersAt(server, queries, i);
    server.TopDocumentsShape(queries[i], StatusIs(Actual));
  }

  /** The lists one after another. */
  function Flatten(lists: seq<seq<Document>>): seq<Document>
  {
    if lists == [] then [] else Flatten(lists[..|lists| - 1]) + lists[|lists| - 1]
  }

  /** Sum of the list lengths. */
  function TotalLength(lists: seq<seq<Document>>): nat
  {
    if lists == [] then 0 else TotalLength(lists[..|lists| - 1]) + |lists[|lists| - 1]|
  }

  lemma {:induction false} FlattenLength(lists: seq<seq<Document>>)
    ensures |Flatten(lists)| == TotalLength(lists)
  {
    if lists != [] {
      FlattenLength(lists[..|lists| - 1]);
    }
  }

  /** Concatenation keeps order across batches: joining two batches is joining each. */
  lemma {:induction false} FlattenAppend(a: seq<seq<Document>>, b: seq<seq<Document>>)
    ensures Flatten(a + b) == Flatten(a) + Flatten(b)
    decreases |b|
  {
    if b == [] {
      assert a + b == a;
    } else {
      var init := b[..|b| - 1];
      assert (a + b)[..|a + b| - 1] == a + init;
      FlattenAppend(a, init);
    }
  }

  /** A document is in the joined list exactly when it is in one of the lists. */
  lemma {:induction false} FlattenMembers(lists: seq<seq<Document>>, d: Document)
    ensures d in Flatten(lists) <==> exists i :: 0 <= i < |lists| && d in lists[i]
  {
    if lists != [] {
      var init := lists[..|lists| - 1];
      FlattenMembers(init, d);
      if exists i :: 0 <= i < |init| && d in init[i] {
        var i :| 0 <= i < |init| && d in init[i];
        assert lists[i] == init[i];
      }
      if exists i :: 0 <= i < |lists| && d in lists[i] {
        var i :| 0 <= i < |lists| && d in lists[i];
        if i < |init| {
          assert init[i] == lists[i];
        }
      }
    }
  }

  /** With at most `k` documents a list, `n` lists join to at most `k * n` documents. */
  lemma {:induction false} TotalLengthBound(lists: seq<seq<Document>>, k: nat)
    requires forall i :: 0 <= i < |lists| ==> |lists[i]| <= k
    ensures TotalLength(lists) <= k * |lists|
  {
    if lists != [] {
      var init := lists[..|lists| - 1];
      assert forall i :: 0 <= i < |init| ==> init[i] == lists[i];
      TotalLengthBound(init, k);
    }
  }

  /** The joined answers hold at most five documents per query. */
  lemma JoinedBound(server: SearchServer, queries: seq<string>)
    requires AllParse(server, queries)
    ensures |Flatten(Answers(server, queries))| <= MaxResultDocumentCount * |queries|
  {
    var answers := Answers(server, queries);
    forall i | 0 <= i < |answers|
      ensures |answers[i]| <= MaxResultDocumentCount
    {
      AnswersShape(server, queries, i);
    }
    FlattenLength(answers);
    TotalLengthBound(answers, MaxResultDocumentCount);
  }

  /** `ProcessQueries`, worked through in order; the server is only read. */
  method ProcessQueries(server: SearchServer, queries: seq<string>) returns (r: seq<seq<Document>>)
    requires server.Valid()
    requires AllParse(server, queries)
    ensures r == Answers(server, queries)
  {
    r := [];
    for i := 0 to |queries|
      invariant AllParse(server, queries[..i])
      invariant r == Answers(server, queries[..i])
    {
      assert AllParse(server, queries[..i + 1]);
      assert queries[..i + 1][..i] == queries[..i];
      var found := server.FindTopDocumentsActual(queries[i]);
      server.TopDocumentsShape(queries[i], StatusIs(Actual));
      r := r + [found.value];
    }
    assert queries[..|queries|] == queries;
  }

  /** `ProcessQueriesJoined`: the answers appended one list after another, not re-ranked. */
  method ProcessQueriesJoined(server: SearchServer, queries: seq<string>) returns (r: seq<Document>)
    requires server.Valid()
    requires AllParse(server, queries)
    ensures r == Flatten(Answers(server, queries))
  {
    var results := ProcessQueries(server, queries);
    r := [];
    for i := 0 to |results|
      invariant r == Flatten(results[..i])
    {
      assert results[..i + 1][..i] == results[..i];
      r := r + results[i];
    }
    assert results[..|results|] == results;
  }
}
