/**
 * `RemoveDuplicates`: scans the ids in ascending order, fingerprints each
 * document by the set of its words (frequencies ignored) and afterwards
 * removes every document whose fingerprint an earlier one already had.
 */
module DuplicateRemoval {
  import opened Errors
  import opened Index
  import opened Ids
  import opened SearchServerModel

  /** Ids of `ids` whose word set equals the word set of a smaller id of `ids`. */
  function Duplicates(rev: ReverseIndex<string>, ids: set<int>): (d: set<int>)
    requires ids <= rev.Keys
    ensures d <= ids
  {
    set id | id in ids && exists e :: e in ids && e < id && rev[e].Keys == rev[id].Keys
  }

  /** The fingerprint loop: the keys of one reverse entry, gathered one by one. */
  method WordSetOf(freqs: map<string, real>) returns (words: set<string>)
    ensures words == freqs.Keys
  {
    words := {};
    var todo := freqs.Keys;
    while todo != {}
      invariant todo <= freqs.Keys
      invariant words == freqs.Keys - todo
      decreases todo
    {
      NonEmptyHasWord(todo);
      var word :| word in todo;
      words := words + {word};
      todo := todo - {word};
    }
  }

  /** The word sets of the documents in `ids`. */
  function Fingerprints(rev: ReverseIndex<string>, ids: set<int>): set<set<string>>
    requires ids <= rev.Keys
  {
    set id | id in ids :: rev[id].Keys
  }

  /** Scanning one more id, larger than all scanned so far, adds it to the duplicates iff its word set was seen. */
  lemma DuplicatesStep(rev: ReverseIndex<string>, scanned: set<int>, x: int)
    requires scanned <= rev.Keys && x in rev
    requires forall e :: e in scanned ==> e < x
    ensures Fingerprints(rev, scanned + {x}) == Fingerprints(rev, scanned) + {rev[x].Keys}
    ensures Duplicates(rev, scanned + {x}) ==
      Duplicates(rev, scanned) + if rev[x].Keys in Fingerprints(rev, scanned) then {x} else {}
  {
    var d := Duplicates(rev, scanned + {x});
    forall id
      ensures id in d <==> id in Duplicates(rev, scanned) + if rev[x].Keys in Fingerprints(rev, scanned) then {x} else {}
    {
      if id == x && rev[x].Keys in Fingerprints(rev, scanned) {
        var e :| e in scanned && rev[e].Keys == rev[x].Keys;
        assert e < x;
      }
    }
  }

  /**
   * The scan of `RemoveDuplicates` over the ascending `ids`: keeps the
   * fingerprints seen so far and collects the ids that repeat one. It fails
   * like `GetWordFrequencies` at a known id without a reverse entry.
   */
  method ScanDuplicates(allIds: set<int>, rev: ReverseIndex<string>, ids: seq<int>) returns (r: Result<set<int>>)
    requires StrictlyIncreasing(ids) && forall id :: id in ids <==> id in allIds
    ensures r.Err? <==> exists id :: id in allIds && id !in rev
    ensures r.Err? ==> r.error == OutOfRange
    ensures r.Ok? ==> allIds <= rev.Keys && r.value == Duplicates(rev, allIds)
  {
    ghost var scanned: set<int> := {};
    var toRemove := {};
    var allWords: set<set<string>> := {};
    for i := 0 to |ids|
      invariant Scanned(rev, ids, i, scanned)
      invariant allWords == Fingerprints(rev, scanned)
      invariant toRemove == Duplicates(rev, scanned)
    {
      var freqs := WordFrequencies(allIds, rev, ids[i]);
      if freqs.Err? {
        return Err(freqs.error);
      }
      var thisDocWords := WordSetOf(freqs.value);
      ScanStep(rev, ids, i, scanned);
      if thisDocWords in allWords {
        toRemove := toRemove + {ids[i]};
      } else {
        allWords := allWords + {thisDocWords};
      }
      scanned := scanned + {ids[i]};
    }
    ScanDone(rev, ids, scanned);
    assert scanned == allIds by {
      forall e
        ensures e in scanned <==> e in allIds
      {
      }
    }
    return Ok(toRemove);
  }

  /** `scanned` holds exactly the first `i` of the ascending `ids`, each with a reverse entry. */
  ghost predicate Scanned(rev: ReverseIndex<string>, ids: seq<int>, i: int, scanned: set<int>)
  {
    && 0 <= i <= |ids|
    && scanned <= rev.Keys
    && (forall e :: e in scanned ==> e in ids[..i])
    && (forall k :: 0 <= k < i ==> ids[k] in scanned)
  }

  lemma ScanStep(rev: ReverseIndex<string>, ids: seq<int>, i: int, scanned: set<int>)
    requires StrictlyIncreasing(ids)
    requires Scanned(rev, ids, i, scanned) && i < |ids| && ids[i] in rev
    ensures Scanned(rev, ids, i + 1, scanned + {ids[i]})
    ensures Fingerprints(rev, scanned + {ids[i]}) == Fingerprints(rev, scanned) + {rev[ids[i]].Keys}
    ensures Duplicates(rev, scanned + {ids[i]}) ==
      Duplicates(rev, scanned) + if rev[ids[i]].Keys in Fingerprints(rev, scanned) then {ids[i]} else {}
  {
    assert ids[..i + 1] == ids[..i] + [ids[i]];
    forall e | e in scanned
      ensures e < ids[i]
    {
      var k :| 0 <= k < i && ids[k] == e;
    }
    DuplicatesStep(rev, scanned, ids[i]);
  }

  lemma ScanDone(rev: ReverseIndex<string>, ids: seq<int>, scanned: set<int>)
    requires Scanned(rev, ids, |ids|, scanned)
    ensures forall e :: e in scanned <==> e in ids
  {
    assert ids[..|ids|] == ids;
  }

  /** A document is removed only when a smaller id that stays has exactly its word set. */
  lemma LowestSurvives(rev: ReverseIndex<string>, ids: set<int>, id: int)
    requires ids <= rev.Keys
    requires id in Duplicates(rev, ids)
    ensures exists e :: e in ids - Duplicates(rev, ids) && e < id && rev[e].Keys == rev[id].Keys
  {
    var group := set e | e in ids && rev[e].Keys == rev[id].Keys;
    assert id in group;
    var least := Min(group);
    assert least in ids && rev[least].Keys == rev[id].Keys;
    forall e | e in ids && rev[e].Keys == rev[id].Keys
      ensures least <= e
    {
      assert e in group;
    }
    assert least !in Duplicates(rev, ids);
    var e :| e in ids && e < id && rev[e].Keys == rev[id].Keys;
    assert e in group;
  }

  /** The documents that stay have pairwise different word sets. */
  lemma NoDuplicatesRemain(rev: ReverseIndex<string>, ids: set<int>, a: int, b: int)
    requires ids <= rev.Keys
    requires a in ids - Duplicates(rev, ids) && b in ids - Duplicates(rev, ids) && a != b
    ensures rev[a].Keys != rev[b].Keys
  {
  }

  /** A second run finds nothing to remove. */
  lemma SecondRunRemovesNothing(rev: ReverseIndex<string>, ids: set<int>)
    requires ids <= rev.Keys
    ensures Duplicates(rev - Duplicates(rev, ids), ids - Duplicates(rev, ids)) == {}
  {
  }

  /** The removal loop of `RemoveDuplicates`: `RemoveDocument` for each id of `ids`, ascending. */
  method RemoveAll(server: SearchServer, ids: set<int>)
    requires server.Valid()
    requires ids <= server.idToWordFreqs.Keys
    modifies server
    ensures server.Valid()
    ensures server.wordToDocumentFreqs == RemoveAllFromIndex(old(server.wordToDocumentFreqs), ids)
    ensures server.idToWordFreqs == old(server.idToWordFreqs) - ids
    ensures server.documents == old(server.documents) - ids
    ensures server.allIds == old(server.allIds) - ids
  {
    ghost var fwd0 := server.wordToDocumentFreqs;
    ghost var rev0 := server.idToWordFreqs;
    ghost var documents0 := server.documents;
    ghost var allIds0 := server.allIds;
    var rest := ids;
    ghost var removed: set<int> := {};
    RemoveNone(fwd0);
    while rest != {}
      invariant rest <= ids && removed == ids - rest
      invariant server.Valid()
      invariant server.wordToDocumentFreqs == RemoveAllFromIndex(fwd0, removed)
      invariant server.idToWordFreqs == rev0 - removed
      invariant server.documents == documents0 - removed
      invariant server.allIds == allIds0 - removed
      decreases rest
    {
      var id := Min(rest);
      var removal := server.RemoveDocument(id);
      assert removal.Ok?;
      RemoveAllStep(fwd0, removed, id);
      MapMinusStep(rev0, removed, id);
      MapMinusStep(documents0, removed, id);
      removed := removed + {id};
      rest := rest - {id};
    }
    assert removed == ids;
  }

  /** `RemoveDuplicates`. */
  method RemoveDuplicates(server: SearchServer) returns (r: Result<()>)
    requires server.Valid()
    modifies server
    ensures server.Valid()
    ensures r.Err? <==> exists id :: id in old(server.allIds) && id !in old(server.idToWordFreqs)
    ensures r.Err? ==> r.error == OutOfRange && unchanged(server)
    ensures r.Ok? ==> old(server.allIds) <= old(server.idToWordFreqs.Keys)
    ensures r.Ok? ==>
      server.wordToDocumentFreqs == RemoveAllFromIndex(old(server.wordToDocumentFreqs), Duplicates(old(server.idToWordFreqs), old(server.allIds)))
    ensures r.Ok? ==> server.idToWordFreqs == old(server.idToWordFreqs) - Duplicates(old(server.idToWordFreqs), old(server.allIds))
    ensures r.Ok? ==> server.documents == old(server.documents) - Duplicates(old(server.idToWordFreqs), old(server.allIds))
    ensures r.Ok? ==> server.allIds == old(server.allIds) - Duplicates(old(server.idToWordFreqs), old(server.allIds))
    ensures r.Ok? ==> |server.allIds| == |old(server.allIds)| - |Duplicates(old(server.idToWordFreqs), old(server.allIds))|
  {
    var found := ScanDuplicates(server.allIds, server.idToWordFreqs, server.Ids());
    if found.Err? {
      return Err(found.error);
    }
    var toRemove := found.value;
    ghost var allIds0 := server.allIds;
    RemoveAll(server, toRemove);
    SubsetSize(toRemove, allIds0);
    assert |allIds0 - toRemove| == |allIds0| - |toRemove| by {
      assert allIds0 == (allIds0 - toRemove) + toRemove;
    }
    return Ok(());
  }
}
