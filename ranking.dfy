/**
 * Result documents, the ranking comparator of `FindTopDocuments`, the sort
 * it applies and the cut to `MAX_RESULT_DOCUMENT_COUNT`.
 */
module Ranking {

  /** A search hit: `{id, relevance, rating}`. */
  datatype Document = Document(id: int, relevance: real, rating: int)

  const MaxResultDocumentCount: nat := 5

  /**
   * The comparator: higher relevance first, equal relevance ordered by
   * higher rating. Relevances are exact reals here, so "equal" is exact.
   */
  predicate Before(a: Document, b: Document)
  {
    if a.relevance == b.relevance then a.rating > b.rating else a.relevance > b.relevance
  }

  lemma BeforeTransitive(a: Document, b: Document, c: Document)
    requires Before(a, b) && Before(b, c)
    ensures Before(a, c)
  {
  }

  /** No document is ranked strictly better than one placed before it. */
  predicate Ranked(s: seq<Document>)
  {
    forall i, j :: 0 <= i < j < |s| ==> !Before(s[j], s[i])
  }

  /** No two documents share an id. */
  predicate DistinctIds(s: seq<Document>)
  {
    forall i, j :: 0 <= i < j < |s| ==> s[i].id != s[j].id
  }

  /** Inserts `d` into a ranked sequence in front of the first document it beats. */
  function InsertRanked(s: seq<Document>, d: Document): (r: seq<Document>)
    requires Ranked(s)
    ensures Ranked(r)
    ensures multiset(r) == multiset(s) + multiset{d}
    ensures forall x :: x in r <==> x in s || x == d
  {
    if s == [] then [d]
    else if Before(d, s[0]) then
      assert forall j :: 0 <= j < |s| ==> !Before(s[j], d) by {
        forall j | 0 <= j < |s|
          ensures !Before(s[j], d)
        {
          if Before(s[j], d) {
            BeforeTransitive(s[j], d, s[0]);
          }
        }
      }
      [d] + s
    else
      var rest := InsertRanked(s[1..], d);
      assert s == [s[0]] + s[1..];
      assert forall x :: x in rest ==> !Before(x, s[0]);
      [s[0]] + rest
  }

  /** `std::sort` with the comparator: a ranked permutation of its input. */
  function RankSort(s: seq<Document>): (r: seq<Document>)
    ensures Ranked(r)
    ensures multiset(r) == multiset(s)
    ensures |r| == |s|
    ensures forall x :: x in r <==> x in s
  {
    if s == [] then []
    else
      var init := s[..|s| - 1];
      assert s == init + [s[|s| - 1]];
      var r := InsertRanked(RankSort(init), s[|s| - 1]);
      assert |r| == |multiset(r)|;
      r
  }

  lemma {:induction false} InsertRankedDistinct(s: seq<Document>, d: Document)
    requires Ranked(s) && DistinctIds(s)
    requires forall x :: x in s ==> x.id != d.id
    ensures DistinctIds(InsertRanked(s, d))
    decreases |s|
  {
    if s != [] && !Before(d, s[0]) {
      assert forall x :: x in s[1..] ==> x in s;
      InsertRankedDistinct(s[1..], d);
      var rest := InsertRanked(s[1..], d);
      assert forall x :: x in rest ==> x.id != s[0].id;
    }
  }

  /** Sorting keeps ids distinct. */
  lemma {:induction false} RankSortDistinct(s: seq<Document>)
    requires DistinctIds(s)
    ensures DistinctIds(RankSort(s))
    decreases |s|
  {
    if s != [] {
      var init := s[..|s| - 1];
      assert s == init + [s[|s| - 1]];
      RankSortDistinct(init);
      assert forall x :: x in RankSort(init) ==> x.id != s[|s| - 1].id;
      InsertRankedDistinct(RankSort(init), s[|s| - 1]);
    }
  }

  /** `resize(MAX_RESULT_DOCUMENT_COUNT)` when there are more. */
  function Truncate(s: seq<Document>): seq<Document>
  {
    if |s| > MaxResultDocumentCount then s[..MaxResultDocumentCount] else s
  }

  /** The best documents of `s`, best first, at most five. */
  function Top(s: seq<Document>): (r: seq<Document>)
    ensures |r| <= MaxResultDocumentCount
    ensures |r| == if |s| <= MaxResultDocumentCount then |s| else MaxResultDocumentCount
    ensures Ranked(r)
    ensures forall d :: d in r ==> d in s
  {
    var sorted := RankSort(s);
    var r := Truncate(sorted);
    assert forall d :: d in r ==> d in sorted;
    r
  }

  /** With at most five candidates, every candidate is returned. */
  lemma TopKeepsAllFew(s: seq<Document>)
    requires |s| <= MaxResultDocumentCount
    ensures multiset(Top(s)) == multiset(s)
  {
  }

  /** No candidate left out ranks strictly better than one returned. */
  lemma TopIsBest(s: seq<Document>, d: Document, e: Document)
    requires d in Top(s) && e in s && e !in Top(s)
    ensures !Before(e, d)
  {
    var sorted := RankSort(s);
    assert e in sorted;
    var i :| 0 <= i < |Top(s)| && Top(s)[i] == d;
    var j :| 0 <= j < |sorted| && sorted[j] == e;
    assert sorted[i] == d;
    assert j >= |Top(s)|;
  }

  /** Distinct ids survive the cut. */
  lemma TopDistinct(s: seq<Document>)
    requires DistinctIds(s)
    ensures DistinctIds(Top(s))
  {
    RankSortDistinct(s);
  }
}
