/**
 * `RequestQueue`: wraps the `FindTopDocuments` overloads of one server and
 * keeps, for the last `MinInDay` successful requests, whether each found
 * nothing, together with a counter of those empty ones.
 */
module RequestQueueModel {
  import opened Errors
  import opened Ranking
  import opened SearchServerModel

  /** Capacity of the window: one request a minute for a day. */
  const MinInDay := 1440

  /** One recorded request; `QueryResult()` starts out as not empty. */
  datatype QueryResult = QueryResult(isEmpty: bool)

  const DefaultQueryResult := QueryResult(false)

  /** Number of recorded requests that found nothing. */
  function CountEmpty(requests: seq<QueryResult>): (n: nat)
    ensures n <= |requests|
  {
    if requests == [] then 0
    else (if requests[0].isEmpty then 1 else 0) + CountEmpty(requests[1..])
  }

  lemma {:induction false} CountEmptyAppend(a: seq<QueryResult>, b: seq<QueryResult>)
    ensures CountEmpty(a + b) == CountEmpty(a) + CountEmpty(b)
  {
    if a != [] {
      assert (a + b)[1..] == a[1..] + b;
      CountEmptyAppend(a[1..], b);
    } else {
      assert a + b == b;
    }
  }

  /**
   * The window after the requests whose empty flags are `history`, oldest
   * first: the last `min(|history|, MinInDay)` of them, in call order.
   */
  function Window(history: seq<bool>): (w: seq<QueryResult>)
    ensures |w| == if |history| <= MinInDay then |history| else MinInDay
    ensures forall i :: 0 <= i < |w| ==> w[i].isEmpty == history[|history| - |w| + i]
  {
    var recent := if |history| <= MinInDay then history else history[|history| - MinInDay..];
    seq(|recent|, i requires 0 <= i < |recent| => QueryResult(recent[i]))
  }

  /** One step of `Request_Processing_` on the window: drop the oldest when full, then append. */
  function Slide(requests: seq<QueryResult>, result: QueryResult): seq<QueryResult>
  {
    if |requests| >= MinInDay then requests[1..] + [result] else requests + [result]
  }

  /** Sliding the window of `history` by one flag gives the window of the longer history. */
  lemma SlideWindow(history: seq<bool>, isEmpty: bool)
    ensures Slide(Window(history), QueryResult(isEmpty)) == Window(history + [isEmpty])
  {
    var before := Window(history);
    var after := Window(history + [isEmpty]);
    var slid := Slide(before, QueryResult(isEmpty));
    assert |slid| == |after|;
    forall i | 0 <= i < |after|
      ensures slid[i] == after[i]
    {
    }
  }

  /** The counter update of `Request_Processing_`: minus the dropped empty flag, plus the new one. */
  lemma SlideCount(requests: seq<QueryResult>, result: QueryResult)
    ensures CountEmpty(Slide(requests, result)) ==
      CountEmpty(requests)
      - (if |requests| >= MinInDay && requests[0].isEmpty then 1 else 0)
      + (if result.isEmpty then 1 else 0)
  {
    var kept := if |requests| >= MinInDay then requests[1..] else requests;
    CountEmptyAppend(kept, [result]);
    assert CountEmpty([result]) == if result.isEmpty then 1 else 0;
    assert Slide(requests, result) == kept + [result];
  }

  /** `flags` fed one by one into the window, as successive requests do. */
  function Replay(requests: seq<QueryResult>, flags: seq<bool>): seq<QueryResult>
    decreases |flags|
  {
    if flags == [] then requests else Replay(Slide(requests, QueryResult(flags[0])), flags[1..])
  }

  /** After `n` more requests the window is the last `min(n, MinInDay)` flags of the whole history. */
  lemma {:induction false} ReplayIsWindow(history: seq<bool>, flags: seq<bool>)
    ensures Replay(Window(history), flags) == Window(history + flags)
    decreases |flags|
  {
    if flags == [] {
      assert history + flags == history;
    } else {
      SlideWindow(history, flags[0]);
      ReplayIsWindow(history + [flags[0]], flags[1..]);
      assert history + [flags[0]] + flags[1..] == history + flags;
    }
  }

  /** A fresh queue replays to exactly the window of its requests. */
  lemma ReplayFromEmpty(flags: seq<bool>)
    ensures Replay([], flags) == Window(flags)
    ensures |Replay([], flags)| <= MinInDay
  {
    assert Window([]) == [];
    ReplayIsWindow([], flags);
    assert [] + flags == flags;
  }

  class RequestQueue {
    /** The server asked; the queue only reads it. */
    const server: SearchServer
    var requests: seq<QueryResult>
    var noResultRequests: int
    /** The empty flags of every recorded request since construction, oldest first. */
    ghost var history: seq<bool>

    /** The window is the tail of the history and the counter counts its empty flags. */
    ghost predicate Valid()
      reads this
    {
      && requests == Window(history)
      && noResultRequests == CountEmpty(requests)
    }

    constructor (server: SearchServer)
      ensures this.server == server
      ensures requests == [] && noResultRequests == 0 && history == []
      ensures Valid()
    {
      this.server := server;
      requests := [];
      noResultRequests := 0;
      history := [];
    }

    /** The counter: the number of the last `min(n, MinInDay)` requests that found nothing. */
    function GetNoResultRequests(): (n: int)
      reads this
      requires Valid()
      ensures n == CountEmpty(Window(history))
      ensures 0 <= n <= |requests| <= MinInDay
    {
      noResultRequests
    }

    /** `Request_Processing_`: records whether `result` is empty and hands it back unchanged. */
    method RequestProcessing(result: seq<Document>) returns (r: seq<Document>)
      requires Valid()
      modifies this
      ensures Valid()
      ensures r == result
      ensures history == old(history) + [|result| == 0]
      ensures requests == Slide(old(requests), QueryResult(|result| == 0))
      ensures noResultRequests == CountEmpty(requests)
    {
      SlideCount(requests, QueryResult(|result| == 0));
      SlideWindow(history, |result| == 0);
      ghost var before := requests;
      if |requests| >= MinInDay {
        if requests[0].isEmpty {
          noResultRequests := noResultRequests - 1;
        }
        requests := requests[1..];
      }
      var temp := DefaultQueryResult;
      if |result| == 0 {
        temp := temp.(isEmpty := true);
        noResultRequests := noResultRequests + 1;
      }
      requests := requests + [temp];
      history := history + [temp.isEmpty];
      assert requests == Slide(before, temp);
      return result;
    }

    /** `AddFindRequest(raw_query, predicate)`: a query that throws is not recorded. */
    method AddFindRequest(rawQuery: string, pred: DocumentPredicate) returns (r: Result<seq<Document>>)
      requires Valid() && server.Valid()
      modifies this
      ensures Valid()
      ensures r == server.TopDocuments(rawQuery, pred)
      ensures r.Err? ==> unchanged(this)
      ensures r.Ok? ==> history == old(history) + [|r.value| == 0]
      ensures r.Ok? ==> requests == Slide(old(requests), QueryResult(|r.value| == 0))
    {
      var found := server.FindTopDocuments(rawQuery, pred);
      if found.Err? {
        return Err(found.error);
      }
      var result := RequestProcessing(found.value);
      return Ok(result);
    }

    /** `AddFindRequest(raw_query, status)`. */
    method AddFindRequestWithStatus(rawQuery: string, status: DocumentStatus) returns (r: Result<seq<Document>>)
      requires Valid() && server.Valid()
      modifies this
      ensures Valid()
      ensures r == server.TopDocuments(rawQuery, StatusIs(status))
      ensures r.Err? ==> unchanged(this)
      ensures r.Ok? ==> history == old(history) + [|r.value| == 0]
      ensures r.Ok? ==> requests == Slide(old(requests), QueryResult(|r.value| == 0))
    {
      var found := server.FindTopDocumentsWithStatus(rawQuery, status);
      if found.Err? {
        return Err(found.error);
      }
      var result := RequestProcessing(found.value);
      return Ok(result);
    }

    /** `AddFindRequest(raw_query)`: the `ACTUAL` documents. */
    method AddFindRequestActual(rawQuery: string) returns (r: Result<seq<Document>>)
      requires Valid() && server.Valid()
      modifies this
      ensures Valid()
      ensures r == server.TopDocuments(rawQuery, StatusIs(Actual))
      ensures r.Err? ==> unchanged(this)
      ensures r.Ok? ==> history == old(history) + [|r.value| == 0]
      ensures r.Ok? ==> requests == Slide(old(requests), QueryResult(|r.value| == 0))
    {
      var found := server.FindTopDocumentsActual(rawQuery);
      if found.Err? {
        return Err(found.error);
      }
      var result := RequestProcessing(found.value);
      return Ok(result);
    }
  }
}
