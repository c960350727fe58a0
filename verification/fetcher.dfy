/**
  The retrieval loop of `User::saved` (src/user.rs:43-97), three ways:
  `Saved` is the loop itself over a sequence of responses; `Fetch` is a pure
  recursive reference for it; `RequestAt` and `StopOutcome` describe a run
  declaratively, request by request, in terms of where the responses stop
  continuing. The `Fetch...Characterised` lemmas tie the description to the
  reference, and the `Fetching...` lemmas tie the loop to the description.
 */
module Fetcher {
  import opened Types
  import opened Endpoints

  /** A response that lets the loop go on: a page that names a next cursor. */
  predicate Continues(r: Response)
  {
    r.Fetched? && r.page.after.Some?
  }

  /** The position of the first response that does not continue, or the length if none. */
  function StopIndex(rs: seq<Response>): (k: nat)
    ensures k <= |rs|
    ensures forall i :: 0 <= i < k ==> Continues(rs[i])
    ensures k < |rs| ==> !Continues(rs[k])
    decreases |rs|
  {
    if |rs| == 0 || !Continues(rs[0]) then 0 else 1 + StopIndex(rs[1..])
  }

  /** The pages among some responses, in order. */
  function PagesOf(rs: seq<Response>): seq<Page>
    decreases |rs|
  {
    if |rs| == 0 then []
    else (if rs[0].Fetched? then [rs[0].page] else []) + PagesOf(rs[1..])
  }

  /** The total of `dist` over some pages. */
  function SumDist(ps: seq<Page>): nat
    decreases |ps|
  {
    if |ps| == 0 then 0 else ps[0].dist + SumDist(ps[1..])
  }

  /** The cursor held after consuming `ps`, starting from `after`. */
  function LastCursor(after: Option<string>, ps: seq<Page>): Option<string>
  {
    if |ps| == 0 then after else ps[|ps| - 1].after
  }

  /** Runs `run` after requests `reqs` that already yielded `pages`. */
  function Join(reqs: seq<Request>, pages: seq<Page>, run: Run): Run
  {
    Run(reqs + run.requests,
        match run.outcome
        case Complete(ps) => Complete(pages + ps)
        case other => other)
  }

  /**
    Reference semantics of the loop from state (`processed`, `after`): issue
    one request, and on a page either stop (null cursor) or go on with the
    page's cursor; a failure ends everything with no pages.
   */
  function Fetch(name: string, rs: seq<Response>, processed: nat, after: Option<string>): (r: Run)
    requires processed != 0 ==> after.Some?
    ensures |r.requests| <= |rs|
    ensures |rs| > 0 ==> |r.requests| > 0 && r.requests[0] == ListingRequest(name, processed, after)
    ensures r.outcome.Complete? ==>
              && |r.outcome.pages| == |r.requests| > 0
              && r.outcome.pages[|r.outcome.pages| - 1].after.None?
    decreases |rs|
  {
    if |rs| == 0 then Run([], Exhausted)
    else
      var req := ListingRequest(name, processed, after);
      match rs[0]
      case Failed(e) => Run([req], Error(e))
      case Fetched(p) =>
        if p.after.None? then Run([req], Complete([p]))
        else Join([req], [p], Fetch(name, rs[1..], processed + p.dist, p.after))
  }

  /** The run of `User::saved`: from nothing processed and no cursor. */
  function SavedRun(name: string, rs: seq<Response>): Run
  {
    Fetch(name, rs, 0, None)
  }

  lemma {:induction false} PagesOfAppend(a: seq<Response>, b: seq<Response>)
    ensures PagesOf(a + b) == PagesOf(a) + PagesOf(b)
    decreases |a|
  {
    if |a| == 0 {
      assert a + b == b;
    } else {
      assert (a + b)[0] == a[0];
      assert (a + b)[1..] == a[1..] + b;
      PagesOfAppend(a[1..], b);
      var head := if a[0].Fetched? then [a[0].page] else [];
      assert PagesOf(a + b) == head + (PagesOf(a[1..]) + PagesOf(b));
      assert PagesOf(a) == head + PagesOf(a[1..]);
    }
  }

  lemma {:induction false} SumDistAppend(a: seq<Page>, b: seq<Page>)
    ensures SumDist(a + b) == SumDist(a) + SumDist(b)
    decreases |a|
  {
    if |a| == 0 {
      assert a + b == b;
    } else {
      assert (a + b)[1..] == a[1..] + b;
      SumDistAppend(a[1..], b);
    }
  }

  /** One more response in a prefix: its page, if it has one, joins the pages. */
  lemma PagesOfStep(rs: seq<Response>, i: nat)
    requires i < |rs|
    ensures PagesOf(rs[..i + 1]) == PagesOf(rs[..i]) + (if rs[i].Fetched? then [rs[i].page] else [])
  {
    PagesOfAppend(rs[..i], [rs[i]]);
    assert rs[..i + 1] == rs[..i] + [rs[i]];
    assert [rs[i]][1..] == [];
  }

  /** Dropping the first response of a prefix: how the pages and their total shift. */
  lemma PrefixAfterFirst(rs: seq<Response>, i: nat)
    requires 1 <= i <= |rs|
    requires rs[0].Fetched?
    ensures PagesOf(rs[..i]) == [rs[0].page] + PagesOf(rs[1..][..i - 1])
    ensures SumDist(PagesOf(rs[..i])) == rs[0].page.dist + SumDist(PagesOf(rs[1..][..i - 1]))
  {
    assert rs[..i][1..] == rs[1..][..i - 1];
    assert ([rs[0].page] + PagesOf(rs[1..][..i - 1]))[1..] == PagesOf(rs[1..][..i - 1]);
  }

  /** What request `i` of a run from (`processed`, `after`) carries, given the responses before it. */
  function RequestAt(name: string, rs: seq<Response>, processed: nat, after: Option<string>, i: nat): Request
    requires i <= |rs|
  {
    var ps := PagesOf(rs[..i]);
    Request(name, if processed + SumDist(ps) == 0 then None else LastCursor(after, ps), PageLimit)
  }

  /** The outcome the first response that does not continue dictates. */
  function StopOutcome(rs: seq<Response>): Outcome
  {
    var k := StopIndex(rs);
    if k == |rs| then Exhausted
    else if rs[k].Failed? then Error(rs[k].kind)
    else Complete(PagesOf(rs[..k + 1]))
  }

  /** One request per response, up to and including the first one that does not continue. */
  lemma {:induction false} FetchRequestCount(name: string, rs: seq<Response>, processed: nat, after: Option<string>)
    requires processed != 0 ==> after.Some?
    ensures var k := StopIndex(rs);
            |Fetch(name, rs, processed, after).requests| == if k < |rs| then k + 1 else k
    decreases |rs|
  {
    if |rs| > 0 && Continues(rs[0]) {
      var p := rs[0].page;
      var rest := Fetch(name, rs[1..], processed + p.dist, p.after);
      FetchRequestCount(name, rs[1..], processed + p.dist, p.after);
      assert Fetch(name, rs, processed, after) == Join([ListingRequest(name, processed, after)], [p], rest);
      assert StopIndex(rs) == 1 + StopIndex(rs[1..]);
    }
  }

  lemma RequestAtStep(name: string, rs: seq<Response>, processed: nat, after: Option<string>, i: nat)
    requires 1 <= i <= |rs| && Continues(rs[0])
    ensures RequestAt(name, rs, processed, after, i) == RequestAt(name, rs[1..], processed + rs[0].page.dist, rs[0].page.after, i - 1)
  {
    PrefixAfterFirst(rs, i);
  }

  /**
    Request `i` is a listing request whose cursor is decided by the state the
    first `i` responses leave: none while nothing has been processed, else the
    cursor of the latest page.
   */
  lemma {:induction false} FetchRequestsCharacterised(name: string, rs: seq<Response>, processed: nat, after: Option<string>)
    requires processed != 0 ==> after.Some?
    ensures var r := Fetch(name, rs, processed, after);
            forall i :: 0 <= i < |r.requests| ==> r.requests[i] == RequestAt(name, rs, processed, after, i)
    decreases |rs|
  {
    var r := Fetch(name, rs, processed, after);
    if |rs| == 0 {
      return;
    }
    assert r.requests[0] == RequestAt(name, rs, processed, after, 0) by {
      assert rs[..0] == [];
    }
    if Continues(rs[0]) {
      var p := rs[0].page;
      var rest := Fetch(name, rs[1..], processed + p.dist, p.after);
      FetchRequestsCharacterised(name, rs[1..], processed + p.dist, p.after);
      forall i | 1 <= i < |r.requests|
        ensures r.requests[i] == RequestAt(name, rs, processed, after, i)
      {
        RequestAtStep(name, rs, processed, after, i);
      }
    }
  }

  lemma StopOutcomeStep(rs: seq<Response>)
    requires |rs| > 0 && Continues(rs[0])
    ensures StopOutcome(rs) == match StopOutcome(rs[1..])
                               case Complete(ps) => Complete([rs[0].page] + ps)
                               case other => other
  {
    var k := StopIndex(rs);
    assert k == 1 + StopIndex(rs[1..]);
    if k < |rs| && rs[k].Fetched? {
      PrefixAfterFirst(rs, k + 1);
    }
  }

  lemma StopOutcomeFirst(rs: seq<Response>)
    requires |rs| > 0 && !Continues(rs[0])
    ensures StopOutcome(rs) == if rs[0].Failed? then Error(rs[0].kind) else Complete([rs[0].page])
  {
    assert StopIndex(rs) == 0;
    assert rs[..1] == [rs[0]];
    assert rs[..1][1..] == [];
    if rs[0].Fetched? {
      assert PagesOf(rs[..1]) == [rs[0].page] + PagesOf([]);
    }
  }

  /**
    The outcome is decided by the first response that does not continue: its
    error, or every page fetched up to and including it; `Exhausted` when all
    responses continue.
   */
  lemma {:induction false} FetchOutcomeCharacterised(name: string, rs: seq<Response>, processed: nat, after: Option<string>)
    requires processed != 0 ==> after.Some?
    ensures Fetch(name, rs, processed, after).outcome == StopOutcome(rs)
    decreases |rs|
  {
    if |rs| == 0 {
      return;
    }
    if Continues(rs[0]) {
      var p := rs[0].page;
      FetchOutcomeCharacterised(name, rs[1..], processed + p.dist, p.after);
      StopOutcomeStep(rs);
    } else {
      StopOutcomeFirst(rs);
    }
  }

  /**
    The run from the initial state is the only one with this many requests,
    these requests and this outcome.
   */
  lemma {:induction false} SavedRunDetermined(name: string, rs: seq<Response>, requests: seq<Request>, outcome: Outcome)
    requires |requests| == (if StopIndex(rs) < |rs| then StopIndex(rs) + 1 else |rs|)
    requires forall j :: 0 <= j < |requests| ==> requests[j] == RequestAt(name, rs, 0, None, j)
    requires outcome == StopOutcome(rs)
    ensures Run(requests, outcome) == SavedRun(name, rs)
  {
    FetchRequestCount(name, rs, 0, None);
    FetchRequestsCharacterised(name, rs, 0, None);
    FetchOutcomeCharacterised(name, rs, 0, None);
    assert requests == SavedRun(name, rs).requests;
  }

  /**
    What holds at the top of every iteration of the loop in `Saved`, after `i`
    responses, all of them pages with a next cursor: the pages are kept in
    order, `processed` is their total `dist`, `after` is the latest cursor
    (so a non-zero count always comes with a cursor to unwrap), and every
    request so far is the one the description dictates.
   */
  predicate Fetching(name: string, rs: seq<Response>, i: nat, processed: nat, after: Option<string>,
                     saved: seq<Page>, requests: seq<Request>)
  {
    && i <= |rs|
    && |requests| == i
    && saved == PagesOf(rs[..i])
    && processed == SumDist(saved)
    && after == LastCursor(None, saved)
    && (processed != 0 ==> after.Some?)
    && (forall j :: 0 <= j < i ==> Continues(rs[j]))
    && (forall j :: 0 <= j < i ==> requests[j] == RequestAt(name, rs, 0, None, j))
  }

  /** What `Saved` promises on return: the description of the run, and the count kept. */
  predicate Finished(name: string, rs: seq<Response>, outcome: Outcome, requests: seq<Request>, processed: nat)
  {
    && |requests| == (if StopIndex(rs) < |rs| then StopIndex(rs) + 1 else |rs|)
    && |requests| <= |rs|
    && (forall j :: 0 <= j < |requests| ==> requests[j] == RequestAt(name, rs, 0, None, j))
    && outcome == StopOutcome(rs)
    && processed == SumDist(PagesOf(rs[..|requests|]))
  }

  lemma FetchingInitially(name: string, rs: seq<Response>)
    ensures Fetching(name, rs, 0, 0, None, [], [])
  {
  }

  /** The request the loop issues in state `Fetching` is the one the description dictates. */
  lemma FetchingRequest(name: string, rs: seq<Response>, i: nat, processed: nat, after: Option<string>,
                        saved: seq<Page>, requests: seq<Request>)
    requires Fetching(name, rs, i, processed, after, saved, requests)
    ensures ListingRequest(name, processed, after) == RequestAt(name, rs, 0, None, i)
    ensures forall j :: 0 <= j < i + 1 ==> (requests + [ListingRequest(name, processed, after)])[j] == RequestAt(name, rs, 0, None, j)
  {
  }

  /** A page with a next cursor keeps the loop in state `Fetching`, one response further. */
  lemma FetchingContinues(name: string, rs: seq<Response>, i: nat, processed: nat, after: Option<string>,
                          saved: seq<Page>, requests: seq<Request>)
    requires Fetching(name, rs, i, processed, after, saved, requests)
    requires i < |rs| && Continues(rs[i])
    ensures Fetching(name, rs, i + 1, processed + rs[i].page.dist, rs[i].page.after, saved + [rs[i].page],
                     requests + [ListingRequest(name, processed, after)])
  {
    PagesOfStep(rs, i);
    SumDistAppend(saved, [rs[i].page]);
    FetchingRequest(name, rs, i, processed, after, saved, requests);
  }

  /** A page with a null cursor ends the loop with every page. */
  lemma FetchingEndsOnLastPage(name: string, rs: seq<Response>, i: nat, processed: nat, after: Option<string>,
                               saved: seq<Page>, requests: seq<Request>)
    requires Fetching(name, rs, i, processed, after, saved, requests)
    requires i < |rs| && rs[i].Fetched? && rs[i].page.after.None?
    ensures Finished(name, rs, Complete(saved + [rs[i].page]), requests + [ListingRequest(name, processed, after)],
                     processed + rs[i].page.dist)
    ensures processed + rs[i].page.dist == SumDist(saved + [rs[i].page])
  {
    PagesOfStep(rs, i);
    SumDistAppend(saved, [rs[i].page]);
    FetchingRequest(name, rs, i, processed, after, saved, requests);
    assert StopIndex(rs) == i;
  }

  /** A failed request ends the loop with its error and no pages. */
  lemma FetchingFails(name: string, rs: seq<Response>, i: nat, processed: nat, after: Option<string>,
                      saved: seq<Page>, requests: seq<Request>)
    requires Fetching(name, rs, i, processed, after, saved, requests)
    requires i < |rs| && rs[i].Failed?
    ensures Finished(name, rs, Error(rs[i].kind), requests + [ListingRequest(name, processed, after)], processed)
  {
    PagesOfStep(rs, i);
    FetchingRequest(name, rs, i, processed, after, saved, requests);
    assert StopIndex(rs) == i;
    assert PagesOf(rs[..i + 1]) == saved + [] == saved;
  }

  /** Responses that all continue leave the model without an answer for the next request. */
  lemma FetchingExhausted(name: string, rs: seq<Response>, processed: nat, after: Option<string>,
                          saved: seq<Page>, requests: seq<Request>)
    requires Fetching(name, rs, |rs|, processed, after, saved, requests)
    ensures Finished(name, rs, Exhausted, requests, processed)
  {
  }

  /**
    The loop of `User::saved`, consuming one response per request. `processed`
    is the running count the source only logs; it is returned here so that
    its value can be stated.
   */
  method Saved(name: string, responses: seq<Response>)
    returns (outcome: Outcome, requests: seq<Request>, processed: nat)
    ensures Finished(name, responses, outcome, requests, processed)
    ensures outcome.Complete? ==> processed == SumDist(outcome.pages)
    ensures Run(requests, outcome) == SavedRun(name, responses)
  {
    var complete := false;
    processed := 0;
    var after: Option<string> := None;
    var saved: seq<Page> := [];
    requests := [];
    var i := 0;
    FetchingInitially(name, responses);
    while !complete
      invariant !complete ==> Fetching(name, responses, i, processed, after, saved, requests)
      invariant complete ==> Finished(name, responses, Complete(saved), requests, processed)
      invariant complete ==> processed == SumDist(saved)
      decreases |responses| - i
    {
      if i == |responses| {
        FetchingExhausted(name, responses, processed, after, saved, requests);
        SavedRunDetermined(name, responses, requests, Exhausted);
        return Exhausted, requests, processed;
      }
      var request := ListingRequest(name, processed, after);
      match responses[i]
      case Failed(kind) =>
        FetchingFails(name, responses, i, processed, after, saved, requests);
        SavedRunDetermined(name, responses, requests + [request], Error(kind));
        return Error(kind), requests + [request], processed;
      case Fetched(page) =>
        if page.after.None? {
          FetchingEndsOnLastPage(name, responses, i, processed, after, saved, requests);
          complete := true;
        } else {
          FetchingContinues(name, responses, i, processed, after, saved, requests);
          after := page.after;
        }
        processed := processed + page.dist;
        saved := saved + [page];
        requests := requests + [request];
        i := i + 1;
    }
    outcome := Complete(saved);
    SavedRunDetermined(name, responses, requests, outcome);
  }
}
