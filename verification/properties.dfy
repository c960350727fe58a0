/**
  Properties of the retrieval of saved items, stated over `SavedRun`, the run
  that `Fetcher.Saved` is proved to perform: what each request carries, when
  the loop stops, what it returns and how it fails.
 */
module Properties {
  import opened Types
  import opened Endpoints
  import opened Fetcher

  /** The running count before request `i`: the total `dist` of the pages before it. */
  function ProcessedBefore(rs: seq<Response>, i: nat): nat
    requires i <= |rs|
  {
    SumDist(PagesOf(rs[..i]))
  }

  /** The cursor held before request `i`: that of the latest page before it, if any. */
  function CursorBefore(rs: seq<Response>, i: nat): Option<string>
    requires i <= |rs|
  {
    LastCursor(None, PagesOf(rs[..i]))
  }

  /** A prefix of fetched responses yields one page per response, in order. */
  lemma {:induction false} PagesOfFetchedPrefix(rs: seq<Response>, n: nat)
    requires n <= |rs|
    requires forall j :: 0 <= j < n ==> rs[j].Fetched?
    ensures |PagesOf(rs[..n])| == n
    ensures forall j :: 0 <= j < n ==> PagesOf(rs[..n])[j] == rs[j].page
    decreases n
  {
    if n == 0 {
      assert rs[..0] == [];
    } else {
      PagesOfFetchedPrefix(rs, n - 1);
      PagesOfAppend(rs[..n - 1], [rs[n - 1]]);
      assert rs[..n] == rs[..n - 1] + [rs[n - 1]];
      assert PagesOf([rs[n - 1]]) == [rs[n - 1].page] by {
        assert [rs[n - 1]][1..] == [];
      }
    }
  }

  /** All the facts the characterisation gives about `SavedRun`, gathered in one place. */
  lemma SavedRunFacts(name: string, rs: seq<Response>)
    ensures var r := SavedRun(name, rs);
            var k := StopIndex(rs);
            && |r.requests| == (if k < |rs| then k + 1 else k)
            && (forall i :: 0 <= i < |r.requests| ==> r.requests[i] == RequestAt(name, rs, 0, None, i))
            && (k == |rs| ==> r.outcome == Exhausted)
            && (k < |rs| && rs[k].Failed? ==> r.outcome == Error(rs[k].kind))
            && (k < |rs| && rs[k].Fetched? ==> r.outcome == Complete(PagesOf(rs[..k + 1])))
  {
    FetchRequestCount(name, rs, 0, None);
    FetchRequestsCharacterised(name, rs, 0, None);
    FetchOutcomeCharacterised(name, rs, 0, None);
  }

  /**
    Before every request the loop issues, a non-zero count implies a held
    cursor, so the unwrap in the cursor branch never fails; and the request's
    URL is exactly the one the source formats from that state.
   */
  lemma RequestUrlsAsFormatted(name: string, rs: seq<Response>, i: nat)
    requires i < |SavedRun(name, rs).requests|
    ensures i <= |rs|
    ensures ProcessedBefore(rs, i) != 0 ==> CursorBefore(rs, i).Some?
    ensures Url(SavedRun(name, rs).requests[i]) == RequestUrl(name, ProcessedBefore(rs, i), CursorBefore(rs, i))
  {
    SavedRunFacts(name, rs);
    var ps := PagesOf(rs[..i]);
    assert rs[..0] == [];
    if SumDist(ps) != 0 {
      PagesOfFetchedPrefix(rs, i);
      assert ps[i - 1] == rs[i - 1].page;
      assert Continues(rs[i - 1]);
    }
  }

  /** The first request never carries a cursor: it is the bare listing URL with the page-size limit. */
  lemma FirstRequestIsBare(name: string, rs: seq<Response>)
    requires |rs| > 0
    ensures |SavedRun(name, rs).requests| > 0
    ensures SavedRun(name, rs).requests[0] == Request(name, None, PageLimit)
    ensures Url(SavedRun(name, rs).requests[0]) == BareUrl(name)
  {
  }

  /**
    While the pages so far total zero `dist`, the request goes to the bare
    URL, whatever cursor those pages returned: the choice is keyed on the
    count, not on the cursor.
   */
  lemma BareWhileNothingProcessed(name: string, rs: seq<Response>, i: nat)
    requires i < |SavedRun(name, rs).requests|
    requires i <= |rs| && ProcessedBefore(rs, i) == 0
    ensures SavedRun(name, rs).requests[i].after.None?
    ensures Url(SavedRun(name, rs).requests[i]) == BareUrl(name)
  {
    SavedRunFacts(name, rs);
  }

  /**
    A page of zero `dist` that names a next cursor, arriving first, makes the
    second request repeat the first one exactly, bare URL included.
   */
  lemma ZeroDistFirstPageRepeatsRequest(name: string, rs: seq<Response>)
    requires |rs| >= 2
    requires rs[0].Fetched? && rs[0].page.dist == 0 && rs[0].page.after.Some?
    ensures |SavedRun(name, rs).requests| >= 2
    ensures SavedRun(name, rs).requests[1] == SavedRun(name, rs).requests[0]
    ensures Url(SavedRun(name, rs).requests[1]) == BareUrl(name)
  {
    SavedRunFacts(name, rs);
    PagesOfFetchedPrefix(rs, 1);
    assert PagesOf(rs[..1]) == [rs[0].page];
    assert SumDist([rs[0].page]) == 0;
  }

  /**
    Once something has been processed, the request carries, verbatim, the
    cursor of the page fetched just before it.
   */
  lemma CursorForwarded(name: string, rs: seq<Response>, i: nat)
    requires i < |SavedRun(name, rs).requests|
    requires i <= |rs| && ProcessedBefore(rs, i) != 0
    ensures 0 < i && Continues(rs[i - 1])
    ensures SavedRun(name, rs).requests[i].after == rs[i - 1].page.after
    ensures Url(SavedRun(name, rs).requests[i]) == CursorUrl(name, rs[i - 1].page.after.value)
    ensures ParseSavedUrl(name, Url(SavedRun(name, rs).requests[i])) == Some(rs[i - 1].page.after)
  {
    SavedRunFacts(name, rs);
    assert rs[..0] == [];
    PagesOfFetchedPrefix(rs, i);
    ParseSavedUrlRoundTrip(name, rs[i - 1].page.after);
  }

  /** Every request asks for the largest page the API allows. */
  lemma EveryRequestAsksForPageLimit(name: string, rs: seq<Response>)
    ensures forall i :: 0 <= i < |SavedRun(name, rs).requests| ==> SavedRun(name, rs).requests[i].limit == PageLimit
  {
    SavedRunFacts(name, rs);
  }

  /** The loop never issues more requests than there are responses, and stops exactly after the first non-continuing one. */
  lemma RequestCount(name: string, rs: seq<Response>)
    ensures |SavedRun(name, rs).requests| <= |rs|
    ensures StopIndex(rs) < |rs| ==> |SavedRun(name, rs).requests| == StopIndex(rs) + 1
  {
    SavedRunFacts(name, rs);
  }

  /**
    A complete result holds every fetched page once, in fetch order, one per
    request, and the count the loop kept is their total `dist`; only the last
    page has a null cursor.
   */
  lemma CompleteReturnsEveryPage(name: string, rs: seq<Response>)
    requires SavedRun(name, rs).outcome.Complete?
    ensures var r := SavedRun(name, rs);
            var pages := r.outcome.pages;
            && |pages| == |r.requests| > 0
            && |pages| <= |rs|
            && (forall i :: 0 <= i < |pages| ==> rs[i] == Fetched(pages[i]))
            && pages[|pages| - 1].after.None?
            && (forall i :: 0 <= i < |pages| - 1 ==> pages[i].after.Some?)
            && ProcessedBefore(rs, |pages|) == SumDist(pages)
  {
    SavedRunFacts(name, rs);
    var k := StopIndex(rs);
    PagesOfFetchedPrefix(rs, k + 1);
  }

  /** Conversely, the first page with a null cursor, after pages that all name one, ends the loop with every page. */
  lemma StopsAtFirstTerminalPage(name: string, rs: seq<Response>, k: nat)
    requires k < |rs|
    requires forall j :: 0 <= j < k ==> Continues(rs[j])
    requires rs[k].Fetched? && rs[k].page.after.None?
    ensures SavedRun(name, rs).outcome.Complete?
    ensures |SavedRun(name, rs).requests| == k + 1
  {
    SavedRunFacts(name, rs);
    StopIndexIs(rs, k);
  }

  /** The stop index is the first response that does not continue. */
  lemma StopIndexIs(rs: seq<Response>, k: nat)
    requires k < |rs|
    requires forall j :: 0 <= j < k ==> Continues(rs[j])
    requires !Continues(rs[k])
    ensures StopIndex(rs) == k
  {
  }

  /**
    Fail-fast: when request `k` fails after pages that all named a cursor, the
    run ends with that error after exactly `k + 1` requests, and no pages.
   */
  lemma FailFast(name: string, rs: seq<Response>, k: nat)
    requires k < |rs|
    requires forall j :: 0 <= j < k ==> Continues(rs[j])
    requires rs[k].Failed?
    ensures SavedRun(name, rs).outcome == Error(rs[k].kind)
    ensures |SavedRun(name, rs).requests| == k + 1
  {
    SavedRunFacts(name, rs);
    StopIndexIs(rs, k);
  }

  /** Conversely, an error is always the failure of the last request issued. */
  lemma ErrorIsLastRequestFailure(name: string, rs: seq<Response>)
    requires SavedRun(name, rs).outcome.Error?
    ensures var n := |SavedRun(name, rs).requests|;
            && 0 < n <= |rs|
            && rs[n - 1] == Failed(SavedRun(name, rs).outcome.kind)
            && forall j :: 0 <= j < n - 1 ==> Continues(rs[j])
  {
    SavedRunFacts(name, rs);
  }

  /** The model-only outcome: the responses run out exactly when every one of them names a next cursor. */
  lemma ExhaustedIffNoEnd(name: string, rs: seq<Response>)
    ensures SavedRun(name, rs).outcome.Exhausted? <==> forall j :: 0 <= j < |rs| ==> Continues(rs[j])
    ensures SavedRun(name, rs).outcome.Exhausted? ==> |SavedRun(name, rs).requests| == |rs|
  {
    SavedRunFacts(name, rs);
    var k := StopIndex(rs);
    if k < |rs| {
      assert !Continues(rs[k]);
    }
  }

  /** An account with no saved items: one bare request, one empty page, no error. */
  lemma EmptyAccount(name: string)
    ensures var page := Page(0, None, []);
            SavedRun(name, [Fetched(page)]) == Run([Request(name, None, PageLimit)], Complete([page]))
  {
  }

  /** Three pages, the last one terminal: three requests forwarding each cursor, and a count of 237. */
  lemma ThreePages(name: string)
    ensures var p1 := Page(100, Some("t1"), []);
            var p2 := Page(100, Some("t2"), []);
            var p3 := Page(37, None, []);
            var rs := [Fetched(p1), Fetched(p2), Fetched(p3)];
            && SavedRun(name, rs)
               == Run([Request(name, None, PageLimit), Request(name, Some("t1"), PageLimit), Request(name, Some("t2"), PageLimit)],
                      Complete([p1, p2, p3]))
            && ProcessedBefore(rs, 3) == 237
  {
    var p1 := Page(100, Some("t1"), []);
    var p2 := Page(100, Some("t2"), []);
    var p3 := Page(37, None, []);
    var rs := [Fetched(p1), Fetched(p2), Fetched(p3)];
    assert rs[1..] == [Fetched(p2), Fetched(p3)] && rs[1..][1..] == [Fetched(p3)];
    var last := Fetch(name, [Fetched(p3)], 200, Some("t2"));
    assert last == Run([Request(name, Some("t2"), PageLimit)], Complete([p3]));
    var middle := Fetch(name, rs[1..], 100, Some("t1"));
    assert middle == Join([Request(name, Some("t1"), PageLimit)], [p2], last);
    PagesOfFetchedPrefix(rs, 3);
    assert PagesOf(rs[..3]) == [p1, p2, p3];
    assert [p1, p2, p3][1..] == [p2, p3] && [p2, p3][1..] == [p3];
  }

  /** A transport failure on the second of three pages: two requests, the error, no pages. */
  lemma ErrorOnSecondPage(name: string)
    ensures var rs := [Fetched(Page(100, Some("t1"), [])), Failed(Transport), Fetched(Page(37, None, []))];
            SavedRun(name, rs) == Run([Request(name, None, PageLimit), Request(name, Some("t1"), PageLimit)], Error(Transport))
  {
  }
}
