# Saved-items retrieval of reddsaver, modelled in Dafny

`User::saved` (src/user.rs) collects every item a Reddit account has saved. It
calls the cursor-paginated listing endpoint `https://oauth.reddit.com/user/{name}/saved`
again and again. Each response page carries `data.dist` (how many items it
holds) and `data.after`, an opaque cursor that is null on the last page. The
loop keeps three pieces of state:

- `processed`: the running total of `dist`;
- `after`: the cursor of the latest page;
- `saved`: the pages gathered so far.

The first request has no `?after=`. Later requests carry the latest cursor
verbatim once the running `dist` total is non-zero; until then they repeat the
bare URL (see below). Every request asks for `limit=100`. The loop stops on the first page
whose cursor is null, and that page is kept. The first send or decode error
aborts the whole call with no pages.

The model replaces the HTTP client and the JSON decoder with an oracle: a
finite sequence of `Response`s, each a decoded `Page(dist, after, children)` or
a failure (`Transport` or `Decode`). A retrieval is observed as a `Run`: the
requests issued, in order, and an `Outcome`. Each request records the user, the
cursor its URL carries and its limit. `Endpoints.Url` turns a request into the
URL string the source formats.

- `types.dfy` (`Types`): pages, responses, requests, outcomes.
- `endpoints.dfy` (`Endpoints`): the URL shapes of the listing, profile
  (`about`) and `unsave` endpoints, the cursor choice with its `unwrap`, and a
  parser that reads the cursor back out of a listing URL.
- `fetcher.dfy` (`Fetcher`): `Saved`, the `while` loop itself; `Fetch`, a
  recursive reference for it; and lemmas that describe `Fetch` request by
  request.
- `properties.dfy` (`Properties`): the loop's properties, stated over
  `SavedRun`, the run `Saved` is proved to perform.

The loop has no iteration bound. In the model it consumes one response per
request, so it terminates on the length of the oracle. If every response names
a next cursor, the run ends with the model-only outcome `Exhausted`.

The comment at src/user.rs:51-53 says that each later call uses the cursor
from the previous response. The code instead chooses the URL by
`processed == 0` (src/user.rs:54), and the model follows the code. A first page with `dist == 0` and a non-null cursor therefore
makes the second request repeat the bare URL.
`Properties.ZeroDistFirstPageRepeatsRequest` proves this, and
`Properties.BareWhileNothingProcessed` and `Properties.CursorForwarded` give the
exact rule for every request.

## Model

| member | source | states |
|---|---|---|
| `Endpoints.CursorToSend` | src/user.rs:54-61 | The held cursor is unwrapped only when `processed` is non-zero; the precondition `processed != 0 ==> after.Some?` is the obligation that keeps the `unwrap` from panicking, and the result carries a cursor exactly when `processed != 0`, namely the held one |
| `Endpoints.RequestUrl` | src/user.rs:54-62 | The URL formatted from the loop state parses back to no cursor when `processed == 0` (even if a cursor is held) and to the held cursor otherwise |
| `Endpoints.ListingRequestUrl` | src/user.rs:54-69 | The request the loop issues has exactly the URL the source formats and `limit` 100 |
| `Endpoints.ParseSavedUrlRoundTrip` | src/user.rs:55-60 | Parsing a listing URL gives back exactly the cursor inserted into it, so the cursor is carried verbatim |
| `Endpoints.ParseSavedUrlSound` | src/user.rs:55-60 | Every URL the parser accepts is the listing URL rebuilt from the cursor it yields (the converse of the round trip) |
| `Endpoints.SavedUrlInjective` | src/user.rs:57-60 | Two listing URLs of one user are equal if and only if they carry the same cursor |
| `Endpoints.AboutUrl` | src/user.rs:24-25 | The profile URL lies under the OAuth host and is never mistaken for a listing URL of that user |
| `Endpoints.UnsaveUrl` | src/user.rs:100 | The unsave URL lies under the OAuth host and is never a listing URL of any user |
| `Fetcher.StopIndex` | src/user.rs:82-93 | The index of the first response that is not a page with a next cursor: every earlier response continues the loop, that one does not |
| `Fetcher.Fetch` | src/user.rs:50-94 | From a state that satisfies the unwrap invariant, never more requests than responses; the first request is built from the current state; a complete result has one page per request and ends with the page whose cursor is null |
| `Fetcher.FetchRequestCount` | src/user.rs:50-94 | One request per response, up to and including the first response that does not continue |
| `Fetcher.FetchRequestsCharacterised` | src/user.rs:54-69 | Request i carries limit 100 and a cursor decided by the first i pages: none while their `dist` total (plus the starting count) is zero, else the cursor of the latest page |
| `Fetcher.FetchOutcomeCharacterised` | src/user.rs:70-96 | The first response that does not continue decides the outcome: its error, or all pages up to and including it; when every response continues the oracle runs out |
| `Fetcher.SavedRunDetermined` | src/user.rs:43-97 | A run from the initial state is fixed by its description: any request list of the right length whose every entry is the request the description dictates, with the dictated outcome, is the reference run |
| `Fetcher.FetchingInitially` | src/user.rs:46-49 | The loop starts with nothing processed, no cursor, no pages and no requests, a state that satisfies the loop invariant |
| `Fetcher.FetchingContinues` | src/user.rs:54-93 | A page with a next cursor keeps the invariant one response further: the page is appended, the count grows by its `dist`, the held cursor becomes its cursor, so a non-zero count still comes with a cursor to unwrap, and the request just issued is the dictated one |
| `Fetcher.FetchingEndsOnLastPage` | src/user.rs:78-86 | A page with a null cursor is pushed and ends the loop: the requests, the outcome (all pages, this one included) and the count match the description |
| `Fetcher.FetchingFails` | src/user.rs:64-73 | A failed request ends the retrieval with its error and no pages, after exactly the requests the description dictates |
| `Fetcher.FetchingExhausted` | src/user.rs:50 | When every response has continued, the model-only outcome is reached with one request per response |
| `Fetcher.Saved` | src/user.rs:43-97 | The `while` loop issues exactly the dictated requests (one per response up to the first that does not continue), ends with the dictated outcome, and performs exactly the reference run; the count it keeps equals the total `dist` of the pages fetched, and of the returned pages on success |
| `Properties.RequestUrlsAsFormatted` | src/user.rs:54-62 | Before every request, a non-zero count implies a held cursor (the `unwrap` never fails), and the request's URL is the one the source formats from that state |
| `Properties.FirstRequestIsBare` | src/user.rs:48-55 | The first request has no cursor: it goes to the bare listing URL with limit 100 |
| `Properties.BareWhileNothingProcessed` | src/user.rs:54-55 | While the pages so far total zero `dist`, the request goes to the bare URL, whatever cursors those pages returned |
| `Properties.ZeroDistFirstPageRepeatsRequest` | src/user.rs:54-55 | A first page with `dist == 0` and a next cursor makes the second request identical to the first |
| `Properties.CursorForwarded` | src/user.rs:57-60 | Once the count is non-zero, the request carries verbatim the cursor of the page fetched just before it |
| `Properties.EveryRequestAsksForPageLimit` | src/user.rs:68-69 | Every request asks for `limit=100` |
| `Properties.RequestCount` | src/user.rs:50-94 | Never more requests than responses; exactly one past the first non-continuing response when there is one |
| `Properties.CompleteReturnsEveryPage` | src/user.rs:78-96 | On success every fetched page is returned once, in fetch order, one per request, terminal page included; only the last page has a null cursor; the count is their total `dist` |
| `Properties.StopsAtFirstTerminalPage` | src/user.rs:82-86 | The first page with a null cursor, after pages that all name one, ends the loop with success after exactly that many requests |
| `Properties.StopIndexIs` | src/user.rs:82-93 | The stop index is the first response that does not continue |
| `Properties.FailFast` | src/user.rs:70-73 | A failure of request k after continuing pages ends the run with that error after exactly k+1 requests, with no pages |
| `Properties.ErrorIsLastRequestFailure` | src/user.rs:70-73 | Conversely, an error is always the failure of the last request issued, and every earlier response continued the loop |
| `Properties.ExhaustedIffNoEnd` | src/user.rs:50 | The model-only outcome occurs if and only if every supplied response is a page with a next cursor, after one request per response |
| `Properties.EmptyAccount` | src/user.rs:43-97 | One empty terminal page: one bare request, one page returned, no error |
| `Properties.ThreePages` | src/user.rs:43-97 | Pages with cursors t1, t2, null: three requests (bare, t1, t2), the three pages, and a running count of 237 after them |
| `Properties.ErrorOnSecondPage` | src/user.rs:64-73 | A transport failure on the second page: two requests, the error, no pages, no third request |

## Left out

- HTTP transport (reqwest, `send().await`), async scheduling and JSON decoding: they are replaced by the oracle of decoded responses.
- The bearer `Authorization` header and the `User-Agent` string: they are set by library calls with no logic in this code.
- `info!`/`debug!` logging: a side effect only. The running count that the source only logs is returned by `Fetcher.Saved` so that its value can be stated.
- The width of `dist`: its type is declared in crate::structures, which is not part of this model. `dist` is a `nat`, so neither overflow of `processed` nor a negative `dist` bringing it back to zero is modelled.
- Percent-encoding of the URL by the HTTP client: the cursor is modelled as it appears in the formatted string. How `limit=100` is appended to the query string is not modelled either; requests record it as a separate value.
- `about` and `unsave`: only their URLs are modelled. Sending them and decoding the profile are single-shot wrappers with no decision logic. The `id` form field of `unsave` is not modelled.
- An unbounded server: the code loops for as long as the server keeps returning cursors. The model's oracle is finite and ends such a run with `Exhausted`, without issuing a request for the missing response.
