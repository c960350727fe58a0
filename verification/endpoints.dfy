/**
  The URL shapes of the three endpoints `User` talks to, all under the OAuth
  host, and a parser for listing URLs that recovers the cursor a URL carries.
 */
module Endpoints {
  import opened Types

  /** Bearer-token requests go to this host, not to the general API host. */
  const OAuthHost: string := "https://oauth.reddit.com"

  /** The query prefix that introduces the cursor in a listing URL. */
  const AfterParam: string := "?after="

  /** The page size every listing request asks for: the largest the API allows. */
  const PageLimit: nat := 100

  /** The listing URL without a cursor. */
  function BareUrl(name: string): string
  {
    OAuthHost + "/user/" + name + "/saved"
  }

  /** The listing URL with `cursor` inserted verbatim after `?after=`. */
  function CursorUrl(name: string, cursor: string): string
  {
    BareUrl(name) + AfterParam + cursor
  }

  /** The listing URL that carries `cursor`, or none. */
  function SavedUrl(name: string, cursor: Option<string>): string
  {
    match cursor
    case None => BareUrl(name)
    case Some(c) => CursorUrl(name, c)
  }

  /**
    The cursor the retrieval loop puts in its next URL. The choice is made on
    `processed`, not on `after`; the held cursor is unwrapped only when
    something has been processed, and the precondition is exactly what keeps
    that unwrap from failing.
   */
  function CursorToSend(processed: nat, after: Option<string>): (c: Option<string>)
    requires processed != 0 ==> after.Some?
    ensures c.Some? <==> processed != 0
    ensures c.Some? ==> c == after
  {
    if processed == 0 then None else Some(after.value)
  }

  /** The URL string the retrieval loop formats from its state. */
  function RequestUrl(name: string, processed: nat, after: Option<string>): (url: string)
    requires processed != 0 ==> after.Some?
    ensures ParseSavedUrl(name, url) == Some(if processed == 0 then None else after)
  {
    ParseSavedUrlRoundTrip(name, if processed == 0 then None else after);
    if processed == 0 then BareUrl(name) else CursorUrl(name, after.value)
  }

  /** The listing request the retrieval loop issues from its state; it always asks for `PageLimit` items. */
  function ListingRequest(name: string, processed: nat, after: Option<string>): Request
    requires processed != 0 ==> after.Some?
  {
    Request(name, CursorToSend(processed, after), PageLimit)
  }

  /** The URL string of a listing request. */
  function Url(r: Request): string
  {
    SavedUrl(r.user, r.after)
  }

  /** The request the loop issues has exactly the URL the source formats, and the page-size limit. */
  lemma ListingRequestUrl(name: string, processed: nat, after: Option<string>)
    requires processed != 0 ==> after.Some?
    ensures Url(ListingRequest(name, processed, after)) == RequestUrl(name, processed, after)
    ensures ListingRequest(name, processed, after).limit == PageLimit
  {
  }

  /**
    Reads a URL back as a listing URL of user `name`: `Some(None)` for the bare
    URL, `Some(Some(c))` when it carries cursor `c`, `None` when it is not a
    listing URL of that user.
   */
  function ParseSavedUrl(name: string, url: string): Option<Option<string>>
  {
    var base := BareUrl(name);
    if |url| < |base| || url[..|base|] != base then None
    else
      var rest := url[|base|..];
      if |rest| == 0 then Some(None)
      else if AfterParam <= rest then Some(Some(rest[|AfterParam|..]))
      else None
  }

  /** Parsing a listing URL gives back exactly the cursor it was built with. */
  lemma ParseSavedUrlRoundTrip(name: string, cursor: Option<string>)
    ensures ParseSavedUrl(name, SavedUrl(name, cursor)) == Some(cursor)
  {
    var base := BareUrl(name);
    match cursor
    case None =>
      assert SavedUrl(name, cursor)[..|base|] == base;
    case Some(c) =>
      var url := SavedUrl(name, cursor);
      assert url == base + (AfterParam + c);
      assert url[..|base|] == base;
      assert url[|base|..] == AfterParam + c;
      assert (AfterParam + c)[|AfterParam|..] == c;
  }

  /** Every URL the parser accepts is a listing URL, rebuilt from the cursor it yields. */
  lemma ParseSavedUrlSound(name: string, url: string)
    requires ParseSavedUrl(name, url).Some?
    ensures url == SavedUrl(name, ParseSavedUrl(name, url).value)
  {
    var base := BareUrl(name);
    var rest := url[|base|..];
    assert url == base + rest;
    if |rest| != 0 {
      assert rest == AfterParam + rest[|AfterParam|..];
    }
  }

  /** Two listing URLs of one user are equal only when they carry the same cursor. */
  lemma SavedUrlInjective(name: string, c1: Option<string>, c2: Option<string>)
    ensures SavedUrl(name, c1) == SavedUrl(name, c2) <==> c1 == c2
  {
    ParseSavedUrlRoundTrip(name, c1);
    ParseSavedUrlRoundTrip(name, c2);
  }

  /** The profile URL: under the OAuth host, and never read as a listing URL of that user. */
  function AboutUrl(name: string): (url: string)
    ensures OAuthHost <= url
    ensures ParseSavedUrl(name, url) == None
  {
    var url := OAuthHost + "/user/" + name + "/about";
    var k := |OAuthHost + "/user/" + name + "/"|;
    assert url[k] == 'a' && BareUrl(name)[k] == 's';
    assert url[..|BareUrl(name)|] != BareUrl(name) by {
      assert url[..|BareUrl(name)|][k] == 'a';
    }
    url
  }

  /** The unsave URL: under the OAuth host, and never read as a listing URL of any user. */
  function UnsaveUrl(): (url: string)
    ensures OAuthHost <= url
    ensures forall name :: ParseSavedUrl(name, url) == None
  {
    OAuthHost + "/api/unsave"
  }
}
