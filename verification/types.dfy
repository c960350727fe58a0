/**
  Data model of the paginated retrieval of a user's saved items
  (`User::saved` in src/user.rs).

  The HTTP transport and the JSON decoder are not modelled: what one request
  yields is a `Response`, drawn from a finite sequence of responses supplied
  by the caller (the "oracle"). A page keeps only what the retrieval loop
  looks at (`data.dist`, `data.after`) plus its items, which are opaque.
 */
module Types {

  /** The usual Some/None wrapper; `None` is a null cursor. */
  datatype Option<+T> = None | Some(value: T)

  /** Why a request failed: sending it, or decoding its body. */
  datatype ErrorKind = Transport | Decode

  /** One decoded listing page: `data.dist`, `data.after` and `data.children`. */
  datatype Page = Page(dist: nat, after: Option<string>, children: seq<string>)

  /** What one request to the server yields once sent and decoded. */
  datatype Response = Fetched(page: Page) | Failed(kind: ErrorKind)

  /**
    One GET of the listing endpoint of `user`: the `after` cursor its URL
    carries (none for the bare URL) and its `limit` query value. The URL
    string itself is `Endpoints.Url`.
   */
  datatype Request = Request(user: string, after: Option<string>, limit: nat)

  /**
    How a retrieval ends: with every page (the source's `Ok(saved)`), with the
    first error (`Err`), or, in the model only, because the supplied responses
    ran out before the server signalled the end.
   */
  datatype Outcome =
    | Complete(pages: seq<Page>)
    | Error(kind: ErrorKind)
    | Exhausted

  /** Everything observable about one retrieval: the requests issued, in order, and its outcome. */
  datatype Run = Run(requests: seq<Request>, outcome: Outcome)
}
