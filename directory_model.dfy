/**
  The values exchanged with the remote user directory (GET users?page=n) and
  what the client observes for one page request.  The server itself is an
  abstract oracle: a total function from the requested page number to the
  reply its callback receives.
 */
module DirectoryModel {

  datatype Option<+T> = None | Some(value: T)

  /** One directory entry (the `UserData` record of the wire format). */
  datatype UserData = UserData(id: int, firstName: string, lastName: string, email: string, avatar: string)

  /** The decoded body of one page.  The JSON decoder leaves an absent `data`
      array null, hence the Option; an absent `total_pages` decodes as 0. */
  datatype UserResponse = UserResponse(page: int, perPage: int, total: int, totalPages: int, data: Option<seq<UserData>>)

  /** What one request's callback receives: `onResponse` with an HTTP status
      code and a body that may be missing, or `onFailure` with the transport
      error's message. */
  datatype Reply = Response(code: int, body: Option<UserResponse>) | Failure(message: Option<string>)

  /** The server as seen by the client: the reply to a request for a page. */
  type Server = int -> Reply

  /** The user-visible error notifications (toasts) the fetch code raises. */
  datatype Notice = LoadError | ConnectionError

  /** `isSuccessful` of an HTTP response: a status code in [200, 300). */
  predicate IsSuccessful(r: Reply) {
    r.Response? && 200 <= r.code < 300
  }

  /** The records a reply contributes to the accumulator: the page's `data`
      on success, where a missing body or `data` counts as the empty list;
      nothing at all on a rejection or a transport failure. */
  function Records(r: Reply): (users: seq<UserData>)
    ensures !IsSuccessful(r) ==> users == []
  {
    if IsSuccessful(r) && r.body.Some? && r.body.value.data.Some? then r.body.value.data.value else []
  }

  /** `total_pages` of a reply's body; a missing body counts as 0. */
  function TotalPages(r: Reply): int {
    if r.Response? && r.body.Some? then r.body.value.totalPages else 0
  }

  /** The notifications raised when a reply is handled: none on success, a
      load error on a non-success status, a connection error on a transport
      failure. */
  function NoticeOf(r: Reply): (ns: seq<Notice>)
    ensures ns == [] <==> IsSuccessful(r)
    ensures |ns| <= 1
    ensures r.Response? && !IsSuccessful(r) ==> ns == [LoadError]
    ensures r.Failure? ==> ns == [ConnectionError]
  {
    if IsSuccessful(r) then []
    else if r.Response? then [LoadError]
    else [ConnectionError]
  }

  /** The records the replies to `pages` contribute, in the order of `pages`. */
  function Collect(server: Server, pages: seq<int>): seq<UserData>
  {
    if pages == [] then [] else Collect(server, pages[..|pages| - 1]) + Records(server(pages[|pages| - 1]))
  }

  /** The notifications raised while handling the replies to `pages`, in order. */
  function Notices(server: Server, pages: seq<int>): seq<Notice>
  {
    if pages == [] then [] else Notices(server, pages[..|pages| - 1]) + NoticeOf(server(pages[|pages| - 1]))
  }

  /** Handling one more reply appends its records and its notifications. */
  lemma {:induction false} CollectSnoc(server: Server, pages: seq<int>, p: int)
    ensures Collect(server, pages + [p]) == Collect(server, pages) + Records(server(p))
  {
    assert (pages + [p])[..|pages|] == pages;
  }

  /** Two replies handled in the order `a`, `b`. */
  lemma {:induction false} CollectPair(server: Server, a: int, b: int)
    ensures Collect(server, [a, b]) == Records(server(a)) + Records(server(b))
    ensures Notices(server, [a, b]) == NoticeOf(server(a)) + NoticeOf(server(b))
  {
    assert Collect(server, [a]) == Records(server(a)) && Notices(server, [a]) == NoticeOf(server(a)) by {
      assert [a][..0] == [];
    }
    assert [a, b][..1] == [a] && [a, b][1] == b;
  }

  /** Handling the replies to `a` and then those to `b` contributes the
      records of `a` followed by the records of `b`. */
  lemma {:induction false} CollectAppend(server: Server, a: seq<int>, b: seq<int>)
    ensures Collect(server, a + b) == Collect(server, a) + Collect(server, b)
    decreases |b|
  {
    if b == [] {
      assert a + b == a;
    } else {
      var b' := b[..|b| - 1];
      assert (a + b)[..|a + b| - 1] == a + b';
      CollectAppend(server, a, b');
    }
  }

  /** The records collected for a prefix of the pages are a prefix of the
      records collected for all of them. */
  lemma {:induction false} CollectPrefix(server: Server, p: seq<int>, a: seq<int>)
    requires p <= a
    ensures Collect(server, p) <= Collect(server, a)
  {
    assert a == p + a[|p|..];
    CollectAppend(server, p, a[|p|..]);
  }

  /** Only the replies to the requested pages matter: two servers that agree
      on every page of `pages` yield the same records and notifications. */
  lemma {:induction false} CollectObservedOnly(s1: Server, s2: Server, pages: seq<int>)
    requires forall i :: 0 <= i < |pages| ==> s1(pages[i]) == s2(pages[i])
    ensures Collect(s1, pages) == Collect(s2, pages)
    ensures Notices(s1, pages) == Notices(s2, pages)
    decreases |pages|
  {
    if pages != [] {
      var init := pages[..|pages| - 1];
      assert forall i :: 0 <= i < |init| ==> init[i] == pages[i];
      CollectObservedOnly(s1, s2, init);
    }
  }
}
