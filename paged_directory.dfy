/**
  The paginated aggregator of ui/activities/UsersActivity.kt: starting from
  a copy of the given list it requests page 1, appends each successful
  page's records, and requests `page + 1` while `page < total_pages` of the
  reply just received.  The first reply that asks for no further page (the
  last page, a non-success status, a transport failure) ends the run, and
  the callback then receives the accumulated list, exactly once.

  The recursion through the callback of the source becomes a loop over page
  numbers; the server is an oracle `Server`.  Termination is proved for any
  server with some page `bound` whose reply asks for no successor, which is
  exactly when the source's run ends (a server with a fixed `total_pages`
  is one, see FixedTotalPagesStops).
 */
module PagedDirectory {
  import opened DirectoryModel

  /** Handling the reply to `page` makes the aggregator request `page + 1`. */
  predicate RequestsNext(server: Server, page: int) {
    IsSuccessful(server(page)) && page < TotalPages(server(page))
  }

  /** The reply to page `bound` asks for no further page, so a run that
      reaches `bound` ends there at the latest.  A run ends exactly when
      some such page exists. */
  predicate StopsBy(server: Server, bound: int) {
    1 <= bound && !RequestsNext(server, bound)
  }

  /** The page whose reply ends a run that has reached `page`: the least page
      from `page` on that does not request a successor. */
  ghost function LastPage(server: Server, page: int, bound: int): (last: int)
    requires StopsBy(server, bound) && 1 <= page <= bound
    ensures page <= last <= bound
    ensures !RequestsNext(server, last)
    ensures forall p :: page <= p < last ==> RequestsNext(server, p)
    decreases bound - page
  {
    if !RequestsNext(server, page) then page else LastPage(server, page + 1, bound)
  }

  /** The page numbers 1, 2, ..., n. */
  function FirstPages(n: nat): (pages: seq<int>)
    ensures |pages| == n && forall i :: 0 <= i < n ==> pages[i] == i + 1
  {
    seq(n, i => i + 1)
  }

  /** `fetchUsers` with its nested `fetchPage`.  `deliveries` lists the lists
      passed to the callback, `requests` the pages requested, in request
      order, and `notices` the error toasts shown. */
  method FetchUsers(users: seq<UserData>, server: Server, ghost bound: int)
    returns (deliveries: seq<seq<UserData>>, requests: seq<int>, notices: seq<Notice>)
    requires StopsBy(server, bound)
    ensures var last := LastPage(server, 1, bound);
      && requests == FirstPages(last)
      && deliveries == [users + Collect(server, requests)]
      && notices == NoticeOf(server(last))
  {
    ghost var last := LastPage(server, 1, bound);
    var updatedUsers := users;
    var currentPage := 1;
    deliveries, requests, notices := [], [], [];
    // Each iteration is one call of `fetchPage(currentPage)` and its callback.
    while true
      invariant 1 <= currentPage <= last
      invariant requests == FirstPages(currentPage - 1)
      invariant updatedUsers == users + Collect(server, requests)
      invariant deliveries == [] && notices == []
      decreases last - currentPage
    {
      FirstPagesSnoc(currentPage - 1);
      CollectSnoc(server, requests, currentPage);
      requests := requests + [currentPage];
      var response := server(currentPage);
      if IsSuccessful(response) {
        // the page's `data`, or nothing when the body or `data` is missing
        updatedUsers := updatedUsers + Records(response);
        if currentPage < TotalPages(response) {
          assert RequestsNext(server, currentPage);
          currentPage := currentPage + 1;
        } else {
          assert !RequestsNext(server, currentPage);
          assert currentPage == last;
          assert updatedUsers == users + Collect(server, requests);
          deliveries := deliveries + [updatedUsers];
          break;
        }
      } else {
        // a non-success status (`onResponse`) or a transport failure (`onFailure`)
        assert !RequestsNext(server, currentPage);
        assert currentPage == last;
        assert Records(response) == [];
        assert updatedUsers == users + Collect(server, requests);
        notices := notices + NoticeOf(response);
        deliveries := deliveries + [updatedUsers];
        break;
      }
    }
  }

  lemma {:induction false} FirstPagesSnoc(n: nat)
    ensures FirstPages(n) + [n + 1] == FirstPages(n + 1)
  {
  }

  /** A server whose replies never report more than `t` pages stops by
      page max(t, 1), so every run against it ends. */
  lemma {:induction false} FixedTotalPagesStops(server: Server, t: int)
    requires forall p :: TotalPages(server(p)) <= t
    ensures StopsBy(server, if t < 1 then 1 else t)
  {
  }

  /** The run ends at the first page `m` whose reply requests no successor,
      and does not depend on the bound used to show that it ends. */
  lemma {:induction false} LastPageIsFirstStop(server: Server, bound: int, m: int)
    requires StopsBy(server, bound) && 1 <= m
    requires forall p :: 1 <= p < m ==> RequestsNext(server, p)
    requires !RequestsNext(server, m)
    ensures LastPage(server, 1, bound) == m
  {
  }

  /** If page 1 succeeds with `total_pages` at most 1, exactly one request is
      made, and the callback gets the given users followed by page 1's data. */
  lemma {:induction false} SinglePageRun(server: Server, bound: int, users: seq<UserData>)
    requires StopsBy(server, bound)
    requires IsSuccessful(server(1)) && TotalPages(server(1)) <= 1
    ensures LastPage(server, 1, bound) == 1
    ensures FirstPages(1) == [1]
    ensures users + Collect(server, FirstPages(1)) == users + Records(server(1))
    ensures NoticeOf(server(1)) == []
  {
    LastPageIsFirstStop(server, bound, 1);
    assert FirstPages(1) == [1];
    assert FirstPages(1)[..0] == [];
  }

  /** Every page before the last one succeeded; the last one either succeeded
      too or contributed nothing. */
  lemma {:induction false} EarlierPagesSucceeded(server: Server, bound: int)
    requires StopsBy(server, bound)
    ensures forall p :: 1 <= p < LastPage(server, 1, bound) ==> IsSuccessful(server(p))
  {
    var last := LastPage(server, 1, bound);
    forall p | 1 <= p < last ensures IsSuccessful(server(p)) {
      assert RequestsNext(server, p);
    }
  }

  /** A failing page `m` (a non-success status or a transport failure) after
      pages 1..m-1 that each asked for a successor ends the run: page m + 1
      is never requested, and the callback gets what pages 1..m-1 gave. */
  lemma {:induction false} FailedPageStopsRun(server: Server, bound: int, m: int, users: seq<UserData>)
    requires StopsBy(server, bound) && 1 <= m
    requires forall p :: 1 <= p < m ==> RequestsNext(server, p)
    requires !IsSuccessful(server(m))
    ensures LastPage(server, 1, bound) == m
    ensures m + 1 !in FirstPages(m)
    ensures users + Collect(server, FirstPages(m)) == users + Collect(server, FirstPages(m - 1))
    ensures |NoticeOf(server(m))| == 1
  {
    LastPageIsFirstStop(server, bound, m);
    assert FirstPages(m)[..m - 1] == FirstPages(m - 1);
  }

  /** Collecting pages 1..n of a server whose pages 1..n each hold `k`
      records gives n * k records. */
  lemma {:induction false} UniformCollectLength(server: Server, n: nat, k: nat)
    requires forall p :: 1 <= p <= n ==> |Records(server(p))| == k
    ensures |Collect(server, FirstPages(n))| == n * k
  {
    if n > 0 {
      assert FirstPages(n)[..n - 1] == FirstPages(n - 1);
      UniformCollectLength(server, n - 1, k);
    }
  }

  /** The pagination law: when pages 1..n all succeed, report `total_pages`
      n and hold k records each, pages 1..n are fetched in order and the
      callback receives the given users followed by n * k records. */
  lemma {:induction false} UniformPagesRun(server: Server, bound: int, n: int, k: nat)
    requires StopsBy(server, bound) && 1 <= n
    requires forall p :: 1 <= p <= n ==> IsSuccessful(server(p)) && TotalPages(server(p)) == n
    requires forall p :: 1 <= p <= n ==> |Records(server(p))| == k
    ensures LastPage(server, 1, bound) == n
    ensures |Collect(server, FirstPages(n))| == n * k
  {
    LastPageIsFirstStop(server, bound, n);
    UniformCollectLength(server, n, k);
  }

  /** The run reads only the replies to the pages it requests: a server that
      answers those pages the same way (in particular, the same server asked
      again) produces the same run. */
  lemma {:induction false} SameRepliesSameRun(s1: Server, b1: int, s2: Server, b2: int)
    requires StopsBy(s1, b1) && StopsBy(s2, b2)
    requires forall p :: 1 <= p <= LastPage(s1, 1, b1) ==> s1(p) == s2(p)
    ensures LastPage(s2, 1, b2) == LastPage(s1, 1, b1)
    ensures Collect(s2, FirstPages(LastPage(s2, 1, b2))) == Collect(s1, FirstPages(LastPage(s1, 1, b1)))
  {
    var last := LastPage(s1, 1, b1);
    assert forall p :: 1 <= p < last ==> RequestsNext(s2, p) by {
      forall p | 1 <= p < last ensures RequestsNext(s2, p) {
        assert RequestsNext(s1, p);
      }
    }
    LastPageIsFirstStop(s2, b2, last);
    CollectObservedOnly(s1, s2, FirstPages(last));
  }

  // A concrete directory: three pages of two users each, ids 1 to 6.

  function Person(id: int): UserData {
    UserData(id, "first", "last", "user@example.org", "avatar")
  }

  function Page(p: int, total: int, rows: seq<UserData>): Reply {
    Response(200, Some(UserResponse(p, |rows|, 6, total, Some(rows))))
  }

  function ThreePageServer(p: int): Reply {
    if p == 1 then Page(1, 3, [Person(1), Person(2)])
    else if p == 2 then Page(2, 3, [Person(3), Person(4)])
    else if p == 3 then Page(3, 3, [Person(5), Person(6)])
    else Response(404, None)
  }

  /** total_pages = 3 with two users per page: pages 1, 2, 3 are fetched in
      that order and the six users arrive in ascending id order. */
  lemma {:induction false} ThreePagesOfTwo()
    ensures StopsBy(ThreePageServer, 3)
    ensures LastPage(ThreePageServer, 1, 3) == 3
    ensures FirstPages(3) == [1, 2, 3]
    ensures Collect(ThreePageServer, FirstPages(3))
         == [Person(1), Person(2), Person(3), Person(4), Person(5), Person(6)]
    ensures NoticeOf(ThreePageServer(3)) == []
  {
    FixedTotalPagesStops(ThreePageServer, 3);
    LastPageIsFirstStop(ThreePageServer, 3, 3);
    assert FirstPages(3) == [1, 2, 3];
    assert [1, 2, 3][..2] == [1, 2];
    CollectPair(ThreePageServer, 1, 2);
  }

  function BrokenSecondPageServer(p: int): Reply {
    if p == 1 then Page(1, 2, [Person(1), Person(2)])
    else Failure(Some("timeout"))
  }

  /** Page 1 succeeds with total_pages = 2 and page 2 fails to connect: the
      callback gets page 1's users only, and one connection error shows. */
  lemma {:induction false} SecondPageConnectionFails()
    ensures StopsBy(BrokenSecondPageServer, 2)
    ensures LastPage(BrokenSecondPageServer, 1, 2) == 2
    ensures Collect(BrokenSecondPageServer, FirstPages(2)) == [Person(1), Person(2)]
    ensures NoticeOf(BrokenSecondPageServer(2)) == [ConnectionError]
  {
    FixedTotalPagesStops(BrokenSecondPageServer, 2);
    FailedPageStopsRun(BrokenSecondPageServer, 2, 2, []);
    assert FirstPages(2) == [1, 2];
    assert FirstPages(2)[..1] == [1];
    assert FirstPages(1)[..0] == [];
  }
}
