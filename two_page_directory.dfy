/**
  The older aggregator of ui/userlist/UsersActivity.kt: a `for` loop issues
  requests for pages 1 and 2 at once, without waiting, and each request's
  handler appends its page's records to the shared copy of the given list
  when it arrives.  Only page 2's handler calls the callback, whatever that
  reply was.  Each request gets exactly one reply; the order in which the
  two replies are handled is the input `arrival`.

  The callback receives the accumulator itself, not a copy, so when page 1
  arrives after page 2 its records are appended to the very list the
  callback already holds.  The model reports both the list's contents when
  the callback ran (`deliveries`) and once both handlers have run
  (`finalList`).
 */
module TwoPageDirectory {
  import opened DirectoryModel
  import PagedDirectory

  /** The two replies are handled one after the other, in either order. */
  predicate IsArrivalOrder(arrival: seq<int>) {
    arrival == [1, 2] || arrival == [2, 1]
  }

  /** The replies handled up to and including the one for page 2: the
      prefix of `arrival` that ends with its first 2. */
  function ThroughSecondPage(arrival: seq<int>): (prefix: seq<int>)
    ensures prefix <= arrival
    ensures 2 in arrival ==> |prefix| > 0 && prefix[|prefix| - 1] == 2 && 2 !in prefix[..|prefix| - 1]
    ensures 2 !in arrival ==> prefix == arrival
    decreases |arrival|
  {
    if arrival == [] then []
    else if arrival[0] == 2 then [2]
    else
      var rest := ThroughSecondPage(arrival[1..]);
      assert arrival == [arrival[0]] + arrival[1..];
      assert ([arrival[0]] + rest)[1..] == rest;
      [arrival[0]] + rest
  }

  /** The first 2 of `arrival` sits at index `k`. */
  lemma {:induction false} ThroughSecondPageAt(arrival: seq<int>, k: int)
    requires 0 <= k < |arrival| && arrival[k] == 2 && 2 !in arrival[..k]
    ensures ThroughSecondPage(arrival) == arrival[..k + 1]
    decreases k
  {
    if k > 0 {
      assert arrival[0] in arrival[..k];
      var tail := arrival[1..];
      assert tail[..k - 1] == arrival[1..k];
      assert forall x :: x in tail[..k - 1] ==> x in arrival[..k];
      ThroughSecondPageAt(tail, k - 1);
      assert arrival[..k + 1] == [arrival[0]] + tail[..k];
    }
  }

  /** `fetchUsers`.  `requests` lists the pages requested, in request order;
      `deliveries` the lists passed to the callback, as they were when it
      ran; `notices` the error toasts shown; `finalList` the accumulator once
      both replies have been handled. */
  method FetchUsers(users: seq<UserData>, server: Server, arrival: seq<int>)
    returns (requests: seq<int>, deliveries: seq<seq<UserData>>, notices: seq<Notice>, finalList: seq<UserData>)
    requires IsArrivalOrder(arrival)
    ensures requests == [1, 2]
    ensures finalList == users + Records(server(arrival[0])) + Records(server(arrival[1]))
    ensures deliveries == [if arrival[0] == 2 then users + Records(server(2)) else finalList]
    ensures notices == NoticeOf(server(arrival[0])) + NoticeOf(server(arrival[1]))
  {
    var updatedUsers := users;
    requests := [];
    for i := 1 to 3
      invariant requests == [1, 2][..i - 1]
    {
      requests := requests + [i];
    }
    deliveries, notices := [], [];
    // The two replies are handled one after the other, in arrival order.
    var first, second := arrival[0], arrival[1];
    updatedUsers, deliveries, notices := OnReply(first, server(first), updatedUsers, deliveries, notices);
    updatedUsers, deliveries, notices := OnReply(second, server(second), updatedUsers, deliveries, notices);
    finalList := updatedUsers;
  }

  /** The callback registered for the request of page `i`, run on that
      request's reply: a success appends the page's `data` (nothing when the
      body or `data` is missing), a non-success status or a transport
      failure raises a toast, and only the handler of page 2 then passes the
      accumulator to the callback. */
  method OnReply(i: int, response: Reply, updatedUsers: seq<UserData>, deliveries: seq<seq<UserData>>, notices: seq<Notice>)
    returns (updatedUsers': seq<UserData>, deliveries': seq<seq<UserData>>, notices': seq<Notice>)
    ensures updatedUsers' == updatedUsers + Records(response)
    ensures notices' == notices + NoticeOf(response)
    ensures deliveries' == if i == 2 then deliveries + [updatedUsers'] else deliveries
  {
    updatedUsers', deliveries', notices' := updatedUsers, deliveries, notices;
    match response {
      case Response(code, body) =>
        if 200 <= code < 300 {
          updatedUsers' := updatedUsers' + if body.Some? && body.value.data.Some? then body.value.data.value else [];
          if i == 2 {
            deliveries' := deliveries' + [updatedUsers'];
          }
        } else {
          notices' := notices' + [LoadError];
          if i == 2 {
            deliveries' := deliveries' + [updatedUsers'];
          }
        }
      case Failure(message) =>
        notices' := notices' + [ConnectionError];
        if i == 2 {
          deliveries' := deliveries' + [updatedUsers'];
        }
    }
  }

  /** In request order the callback gets the given users, then page 1's
      records, then page 2's. */
  lemma {:induction false} InOrderArrival(users: seq<UserData>, server: Server)
    ensures ThroughSecondPage([1, 2]) == [1, 2]
    ensures users + Collect(server, [1, 2]) == users + Records(server(1)) + Records(server(2))
  {
    assert ThroughSecondPage([1, 2]) == [1, 2];
    CollectPair(server, 1, 2);
    assert users + Collect(server, [1, 2]) == users + Records(server(1)) + Records(server(2));
  }

  /** When page 1's reply comes last, the callback gets the given users and
      page 2's records only; page 1's records are appended to the delivered
      list afterwards. */
  lemma {:induction false} LateFirstPage(users: seq<UserData>, server: Server)
    ensures ThroughSecondPage([2, 1]) == [2]
    ensures users + Collect(server, [2]) == users + Records(server(2))
    ensures users + Collect(server, [2, 1]) == users + Records(server(2)) + Records(server(1))
  {
    assert ThroughSecondPage([2, 1]) == [2];
    CollectPair(server, 2, 1);
    assert Collect(server, [2]) == Records(server(2)) by {
      assert [2][..0] == [];
    }
    assert users + Collect(server, [2, 1]) == users + Records(server(2)) + Records(server(1));
  }

  /** The contract of FetchUsers in general terms: the callback gets the
      given users followed by the records of each successful page whose
      reply arrived no later than page 2's, in arrival order; the list
      finally holds the records of both pages in arrival order; one toast
      shows per page that failed. */
  lemma {:induction false} ArrivalOrderLaw(users: seq<UserData>, server: Server, arrival: seq<int>)
    requires IsArrivalOrder(arrival)
    ensures users + Records(server(arrival[0])) + Records(server(arrival[1])) == users + Collect(server, arrival)
    ensures (if arrival[0] == 2 then users + Records(server(2)) else users + Records(server(arrival[0])) + Records(server(arrival[1])))
         == users + Collect(server, ThroughSecondPage(arrival))
    ensures NoticeOf(server(arrival[0])) + NoticeOf(server(arrival[1])) == Notices(server, arrival)
  {
    if arrival == [1, 2] {
      InOrderArrival(users, server);
    } else {
      LateFirstPage(users, server);
    }
  }

  /** Whatever the order, what the callback got is a prefix of what the
      list finally holds, which in turn starts with the given users. */
  lemma {:induction false} DeliveredIsPrefixOfFinal(users: seq<UserData>, server: Server, arrival: seq<int>)
    requires IsArrivalOrder(arrival)
    ensures users <= users + Collect(server, ThroughSecondPage(arrival))
    ensures users + Collect(server, ThroughSecondPage(arrival)) <= users + Collect(server, arrival)
  {
    CollectPrefix(server, ThroughSecondPage(arrival), arrival);
  }

  /** A page whose reply was rejected or failed contributes no records and
      raises a toast, and the callback is still called, with the other
      page's records, in either order. */
  lemma {:induction false} FailedFirstPage(users: seq<UserData>, server: Server, arrival: seq<int>)
    requires IsArrivalOrder(arrival) && !IsSuccessful(server(1))
    ensures users + Collect(server, ThroughSecondPage(arrival)) == users + Records(server(2))
    ensures users + Collect(server, arrival) == users + Records(server(2))
    ensures |Notices(server, arrival)| >= 1
  {
    ArrivalOrderLaw(users, server, arrival);
    assert Records(server(1)) == [] && |NoticeOf(server(1))| == 1;
    if arrival == [1, 2] {
      assert users + Collect(server, arrival) == users + Records(server(2));
      assert |Notices(server, arrival)| == |NoticeOf(server(1))| + |NoticeOf(server(2))|;
    } else {
      assert users + Collect(server, arrival) == users + Records(server(2));
      assert |Notices(server, arrival)| == |NoticeOf(server(2))| + |NoticeOf(server(1))|;
    }
  }

  /** When page 1 has records and its reply arrives after page 2's, the
      callback misses them: it gets strictly fewer records than the list
      finally holds. */
  lemma {:induction false} LateFirstPageIsMissed(users: seq<UserData>, server: Server)
    requires Records(server(1)) != []
    ensures |users + Collect(server, ThroughSecondPage([2, 1]))| < |users + Collect(server, [2, 1])|
  {
    LateFirstPage(users, server);
  }

  // The callback of FetchUsers misses page 1 when page 1's reply comes
  // second (LateFirstPageIsMissed).  What the code evidently means is to
  // call back once both replies are handled, with the pages in page order.

  /** The corrected fetch: each handler stores its page's records in that
      page's slot and counts itself; the handler that completes the pair
      calls the callback with both pages in page order. */
  method FetchUsersInPageOrder(users: seq<UserData>, server: Server, arrival: seq<int>)
    returns (requests: seq<int>, deliveries: seq<seq<UserData>>, notices: seq<Notice>, finalList: seq<UserData>)
    requires IsArrivalOrder(arrival)
    ensures requests == [1, 2]
    ensures finalList == users + Records(server(1)) + Records(server(2))
    ensures deliveries == [finalList]
    ensures notices == NoticeOf(server(arrival[0])) + NoticeOf(server(arrival[1]))
  {
    requests := [];
    for i := 1 to 3
      invariant requests == [1, 2][..i - 1]
    {
      requests := requests + [i];
    }
    var pages: seq<seq<UserData>> := [[], []];
    var handled := 0;
    deliveries, notices := [], [];
    var first, second := arrival[0], arrival[1];
    pages, handled, deliveries, notices := OnReplyInPageOrder(users, first, server(first), pages, handled, deliveries, notices);
    pages, handled, deliveries, notices := OnReplyInPageOrder(users, second, server(second), pages, handled, deliveries, notices);
    finalList := users + pages[0] + pages[1];
  }

  /** The corrected handler for page `i` (1 or 2). */
  method OnReplyInPageOrder(users: seq<UserData>, i: int, response: Reply, pages: seq<seq<UserData>>, handled: int,
                            deliveries: seq<seq<UserData>>, notices: seq<Notice>)
    returns (pages': seq<seq<UserData>>, handled': int, deliveries': seq<seq<UserData>>, notices': seq<Notice>)
    requires (i == 1 || i == 2) && |pages| == 2
    ensures pages' == pages[i - 1 := Records(response)]
    ensures handled' == handled + 1
    ensures notices' == notices + NoticeOf(response)
    ensures deliveries' == if handled' == 2 then deliveries + [users + pages'[0] + pages'[1]] else deliveries
  {
    pages' := pages[i - 1 := Records(response)];
    notices' := notices + NoticeOf(response);
    handled' := handled + 1;
    deliveries' := deliveries;
    if handled' == 2 {
      deliveries' := deliveries' + [users + pages'[0] + pages'[1]];
    }
  }

  /** The corrected fetch delivers the same list in both arrival orders:
      the given users followed by pages 1 and 2, as the paginated
      aggregator does for a two-page directory. */
  lemma {:induction false} InPageOrderMatchesCollect(users: seq<UserData>, server: Server)
    ensures users + Records(server(1)) + Records(server(2)) == users + Collect(server, [1, 2])
    ensures Records(server(1)) != [] ==>
              users + Collect(server, ThroughSecondPage([2, 1])) != users + Collect(server, [1, 2])
  {
    InOrderArrival(users, server);
    LateFirstPage(users, server);
    if Records(server(1)) != [] {
      assert |users + Collect(server, ThroughSecondPage([2, 1]))| < |users + Collect(server, [1, 2])|;
    }
  }

  /** Exactly two pages are requested whatever `total_pages` says; on a
      directory of two pages that both succeed, the records collected in
      request order are those of the paginated aggregator. */
  lemma {:induction false} AgreesWithPagedOnTwoPages(users: seq<UserData>, server: Server, bound: int)
    requires PagedDirectory.StopsBy(server, bound)
    requires IsSuccessful(server(1)) && IsSuccessful(server(2))
    requires TotalPages(server(1)) == 2 && TotalPages(server(2)) == 2
    ensures PagedDirectory.LastPage(server, 1, bound) == 2
    ensures PagedDirectory.FirstPages(2) == [1, 2]
    ensures Collect(server, ThroughSecondPage([1, 2])) == Collect(server, PagedDirectory.FirstPages(2))
  {
    PagedDirectory.LastPageIsFirstStop(server, bound, 2);
    assert PagedDirectory.FirstPages(2) == [1, 2];
    InOrderArrival(users, server);
  }
}
