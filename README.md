# mypeople-app: the user-directory fetch and search, in Dafny

This project models the data core of the mypeople Android app's user list.
The app fetches a remote user directory (`GET users?page=n`) page by page,
builds a list of `UserData` records from the pages, hands that list to a
callback, and filters it with a case-insensitive search box.

The repository has two versions of the users screen, and both are modelled:

- `ui/activities/UsersActivity.kt` holds the paginated aggregator (module
  `PagedDirectory`). It requests page 1 first. It requests page `n + 1`
  while the reply to page `n` succeeded and `n < total_pages`. The callback
  runs exactly once, when the first reply that asks for no further page has
  been handled.
- `ui/userlist/UsersActivity.kt` holds the older aggregator (module
  `TwoPageDirectory`). It sends requests for pages 1 and 2 at once. Each
  reply is handled whenever it arrives, and only page 2's handler calls the
  callback.
- The search filter (module `Search`) is the same text in both files, so
  one definition serves both.
- Module `DirectoryModel` holds the shared values: the wire records, the
  reply a request's callback receives, and the record and notification
  contributions of one reply.

How the outside world becomes values:

- The HTTP client and JSON decoder are replaced by an oracle,
  `Server = int -> Reply`. A `Reply` is either `Response(code, body)`, as
  delivered to `onResponse`, or `Failure(message)`, as delivered to
  `onFailure`. `isSuccessful` is a status code in [200, 300).
- A `null` body and a `null` `data` array both count as "no records". A
  `null` body counts as `total_pages` 0 (the Elvis defaults at
  `ui/activities/UsersActivity.kt:159` and `:162`).
- Toasts become `Notice` values (`LoadError`, `ConnectionError`). The
  callback becomes the `deliveries` output, which lists every list passed
  to it.
- Asynchrony in the two-page version becomes an input: `arrival`, the order
  in which the two replies are handled. The callback receives the mutable
  accumulator itself, so the model reports two things: the list as it was
  when the callback ran (`deliveries`), and its contents after both
  handlers ran (`finalList`).
- `UserData` is declared in `data/model`, but that declaration is not part
  of this model. Its five fields (`id`, `first_name`, `last_name`, `email`,
  `avatar`) follow their uses in both screens.
- Case folding is an abstract character function `lower`. Two characters
  match when they fold to the same character.

The paginated loop needs the server to stop asking for pages at some point.
`PagedDirectory.StopsBy(server, bound)` says that the reply to page `bound`
requests no successor. A run ends exactly when such a page exists. Any
server whose `total_pages` has a fixed upper bound has one
(`FixedTotalPagesStops`). `LastPage` is the first page
whose reply ends the run.

## Model

| member | source | states |
|---|---|---|
| DirectoryModel.Records | app/src/main/java/com/example/mypeople/ui/activities/UsersActivity.kt:158-160 | a reply that is not a success (a non-2xx status or a transport failure) contributes no records |
| DirectoryModel.NoticeOf | app/src/main/java/com/example/mypeople/ui/activities/UsersActivity.kt:170-180 | a reply raises no toast exactly when it is a success; a non-2xx response raises exactly one load-error toast, and a transport failure exactly one connection-error toast |
| DirectoryModel.CollectSnoc | app/src/main/java/com/example/mypeople/ui/activities/UsersActivity.kt:160 | handling one more reply appends exactly that reply's records to the accumulator |
| DirectoryModel.CollectPair | app/src/main/java/com/example/mypeople/ui/userlist/UsersActivity.kt:186 | handling the replies for pages a then b yields a's records followed by b's, and a's notices followed by b's |
| DirectoryModel.CollectAppend | app/src/main/java/com/example/mypeople/ui/activities/UsersActivity.kt:160 | the records of a run split at any point are the records of the two parts concatenated |
| DirectoryModel.CollectPrefix | app/src/main/java/com/example/mypeople/ui/activities/UsersActivity.kt:160 | appending never removes or reorders records: a prefix of the handled pages gives a prefix of the records |
| DirectoryModel.CollectObservedOnly | app/src/main/java/com/example/mypeople/ui/activities/UsersActivity.kt:156-160 | only the replies to the requested pages matter: servers that agree on them give the same records and notices |
| Search.Contains | app/src/main/java/com/example/mypeople/ui/activities/UsersActivity.kt:63 | the substring test is true exactly when the query occurs in the text at some index |
| Search.ContainsIgnoreCaseAt | app/src/main/java/com/example/mypeople/ui/activities/UsersActivity.kt:63-65 | `contains(query, ignoreCase = true)` holds exactly when, at some start index of the text, every character of the query matches the text's character at the same offset ignoring case |
| Search.Filter | app/src/main/java/com/example/mypeople/ui/activities/UsersActivity.kt:62-66 | a user is kept exactly when they are in the list and their first name, last name or email contains the query ignoring case; the result is never longer than the list |
| Search.FilterIsSubsequence | app/src/main/java/com/example/mypeople/ui/activities/UsersActivity.kt:62 | the filter keeps the list order of the users it keeps |
| Search.FilterCounts | app/src/main/java/com/example/mypeople/ui/activities/UsersActivity.kt:62-66 | each matching user is kept as many times as it occurs, and each non-matching user is dropped |
| Search.FilterEmptyQuery | app/src/main/java/com/example/mypeople/ui/userlist/UsersActivity.kt:87-91 | the initial empty query shows the whole list unchanged |
| Search.FilterAppend | app/src/main/java/com/example/mypeople/ui/activities/UsersActivity.kt:62-66 | filtering the aggregated list is the same as filtering each page and concatenating the results |
| Search.FilterIdempotent | app/src/main/java/com/example/mypeople/ui/activities/UsersActivity.kt:62-66 | filtering an already filtered list with the same query changes nothing |
| Search.FilterIgnoresQueryCase | app/src/main/java/com/example/mypeople/ui/activities/UsersActivity.kt:63-65 | two queries that differ only in case select the same users |
| PagedDirectory.LastPage | app/src/main/java/com/example/mypeople/ui/activities/UsersActivity.kt:165-169 | the run ends on the least page that requests no successor, which is no later than any stopping page; every page before it requested one |
| PagedDirectory.FetchUsers | app/src/main/java/com/example/mypeople/ui/activities/UsersActivity.kt:150-186 | pages 1..LastPage are requested in order; the callback runs exactly once, with the given users followed by those pages' records; the only toast is the one for the last page's reply, if that reply failed |
| PagedDirectory.FixedTotalPagesStops | app/src/main/java/com/example/mypeople/ui/activities/UsersActivity.kt:162-166 | a server that never reports more than t pages lets every run end by page max(t, 1) |
| PagedDirectory.LastPageIsFirstStop | app/src/main/java/com/example/mypeople/ui/activities/UsersActivity.kt:165-169 | the run ends at the first page that asks for no successor, whatever bound proved termination |
| PagedDirectory.SinglePageRun | app/src/main/java/com/example/mypeople/ui/activities/UsersActivity.kt:158-168 | if page 1 succeeds with total_pages at most 1, only page 1 is requested, and the callback gets the given users plus page 1's data with no toast |
| PagedDirectory.EarlierPagesSucceeded | app/src/main/java/com/example/mypeople/ui/activities/UsersActivity.kt:158-166 | every page before the last one was a success |
| PagedDirectory.FailedPageStopsRun | app/src/main/java/com/example/mypeople/ui/activities/UsersActivity.kt:170-180 | a failing page m ends the run: page m + 1 is never requested, the callback gets the records of pages 1..m-1, and exactly one toast shows |
| PagedDirectory.UniformCollectLength | app/src/main/java/com/example/mypeople/ui/activities/UsersActivity.kt:159-160 | n pages of k records each give n * k records |
| PagedDirectory.UniformPagesRun | app/src/main/java/com/example/mypeople/ui/activities/UsersActivity.kt:155-185 | if pages 1..n succeed, each reporting total_pages n and holding k records, the run ends at page n and collects n * k records |
| PagedDirectory.SameRepliesSameRun | app/src/main/java/com/example/mypeople/ui/activities/UsersActivity.kt:155-185 | two servers that answer the requested pages alike produce the same last page and the same records |
| PagedDirectory.ThreePagesOfTwo | app/src/main/java/com/example/mypeople/ui/activities/UsersActivity.kt:155-185 | with total_pages 3 and two users per page, pages 1, 2, 3 are fetched and the six users arrive in page order |
| PagedDirectory.SecondPageConnectionFails | app/src/main/java/com/example/mypeople/ui/activities/UsersActivity.kt:176-180 | if page 2 fails to connect, the callback gets page 1's users and one connection-error toast shows |
| TwoPageDirectory.ThroughSecondPage | app/src/main/java/com/example/mypeople/ui/userlist/UsersActivity.kt:187-188 | the replies handled before the callback run form the prefix of the arrival order that ends at its first page 2 |
| TwoPageDirectory.ThroughSecondPageAt | app/src/main/java/com/example/mypeople/ui/userlist/UsersActivity.kt:187-188 | if page 2 first arrives at position k, the replies handled before the callback are the first k + 1 |
| TwoPageDirectory.FetchUsers | app/src/main/java/com/example/mypeople/ui/userlist/UsersActivity.kt:178-207 | pages 1 and 2 are both requested; the final list holds the given users, then both pages' records in arrival order; the callback runs exactly once; if page 2 arrives first it sees only page 2's records; one toast per failed page |
| TwoPageDirectory.OnReply | app/src/main/java/com/example/mypeople/ui/userlist/UsersActivity.kt:184-204 | a handler appends its page's records on success, raises one toast otherwise, and calls the callback on page 2 only |
| TwoPageDirectory.InOrderArrival | app/src/main/java/com/example/mypeople/ui/userlist/UsersActivity.kt:182-189 | in request order the callback gets the given users, then page 1's records, then page 2's |
| TwoPageDirectory.LateFirstPage | app/src/main/java/com/example/mypeople/ui/userlist/UsersActivity.kt:186-188 | when page 1 arrives last, the callback gets only page 2's records, and page 1's records are appended after them |
| TwoPageDirectory.ArrivalOrderLaw | app/src/main/java/com/example/mypeople/ui/userlist/UsersActivity.kt:178-207 | in general terms: the callback sees the records of the replies handled up to page 2's; the final list and the toasts follow arrival order |
| TwoPageDirectory.DeliveredIsPrefixOfFinal | app/src/main/java/com/example/mypeople/ui/userlist/UsersActivity.kt:179-188 | whatever the order, what the callback saw is a prefix of the final list, which starts with the given users |
| TwoPageDirectory.FailedFirstPage | app/src/main/java/com/example/mypeople/ui/userlist/UsersActivity.kt:190-204 | if page 1 fails, the callback still runs, with page 2's records only, and at least one toast shows |
| TwoPageDirectory.LateFirstPageIsMissed | app/src/main/java/com/example/mypeople/ui/userlist/UsersActivity.kt:186-188 | when page 1 has records and arrives second, the callback sees strictly fewer records than the list finally holds |
| TwoPageDirectory.FetchUsersInPageOrder | app/src/main/java/com/example/mypeople/ui/userlist/UsersActivity.kt:178-207 | corrected fetch: in both arrival orders the callback runs once, with the given users, then page 1's records, then page 2's |
| TwoPageDirectory.OnReplyInPageOrder | app/src/main/java/com/example/mypeople/ui/userlist/UsersActivity.kt:184-204 | corrected handler: stores its page's records in that page's slot, and the second handler to run calls the callback with both pages in page order |
| TwoPageDirectory.InPageOrderMatchesCollect | app/src/main/java/com/example/mypeople/ui/userlist/UsersActivity.kt:178-207 | the corrected delivery matches the request-order collection, and when page 1 has records it differs from what the source delivers if page 1 arrives late |
| TwoPageDirectory.AgreesWithPagedOnTwoPages | app/src/main/java/com/example/mypeople/ui/userlist/UsersActivity.kt:182 | on a directory of two pages that both succeed, the paginated run ends at page 2, and the two fixed requests handled in request order collect the same records |

## Left out

- The Compose UI is not modelled: the screens, the list rendering, the `isLoading` flag and the images. The login screens and the theme files are not modelled either. None of them touch the fetch or filter logic.
- The HTTP client, the network and the JSON decoding are replaced by the `Server` oracle. The status code and the decoded body are inputs.
- The toast texts, their duration and the `Log.d` lines are not modelled; only the kind of toast (`Notice`) is kept. This is also the only trace that distinguishes a non-2xx `onResponse` from an `onFailure`.
- Real concurrency and thread scheduling are not modelled. The two replies of the two-page version are handled sequentially, in the order given by `arrival`. All requests are modelled as issued before any reply is handled, because the `for` loop enqueues both without waiting.
- The later mutation of the delivered list, when page 1 arrives late in the two-page version, is not modelled as aliasing. It is modelled as two values, the snapshot in `deliveries` and the final contents in `finalList`. Whether the UI ever redraws with the late records is a Compose question and is not modelled.
- The setup before the first request (the `currentPage` variable and the copy `users.toMutableList()`) is not a separate member.
- PagedDirectory.FetchUsers: it requires some page whose reply requests no successor (`StopsBy`). A server on which every page requests one, for example by reporting an ever-growing `total_pages`, makes the source request pages forever, and the model does not describe that endless run.
- PagedDirectory.FetchUsers: Kotlin's 32-bit `Int` is not modelled. A page number never exceeds `total_pages`, itself an `Int`, so `page + 1` cannot overflow while it is requested.
- Search.Contains: exact Unicode case-insensitive matching is not modelled. Kotlin's `contains(ignoreCase = true)` compares characters by both upper- and lower-case mapping; here this is the abstract function `lower`, and two characters match when their images are equal.

## Findings

| source | as written | input that shows it | evidently intended | confidence | as-written member | corrected member |
|---|---|---|---|---|---|---|
| app/src/main/java/com/example/mypeople/ui/userlist/UsersActivity.kt:182-204 | only page 2's handler calls the callback, whichever reply is handled first | page 1 returns a non-empty `data` and its reply is handled after page 2's (`arrival` = [2, 1]) | the callback gets both pages' records, in page order, once both replies are handled | medium: the arrival order depends on the network; not executed | TwoPageDirectory.LateFirstPageIsMissed | TwoPageDirectory.FetchUsersInPageOrder |
