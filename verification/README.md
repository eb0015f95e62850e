# Reddit relay: a Dafny model

The relay asks Reddit for the day's top posts of r/science. It serves them to
web clients in two ways: as HTTP routes, and as a WebSocket stream that
repeats every ten seconds. This project models its core:

- **The token step** (`getRedditOAuthToken`). It resolves with the
  `access_token` of the reply or rethrows the client's error.
- **`getTopPosts`.** After the listing arrives, the call may sleep. It sleeps
  only when the `x-ratelimit-remaining` header is present and at most zero.
  The delay is `(reset - floor(now / 1000)) * 1000` milliseconds, with the
  `x-ratelimit-reset` header read as an absolute time in epoch seconds. The
  call then returns `data.data.children` unchanged. That value may be absent,
  and the call fails when `data.data` itself is null.
- **`getTopUsers`.** It fetches the listing again and counts the posts of
  every author in a plain object. It lists that object's entries in
  `Object.entries` order: keys that are array indices come first, ascending;
  all other keys follow in creation order. The entries are sorted stably by
  descending count, and the first ten are kept.
- **The WebSocket handler.** Each connection runs one cycle at once and then
  one cycle every 10 000 ms. A cycle does token, then posts, then users, then
  sends `{ topPosts: topPosts || [], topUsers: topUsers || [] }`. A failed
  cycle is swallowed and sends nothing. Closing the connection clears the
  timer. Every connection has its own timer and cycles.

`server.js` carries its own copies of the three Reddit functions. The module
`ServerCopy` writes the copies out and proves that they sleep and settle
exactly as the shared versions do on the same replies. The copies differ from
`redditLogic.js` in ways that do not reach those results:

- The token copy has no `try`. The shared version's `catch` logs the error
  and rethrows it, so a caller sees the same rejection either way.
- The token copy uses a fixed token URL (server.js:16) and reads the client
  credentials each time it is called (server.js:20). The shared version takes
  the URL and the credentials from the environment once, when the module
  loads (redditLogic.js:4). The HTTP request is not modelled, so neither
  difference is visible here.
- The log messages are worded differently.

The code reads the reset header as epoch seconds, but its log line says
"resets in N seconds". The model follows the arithmetic in the code.

The HTTP client, the clock and the timers are parameters:

- every call takes the reply it received, or the client's error;
- every call takes the `Date.now()` reading that follows the reply;
- a connection is driven by a sequence of timer firings and a close.

Modules:

- `Outcomes`: `Option`, `Result` and the error kinds.
- `Seqs`: generic sequence facts.
- `JsKeys`: the property-key order.
- `Ranking`: counting, sorting and truncation.
- `Upstream`: the three Reddit calls.
- `Session`: one connection.
- `Relay`: the server with many connections.
- `ServerCopy`: the `server.js` copies of the Reddit calls.
- `Samples`: worked examples taken from the unit tests.

## Model

| member | source | states |
|---|---|---|
| Upstream.AccessToken | redditLogic.js:7-24 | A resolved reply yields its `access_token`, which may be absent. A rejection is rethrown with the same error. It succeeds exactly when the request did. |
| Upstream.ThrottleFor | redditLogic.js:41-54 | The call sleeps if and only if the remaining header is present and at most zero; an absent header never makes it sleep. The delay is a number exactly when the reset header is present. |
| Upstream.WaitEndsAtReset | redditLogic.js:48-53 | When the call sleeps, the delay is a whole number of seconds. The requested delay ends exactly at the reset second, measured from the current time rounded down to a second. It is positive exactly when the reset second is still ahead. |
| Upstream.TopPosts | redditLogic.js:27-62 | A rejected request is rethrown without sleeping. Otherwise the sleep follows the headers. A missing `data.data` fails. Otherwise the children are returned as they are, possibly absent. |
| Upstream.PostsIgnoreRateLimit | redditLogic.js:57 | Headers and clock affect only the sleep: replies with the same listing settle the same way in both calls. |
| Upstream.SleepIgnoresListing | redditLogic.js:47-54 | The listing affects only the outcome: the sleep depends only on the headers, even when the listing is missing. |
| Upstream.UsersFollowPosts | redditLogic.js:65-95 | The ranking call sleeps as the posts call does. It succeeds exactly when the posts call returns children, and ranks exactly those children. It rethrows every error of the posts call. When the children are absent it fails. |
| Upstream.TopUsers | redditLogic.js:65-95 | A rejection is rethrown without sleeping. Otherwise the call sleeps as the headers demand. It succeeds exactly when the reply has a listing with children. A success has at most ten entries, each the exact post count of an author of those children. |
| Upstream.RejectionPropagates | redditLogic.js:58-61 | A client rejection reaches the caller of either call unchanged, with no sleep. |
| Upstream.UsersFromListing | redditLogic.js:68-90 | Whenever the ranking call succeeds, the reply had a listing with children, and the ranking has at most ten entries, each the exact post count of an author in that listing. |
| Ranking.Authors | redditLogic.js:74-75 | The authors are read one per post, in post order. |
| Ranking.CountAuthorsExact | redditLogic.js:71-77 | After the loop the object has one key per distinct author, created once. Each value is that author's number of posts. |
| Ranking.Bump | redditLogic.js:75-76 | One loop step raises the author's count by one, where a missing key counts as zero. It leaves every other count and key alone, and creates the author's key at the end only when it was missing. |
| Ranking.CountAuthors | redditLogic.js:71-77 | Every created key holds a count, and there are no more keys than posts. |
| Ranking.CreationOrderIsFirstSeen | redditLogic.js:74-77 | Keys are created in the order in which their authors first appear among the posts. |
| Ranking.CountsPartitionPosts | redditLogic.js:71-77 | The keys are exactly the authors. Each count is the author's multiplicity. The counts add up to the number of posts. |
| Ranking.TallySumIsLength | redditLogic.js:74-77 | The object's counts, summed over its keys, equal the number of authors read. |
| Ranking.EntriesFor | redditLogic.js:80-81 | One `{ user, count }` entry per key, in key order, each carrying that key's value. |
| Ranking.Entries | redditLogic.js:80-81 | There is one entry per key of the object, in `Object.entries` order: the entries' users are exactly `OwnKeys` of the keys in creation order, position by position. Each entry carries that key's count. |
| Ranking.EntriesForSum | redditLogic.js:80-81 | Mapping keys to entries keeps the total count. |
| JsKeys.OwnKeys | redditLogic.js:80 | `Object.entries` lists a permutation of the created keys. Keys that are not array indices keep their creation order. Every array-index key precedes all other keys and follows the smaller array-index keys. |
| JsKeys.SortByRank | redditLogic.js:80 | Array-index keys are put in ascending numeric order, as a permutation of the input. |
| Ranking.SortByCount | redditLogic.js:82 | The sort's result is in descending order of count and is a permutation of its input. |
| Ranking.InsertByCountStable | redditLogic.js:82 | One insertion keeps, for every count, the entries of that count in input order. |
| Ranking.SortByCountStable | redditLogic.js:82 | The sort is stable: for every count, the entries of that count keep their input order. |
| Ranking.StableSortIsUnique | redditLogic.js:82 | Two lists sorted by descending count that agree on every count's entries are equal. So every stable descending sort returns exactly this result. |
| Ranking.SortedInputUnchanged | redditLogic.js:82 | A list already in descending order of count is left unchanged by the sort. |
| Ranking.EntriesFacts | redditLogic.js:80-81 | Before sorting there is one exact entry per distinct author, no duplicates, in key order. |
| Ranking.FullRankingFacts | redditLogic.js:80-82 | After sorting: one exact entry per distinct author, sorted by descending count, every user once. |
| Ranking.FullRanking | redditLogic.js:80-82 | The ranking before the cut is in descending order of count. Its other properties are stated by `Ranking.FullRankingFacts`. |
| Ranking.TopUsers | redditLogic.js:90 | The result has `min(10, distinct authors)` entries. They are sorted by descending count, list each user once, and each carries the author's exact post count. Which tied authors survive the cut is stated by `Ranking.TruncationKeepsEarliestTies` and `Ranking.TruncationKeepsSmallestIndexTies`. |
| Ranking.PrefixKeepsRanking | redditLogic.js:90 | Taking a prefix keeps sortedness, distinctness and exact counts. |
| Ranking.NoPostsNoUsers | redditLogic.js:74-90 | An empty listing ranks nobody and does not fail. |
| Ranking.FullRankingSumsToPosts | redditLogic.js:71-82 | Before truncation the counts add up to the number of posts. |
| Ranking.AuthorRanked | redditLogic.js:71-82 | Every author has an entry in the full ranking, carrying their post count. |
| Ranking.TopUsersAreMostActive | redditLogic.js:82-90 | An author left out wrote no more posts than anyone listed. When fewer than ten are listed, nobody is left out. |
| Ranking.TieFollowsKeyOrder | redditLogic.js:80-82 | Two entries with equal counts appear in `Object.entries` order. |
| Ranking.StableTieOrder | redditLogic.js:80-82 | Sorting entries made one per distinct key lists two entries of equal count in the order of their keys. |
| Ranking.KeyOrderIsFirstSeen | redditLogic.js:74-80 | Among names that are not array-index-like, `Object.entries` order is the order of first appearance among the posts. |
| Ranking.TiesKeepFirstSeenOrder | redditLogic.js:74-82 | Ties between authors whose names are not array indices follow the order in which those authors first appear. |
| Ranking.IndexLikeAuthorsLeadTies | redditLogic.js:80-82 | Within a tie, authors named like array indices (such as "42") come before all others, in ascending numeric order. |
| Ranking.IndexLikeTie | redditLogic.js:80-82 | The same fact for one pair of tied entries of the full ranking. |
| Ranking.NamedTie | redditLogic.js:74-82 | For one pair of tied entries of the full ranking whose names are not array-index-like: both users are authors, and the earlier entry's author first appears earlier among the posts. |
| Ranking.LeftOutRanksLater | redditLogic.js:90 | An author missing from the result sits at or beyond position ten of the full ranking. |
| Ranking.TruncationKeepsEarliestTies | redditLogic.js:82-90 | The cut to ten keeps the earliest tied authors. Suppose any left-out author ties with any listed one and neither name is array-index-like. Then the listed author first appears earlier among the posts. |
| Ranking.TruncationKeepsSmallestIndexTies | redditLogic.js:82-90 | Suppose any left-out author with an array-index-like name ties with any listed one. Then the listed name is array-index-like too, with no larger value. |
| Session.RunCycle | webSocket.js:13-25 | A cycle always requests a token first and makes at most three requests. A cycle that sends made all three. |
| Session.CycleSendsBothLists | webSocket.js:13-25 | A message is sent exactly when token, posts and users all succeed. It carries the posts call's children (or `[]` when they are absent) and the ranking. Both listing requests carry the cycle's token. |
| Session.NoTokenNoListing | webSocket.js:15 | A failed token step sends no listing request and no message. |
| Session.CycleMessageWellFormed | webSocket.js:17-20 | Whenever a cycle sends, its ranking holds at most ten users, sorted by descending count, none listed twice. |
| Session.Sent | webSocket.js:20-23 | A cycle hands at most one message to `ws.send`, and one exactly when it succeeded. |
| Session.Connect | webSocket.js:28-29 | Connecting runs the first cycle at once. Its requests are that cycle's requests, and what it sent is that cycle's message, if any. The cycle is recorded at the connection time, and a 10 000 ms timer is armed, due one period later. |
| Session.ConnectDelivers | webSocket.js:13-34 | A connection sends the first cycle's message, if any, then exactly the deliveries of its later events, up to the first close. |
| Session.Step | webSocket.js:29-34 | A closed connection ignores every event. A close removes the timer and keeps the cycle starts, the requests and the messages. On an open connection, a firing records a cycle start at the due time and re-arms the timer one period later. It appends that cycle's requests and its message, if any. |
| Session.Run | webSocket.js:9-34 | A connection's history only grows: the cycle starts, requests and messages before a run stay, in front, after it. |
| Session.StepRecords | webSocket.js:29-34 | On an open connection, a firing runs and records one cycle, appends what it sent and keeps the timer. A close removes the timer and keeps what was sent. |
| Session.RunDelivers | webSocket.js:13-34 | An open connection sends exactly one message per successful cycle among the firings before the first close, in order. |
| Session.RunCountsFirings | webSocket.js:28-34 | An open connection runs one cycle per timer firing before the first close. |
| Session.ClosedIsFinal | webSocket.js:31-34 | Once closed, nothing more happens on the connection. |
| Session.FailedCycleKeepsTimer | webSocket.js:22-24 | A failed cycle is swallowed: the firing is recorded, nothing is sent, and the timer stays armed for the next period. |
| Session.CloseIsIdempotent | webSocket.js:31-34 | Closing twice is closing once; closing keeps the cycle starts, the requests and the messages. |
| Session.ConnectOnSchedule | webSocket.js:28-29 | A new connection is on its schedule: its k-th cycle starts k periods after connecting. |
| Session.StepOnSchedule | webSocket.js:29 | Every event keeps a connection on its schedule. |
| Session.RunOnSchedule | webSocket.js:28-34 | Every connection keeps to its schedule, whatever its cycles do. |
| Session.SentWellFormed | webSocket.js:19-20 | What one cycle sends is well formed. |
| Session.RunSendsWellFormed | webSocket.js:13-34 | Every message a connection ever sends is well formed. |
| Relay.Handle | webSocket.js:9-35 | An event starts at most the one connection it names and never removes one. A repeated connection identifier and an event on an unknown socket leave the server unchanged. A new connection gets the session that the `connection` handler starts. An event on a known connection steps that connection's session. |
| Relay.RunServer | webSocket.js:9-35 | Connections are never removed. Every connection the server has at the end either existed at the start or was opened by a `connection` event with its identifier. |
| Relay.EventsOf | webSocket.js:31 | A connection's own events are no more than the server's events, and each is an event on that connection among them. |
| Relay.EventsOfAppend | webSocket.js:31 | Selecting a connection's events keeps the server's order: over two stretches of events, the selection is the first stretch's selection followed by the second's. |
| Relay.NewConnectionInIsolation | webSocket.js:9-35 | A connection opened by a `connection` event runs exactly as a session the handler started, driven by that connection's own later events alone. |
| Relay.OthersUntouched | webSocket.js:9-35 | An event on one connection leaves every other connection as it was. |
| Relay.ConnectionInIsolation | webSocket.js:9-35 | Connections are independent. Under any interleaving, a connection ends exactly as it would running alone on its own events. |
| ServerCopy.TokenCopyAgrees | server.js:19-33 | The `server.js` token function, which has no `try`, resolves and rejects exactly as the shared one. |
| ServerCopy.AccessToken | server.js:19-33 | The `server.js` token function succeeds exactly when the request did. A rejection reaches the caller unchanged. |
| ServerCopy.TopPosts | server.js:36-73 | The `server.js` `getTopPosts` rethrows a rejection without sleeping. It sleeps exactly when the remaining header is at most zero. It succeeds exactly when `data.data` is present, and then returns its children unchanged. |
| ServerCopy.TopUsers | server.js:92-122 | The `server.js` `getTopUsers` rethrows a rejection without sleeping and sleeps as its posts call does. It succeeds exactly when the listing has children, with at most ten entries. |
| ServerCopy.PostsCopyAgrees | server.js:36-73 | The `server.js` copy of `getTopPosts` sleeps for the same delay and settles with the same value or error. |
| ServerCopy.UsersCopyAgrees | server.js:92-122 | The `server.js` copy of `getTopUsers` sleeps for the same delay and settles with the same ranking or error. |
| Samples.TokenSample | redditLogic.test.js:31-43 | The mocked token reply yields `mockAccessToken`. A rejected request is rethrown. |
| Samples.PostsSample | redditLogic.test.js:47-82 | With ten requests to spare, the children come back unchanged and nothing sleeps. A null `data.data` fails. |
| Samples.ThrottleSample | redditLogic.js:48-53 | Exhausted headers resetting at second 1060, read at 1000.5 s, sleep 60 000 ms. |
| Samples.SampleTopUsers | redditLogic.test.js:87-114 | The six-post listing ranks user1 (3), user2 (2), user3 (1). |
| Samples.UsersSample | redditLogic.test.js:87-114 | `getTopUsers` on that reply resolves with that ranking, without sleeping. |
| Samples.SampleCounts6 | redditLogic.test.js:95-102 | Counting the six posts creates user1, user2, user3 in that order, with counts 3, 2 and 1. |
| Samples.MixedKeys | redditLogic.js:80 | Keys created as "zed", "42", "7" are listed as "7", "42", "zed". |
| Samples.FailingConnectionSample | webSocket.js:22-34 | A connection whose token requests all fail runs on schedule at 0, 10 000 and 20 000 ms. It sends nothing, and after the close it stays closed. |

## Left out

- HTTP and encoding (axios, `Buffer`, base64, the OAuth URL, request headers and parameters) are not modelled. Each reply or rejection is an input.
- The Express routes, CORS and the ports of `server.js` are not modelled. They only forward results to HTTP responses.
- Real timers, asynchrony and concurrency are not modelled. A cycle runs to completion at the moment its timer fires, so the model has no overlapping cycles and no cycle still in flight after a close.
- `setTimeout` itself is not modelled. The sleep is reported as the delay asked for; a NaN delay (an absent reset header) is `Wait(None)`. Node fires at once (after one millisecond) for a delay that is not a number, is below 1, or is above 2147483647; the model does not apply that clamp.
- Header values are integers. String headers, JavaScript's string-to-number coercion in `<=` and `-`, and fractional values are not modelled.
- Authors whose names are `Object.prototype` properties (such as `constructor` or `__proto__`) are not modelled. The count object is treated as a plain dictionary, whereas in JavaScript those names would read the inherited property.
- A child without `data`, and a non-string author, are not modelled. The author is always a string.
- A listing child is represented by its `data` object alone (`Ranking.Post`). The child's `kind` and the other fields of `data` are not represented. They pass through `getTopPosts` untouched, and the ranking reads only `author`.
- Logging, `console` output, environment variables and `JSON.stringify` are not modelled. The message is the structured value before serialisation.
- The WebSocket tests that use a mock socket are not modelled.
- Samples.PostsSample: the unit test at redditLogic.test.js:81 expects a particular error message, which the code does not produce. The model says only that the call fails, with `ListingMissing`.
- Ranking.TiesKeepFirstSeenOrder: this lemma covers only authors whose names are not array indices. Ties involving array-index names are covered instead by `Ranking.IndexLikeAuthorsLeadTies`.
- The ranking of a listing that mixes array-index names with other names is shown only for the key order (`Samples.MixedKeys`). There is no end-to-end example of such a ranking.
