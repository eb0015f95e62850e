/** The two Reddit requests of the relay: the listing of today's top posts
    of r/science (`getTopPosts`) and the contributor ranking built from a
    fresh copy of that listing (`getTopUsers`), plus the OAuth token step
    that precedes them.

    The HTTP client is not modelled: each call takes the reply it received
    (`Ok` with headers and body, or `Err` when the client rejected), and the
    wall-clock reading `Date.now()` taken after the reply arrived. The
    result says whether the call slept before returning (`throttle`) and
    what it resolved or rejected with (`outcome`). */
module Upstream {
  import opened Outcomes
  import Ranking

  /** Milliseconds per second, for the reset-time arithmetic. */
  const MsPerSecond: nat := 1000

  /** The `x-ratelimit-remaining` and `x-ratelimit-reset` headers of a
      reply; `None` when the header is absent. The reset value is read as
      an absolute time in epoch seconds. */
  datatype RateLimit = RateLimit(remaining: Option<int>, reset: Option<int>)

  /** `response.data.data`: the listing, whose `children` may be absent. */
  datatype Listing = Listing(children: Option<seq<Ranking.Post>>)

  /** A reply the HTTP client resolved with; `listing` is `None` when
      `response.data.data` is null or undefined. */
  datatype Reply = Reply(rateLimit: RateLimit, listing: Option<Listing>)

  /** Whether the call slept before returning. `Wait(Some(ms))` is a
      `setTimeout` asked for `ms` milliseconds. Node fires a timer at once
      (after one millisecond) when the delay asked for is zero or negative,
      or larger than 2147483647; `Wait(None)` is a timeout whose delay is
      NaN, which happens when the reset header is absent and also fires at
      once. The model records the delay asked for, not the one Node uses. */
  datatype Throttle = NoWait | Wait(delayMs: Option<int>)

  /** A call's behaviour: how long it slept, then what it settled with. */
  datatype Fetched<+T> = Fetched(throttle: Throttle, outcome: Result<T>)

  /** The body of the token reply: `response.data.access_token`, which is
      `None` when the reply carries no token. */
  datatype TokenGrant = TokenGrant(accessToken: Option<string>)

  /** `getRedditOAuthToken`: the token of a resolved reply, or the
      client's rejection passed through unchanged. */
  function AccessToken(reply: Result<TokenGrant>): (r: Result<Option<string>>)
    ensures r.Ok? <==> reply.Ok?
    ensures reply.Ok? ==> r.value == reply.value.accessToken
    ensures reply.Err? ==> r.error == reply.error
  {
    match reply
    case Ok(grant) => Ok(grant.accessToken)
    case Err(e) => Err(e)
  }

  /** Whether a reply's headers make the call sleep: only when the
      remaining-requests header is present and at most zero. An absent
      header compares as `undefined <= 0`, which is false. */
  predicate Exhausted(limit: RateLimit) {
    limit.remaining.Some? && limit.remaining.value <= 0
  }

  /** The sleep before returning: from now until the reset second, where
      "now" is `Date.now()` truncated to whole seconds. */
  function ThrottleFor(limit: RateLimit, nowMs: nat): (t: Throttle)
    ensures t.Wait? <==> Exhausted(limit)
    ensures t.Wait? ==> (t.delayMs.Some? <==> limit.reset.Some?)
  {
    if !Exhausted(limit) then NoWait
    else
      match limit.reset
      case None => Wait(None)
      case Some(reset) => Wait(Some((reset - nowMs / MsPerSecond) * MsPerSecond))
  }

  /** `getTopPosts`: a rejected request rethrows the client's error
      without sleeping; otherwise the call sleeps as the headers demand and
      then returns the listing's `children` as they are (possibly absent),
      or fails when the listing itself is missing. */
  function TopPosts(reply: Result<Reply>, nowMs: nat): (r: Fetched<Option<seq<Ranking.Post>>>)
    ensures reply.Err? ==> r == Fetched(NoWait, Err(reply.error))
    ensures reply.Ok? ==> r.throttle == ThrottleFor(reply.value.rateLimit, nowMs)
    ensures reply.Ok? && reply.value.listing.None? ==> r.outcome == Err(ListingMissing)
    ensures reply.Ok? && reply.value.listing.Some? ==> r.outcome == Ok(reply.value.listing.value.children)
  {
    match reply
    case Err(e) => Fetched(NoWait, Err(e))
    case Ok(response) =>
      var throttle := ThrottleFor(response.rateLimit, nowMs);
      match response.listing
      case None => Fetched(throttle, Err(ListingMissing))
      case Some(listing) => Fetched(throttle, Ok(listing.children))
  }

  /** `getTopUsers`: fetch the listing through `getTopPosts` and rank its
      authors. Every failure of the fetch is rethrown; a listing without
      `children` fails because there is nothing to iterate. */
  function TopUsers(reply: Result<Reply>, nowMs: nat): (r: Fetched<seq<Ranking.UserCount>>)
    ensures reply.Err? ==> r == Fetched(NoWait, Err(reply.error))
    ensures reply.Ok? ==> r.throttle == ThrottleFor(reply.value.rateLimit, nowMs)
    ensures r.outcome.Ok? <==> reply.Ok? && reply.value.listing.Some? && reply.value.listing.value.children.Some?
    ensures r.outcome.Ok? ==>
      && |r.outcome.value| <= Ranking.TopLimit
      && forall i :: 0 <= i < |r.outcome.value| ==> Ranking.Exact(reply.value.listing.value.children.value, r.outcome.value[i])
  {
    var posts := TopPosts(reply, nowMs);
    match posts.outcome
    case Err(e) => Fetched(posts.throttle, Err(e))
    case Ok(None) => Fetched(posts.throttle, Err(ChildrenMissing))
    case Ok(Some(children)) => Fetched(posts.throttle, Ok(Ranking.TopUsers(children)))
  }

  // ---------------------------------------------------------------------
  // Properties
  // ---------------------------------------------------------------------

  /** The requested sleep ends exactly at the reset second: the current
      time rounded down to a whole second, plus the delay asked for, is the
      reset time in milliseconds (Node shortens a delay outside 1 to
      2147483647 to one millisecond; see `Throttle`). The delay is a whole number of seconds, and it is
      positive exactly when the reset second is still in the future. */
  lemma WaitEndsAtReset(limit: RateLimit, nowMs: nat)
    requires Exhausted(limit) && limit.reset.Some?
    ensures var t := ThrottleFor(limit, nowMs);
      && t.Wait? && t.delayMs.Some?
      && nowMs - nowMs % MsPerSecond + t.delayMs.value == limit.reset.value * MsPerSecond
      && t.delayMs.value % MsPerSecond == 0
      && (t.delayMs.value > 0 <==> limit.reset.value > nowMs / MsPerSecond)
  {
    var seconds := limit.reset.value - nowMs / MsPerSecond;
    assert nowMs - nowMs % MsPerSecond == (nowMs / MsPerSecond) * MsPerSecond;
    assert (seconds * MsPerSecond) % MsPerSecond == 0;
  }

  /** Headers and the clock decide only the sleep, never the posts: two
      replies with the same listing settle the same way, whatever their
      rate-limit headers and whenever they arrive. */
  lemma PostsIgnoreRateLimit(a: Reply, b: Reply, nowA: nat, nowB: nat)
    requires a.listing == b.listing
    ensures TopPosts(Ok(a), nowA).outcome == TopPosts(Ok(b), nowB).outcome
    ensures TopUsers(Ok(a), nowA).outcome == TopUsers(Ok(b), nowB).outcome
  {
  }

  /** The listing decides only the outcome, never the sleep: a reply with
      exhausted headers sleeps even when its listing is missing. */
  lemma SleepIgnoresListing(a: Reply, b: Reply, nowMs: nat)
    requires a.rateLimit == b.rateLimit
    ensures TopPosts(Ok(a), nowMs).throttle == TopPosts(Ok(b), nowMs).throttle
    ensures TopUsers(Ok(a), nowMs).throttle == TopUsers(Ok(b), nowMs).throttle
  {
  }

  /** The ranking call fails exactly when the posts call fails or returns
      no `children`; it succeeds with the ranking of exactly the children
      the posts call returns, after the same sleep. */
  lemma UsersFollowPosts(reply: Result<Reply>, nowMs: nat)
    ensures var p := TopPosts(reply, nowMs);
      var u := TopUsers(reply, nowMs);
      && u.throttle == p.throttle
      && (u.outcome.Ok? <==> p.outcome.Ok? && p.outcome.value.Some?)
      && (u.outcome.Ok? ==> u.outcome.value == Ranking.TopUsers(p.outcome.value.value))
      && (p.outcome.Err? ==> u.outcome == Err(p.outcome.error))
      && (p.outcome == Ok(None) ==> u.outcome == Err(ChildrenMissing))
  {
  }

  /** Every error the client rejects with reaches the caller of either
      call unchanged, and neither call sleeps first. */
  lemma RejectionPropagates(e: Error, nowMs: nat)
    ensures TopPosts(Err(e), nowMs) == Fetched(NoWait, Err(e))
    ensures TopUsers(Err(e), nowMs) == Fetched(NoWait, Err(e))
  {
  }

  /** A successful ranking is bounded and exact: at most ten entries,
      each the exact post count of an author of the listing. */
  lemma UsersFromListing(reply: Result<Reply>, nowMs: nat)
    ensures TopUsers(reply, nowMs).outcome.Ok? ==>
      && reply.Ok? && reply.value.listing.Some? && reply.value.listing.value.children.Some?
      && var posts := reply.value.listing.value.children.value;
         var r := TopUsers(reply, nowMs).outcome.value;
         && |r| <= Ranking.TopLimit
         && forall i :: 0 <= i < |r| ==> Ranking.Exact(posts, r[i])
  {
  }
}
