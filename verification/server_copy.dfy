/** The copies of the three Reddit calls that `server.js` keeps for its
    HTTP routes, written out here as that file has them and shown to sleep
    and settle exactly as the shared versions do on the same replies.

    The copies differ from the shared versions in three ways that do not
    reach these results. The token copy has no `try`: the shared version's
    `catch` logs and rethrows, so the caller sees the same rejection
    either way, only without the log line. The token copy uses a fixed
    token URL and reads the client credentials when it is called, where
    the shared version takes all three from the environment once, when the
    module loads; the request itself is not modelled, so both are outside
    this model. The log messages are worded differently. */
module ServerCopy {
  import opened Outcomes
  import Ranking
  import Upstream

  /** `getRedditOAuthToken` of `server.js`: the request's rejection is not
      caught, so it reaches the caller as it is. */
  function AccessToken(reply: Result<Upstream.TokenGrant>): (r: Result<Option<string>>)
    ensures r.Ok? <==> reply.Ok?
    ensures reply.Err? ==> r.error == reply.error
  {
    if reply.Err? then Err(reply.error) else Ok(reply.value.accessToken)
  }

  /** `getTopPosts` of `server.js`. */
  function TopPosts(reply: Result<Upstream.Reply>, nowMs: nat): (r: Upstream.Fetched<Option<seq<Ranking.Post>>>)
    ensures reply.Err? ==> r == Upstream.Fetched(Upstream.NoWait, Err(reply.error))
    ensures reply.Ok? ==> (r.throttle.Wait? <==> Upstream.Exhausted(reply.value.rateLimit))
    ensures r.outcome.Ok? <==> reply.Ok? && reply.value.listing.Some?
    ensures r.outcome.Ok? ==> r.outcome.value == reply.value.listing.value.children
  {
    if reply.Err? then Upstream.Fetched(Upstream.NoWait, Err(reply.error))
    else
      var limit := reply.value.rateLimit;
      var throttle :=
        if limit.remaining.Some? && limit.remaining.value <= 0 then
          Upstream.Wait(if limit.reset.Some? then Some((limit.reset.value - nowMs / 1000) * 1000) else None)
        else Upstream.NoWait;
      Upstream.Fetched(throttle,
        if reply.value.listing.Some? then Ok(reply.value.listing.value.children) else Err(ListingMissing))
  }

  /** `getTopUsers` of `server.js`, built on the copy of `getTopPosts`. */
  function TopUsers(reply: Result<Upstream.Reply>, nowMs: nat): (r: Upstream.Fetched<seq<Ranking.UserCount>>)
    ensures reply.Err? ==> r == Upstream.Fetched(Upstream.NoWait, Err(reply.error))
    ensures r.throttle == TopPosts(reply, nowMs).throttle
    ensures r.outcome.Ok? <==> reply.Ok? && reply.value.listing.Some? && reply.value.listing.value.children.Some?
    ensures r.outcome.Ok? ==> |r.outcome.value| <= Ranking.TopLimit
  {
    var posts := TopPosts(reply, nowMs);
    if posts.outcome.Err? then Upstream.Fetched(posts.throttle, Err(posts.outcome.error))
    else if posts.outcome.value.None? then Upstream.Fetched(posts.throttle, Err(ChildrenMissing))
    else Upstream.Fetched(posts.throttle, Ok(Ranking.TopUsers(posts.outcome.value.value)))
  }

  /** The token copy resolves and rejects exactly as the shared version. */
  lemma TokenCopyAgrees(reply: Result<Upstream.TokenGrant>)
    ensures AccessToken(reply) == Upstream.AccessToken(reply)
  {
  }

  /** The posts copy sleeps and settles exactly as the shared version. */
  lemma PostsCopyAgrees(reply: Result<Upstream.Reply>, nowMs: nat)
    ensures TopPosts(reply, nowMs) == Upstream.TopPosts(reply, nowMs)
  {
  }

  /** The ranking copy sleeps and settles exactly as the shared version. */
  lemma UsersCopyAgrees(reply: Result<Upstream.Reply>, nowMs: nat)
    ensures TopUsers(reply, nowMs) == Upstream.TopUsers(reply, nowMs)
  {
    PostsCopyAgrees(reply, nowMs);
  }
}
