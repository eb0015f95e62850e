/** One client connection of the WebSocket relay. On connection the
    handler runs one fetch-and-send cycle at once and arms a 10-second
    interval timer; every firing of the timer runs another cycle; closing
    the connection clears the timer. A cycle fetches a token, the top
    posts and the top users, and sends one message with both lists; a
    cycle that fails anywhere sends nothing, and the timer keeps running.

    Cycles are atomic here: the model does not interleave a slow cycle
    with the next firing of the timer. */
module Session {
  import opened Outcomes
  import opened Seqs
  import Ranking
  import Upstream

  /** The period of the interval timer, in milliseconds. */
  const IntervalMs: nat := 10000

  /** The payload of one `ws.send`: `{ topPosts, topUsers }`. */
  datatype Message = Message(topPosts: seq<Ranking.Post>, topUsers: seq<Ranking.UserCount>)

  /** What the outside world answers during one cycle: the token reply,
      then the reply to the posts request and the clock reading after it,
      then the reply to the second listing request that the ranking makes
      and the clock reading after that. */
  datatype Cycle = Cycle(
    tokenReply: Result<Upstream.TokenGrant>,
    postsReply: Result<Upstream.Reply>,
    postsAtMs: nat,
    usersReply: Result<Upstream.Reply>,
    usersAtMs: nat)

  /** A request a cycle sends to Reddit: the token request, or a listing
      request authorised with the token the cycle obtained. */
  datatype Request = TokenRequest | ListingRequest(bearer: Option<string>)

  /** What one cycle did: the requests it made, in order, and the message
      it sent, if it got that far. */
  datatype Report = Report(requests: seq<Request>, message: Option<Message>)

  /** `topPosts || []`: absent children become the empty list. */
  function PostsOrEmpty(children: Option<seq<Ranking.Post>>): seq<Ranking.Post> {
    match children
    case None => []
    case Some(posts) => posts
  }

  /** `fetchDataAndSend`: token, then posts, then users; the first failure
      ends the cycle with nothing sent, and the error is swallowed. The
      `|| []` on `topUsers` never applies, because a successful ranking is
      always an array. */
  function RunCycle(c: Cycle): (r: Report)
    ensures 1 <= |r.requests| <= 3 && r.requests[0] == TokenRequest
    ensures r.message.Some? ==> |r.requests| == 3
  {
    match Upstream.AccessToken(c.tokenReply)
    case Err(_) => Report([TokenRequest], None)
    case Ok(token) =>
      var posts := Upstream.TopPosts(c.postsReply, c.postsAtMs);
      match posts.outcome
      case Err(_) => Report([TokenRequest, ListingRequest(token)], None)
      case Ok(children) =>
        var users := Upstream.TopUsers(c.usersReply, c.usersAtMs);
        var requests := [TokenRequest, ListingRequest(token), ListingRequest(token)];
        match users.outcome
        case Err(_) => Report(requests, None)
        case Ok(ranking) => Report(requests, Some(Message(PostsOrEmpty(children), ranking)))
  }

  /** The messages a cycle hands to `ws.send`: none or one. */
  function Sent(r: Report): (ms: seq<Message>)
    ensures |ms| <= 1
    ensures |ms| == 1 <==> r.message.Some?
  {
    match r.message
    case None => []
    case Some(m) => [m]
  }

  /** The interval timer: its period and when it fires next. */
  datatype Timer = Timer(periodMs: nat, nextMs: nat)

  /** A connection's state: the timer while it is armed, the times at
      which cycles started, every request made and every message sent. */
  datatype Session = Session(
    timer: Option<Timer>,
    cycleStartsMs: seq<nat>,
    requests: seq<Request>,
    sent: seq<Message>)

  /** The connection still has its interval timer, that is, it has not
      been closed. */
  predicate IsOpen(s: Session) {
    s.timer.Some?
  }

  /** What can happen to an open connection. */
  datatype Event =
      /** The interval timer fires and a cycle runs against these replies. */
    | Tick(cycle: Cycle)
      /** The client disconnects. */
    | Close

  /** The `connection` handler: one cycle at once, then the timer. The
      first cycle makes its requests and sends its message (if any) before
      the timer first fires. */
  function Connect(atMs: nat, first: Cycle): (s: Session)
    ensures IsOpen(s) && s.timer.value == Timer(IntervalMs, atMs + IntervalMs)
    ensures s.cycleStartsMs == [atMs]
    ensures s.requests == RunCycle(first).requests
    ensures s.sent == Sent(RunCycle(first))
  {
    var report := RunCycle(first);
    Session(Some(Timer(IntervalMs, atMs + IntervalMs)), [atMs], report.requests, Sent(report))
  }

  /** One event. A firing runs a cycle at the time the timer was due and
      re-arms it one period later; a closed connection has no timer, so
      nothing fires; closing clears the timer and nothing else. */
  function Step(s: Session, e: Event): (s': Session)
    ensures !IsOpen(s) ==> s' == s
    ensures e.Close? ==>
      && !IsOpen(s')
      && s'.cycleStartsMs == s.cycleStartsMs
      && s'.requests == s.requests
      && s'.sent == s.sent
    ensures IsOpen(s) && e.Tick? ==>
      && IsOpen(s')
      && s'.timer.value.nextMs == s.timer.value.nextMs + s.timer.value.periodMs
      && s'.cycleStartsMs == s.cycleStartsMs + [s.timer.value.nextMs]
      && s'.requests == s.requests + RunCycle(e.cycle).requests
      && s'.sent == s.sent + Sent(RunCycle(e.cycle))
  {
    match e
    case Close => s.(timer := None)
    case Tick(c) =>
      match s.timer
      case None => s
      case Some(t) =>
        var report := RunCycle(c);
        Session(Some(t.(nextMs := t.nextMs + t.periodMs)),
                s.cycleStartsMs + [t.nextMs],
                s.requests + report.requests,
                s.sent + Sent(report))
  }

  /** A sequence of events, in order. The history only grows: what was
      sent, requested or started before stays, as the prefix. */
  function Run(s: Session, events: seq<Event>): (r: Session)
    ensures Extends(s, r)
    decreases |events|
  {
    if |events| == 0 then s
    else
      var next := Step(s, events[0]);
      var r := Run(next, events[1..]);
      StepExtends(s, events[0]);
      ExtendsTransitive(s, next, r);
      r
  }

  /** `r` is `s` with more history: what was started, requested and sent
      in `s` is still there, in front. */
  ghost predicate Extends(s: Session, r: Session) {
    && IsPrefix(s.cycleStartsMs, r.cycleStartsMs)
    && IsPrefix(s.requests, r.requests)
    && IsPrefix(s.sent, r.sent)
  }

  lemma StepExtends(s: Session, e: Event)
    ensures Extends(s, Step(s, e))
  {
    if IsOpen(s) && e.Tick? {
      PrefixOfAppend(s.cycleStartsMs, [s.timer.value.nextMs]);
      PrefixOfAppend(s.requests, RunCycle(e.cycle).requests);
      PrefixOfAppend(s.sent, Sent(RunCycle(e.cycle)));
    }
  }

  lemma ExtendsTransitive(a: Session, b: Session, c: Session)
    requires Extends(a, b) && Extends(b, c)
    ensures Extends(a, c)
  {
    PrefixTransitive(a.cycleStartsMs, b.cycleStartsMs, c.cycleStartsMs);
    PrefixTransitive(a.requests, b.requests, c.requests);
    PrefixTransitive(a.sent, b.sent, c.sent);
  }

  // ---------------------------------------------------------------------
  // One cycle
  // ---------------------------------------------------------------------

  /** A message is sent exactly when all three steps succeed. It then
      carries the children of the posts reply as they are (or the empty
      list when they are absent) and the ranking of the second listing;
      both listing requests carry the token the cycle obtained. */
  lemma CycleSendsBothLists(c: Cycle)
    ensures var r := RunCycle(c);
      var token := Upstream.AccessToken(c.tokenReply);
      var posts := Upstream.TopPosts(c.postsReply, c.postsAtMs).outcome;
      var users := Upstream.TopUsers(c.usersReply, c.usersAtMs).outcome;
      && (r.message.Some? <==> token.Ok? && posts.Ok? && users.Ok?)
      && (r.message.Some? ==> r.message.value == Message(PostsOrEmpty(posts.value), users.value))
      && (token.Ok? ==> forall i :: 1 <= i < |r.requests| ==> r.requests[i] == ListingRequest(token.value))
  {
  }

  /** A failed token step makes no listing request and sends nothing. */
  lemma NoTokenNoListing(c: Cycle)
    requires c.tokenReply.Err?
    ensures RunCycle(c) == Report([TokenRequest], None)
  {
  }

  /** A message is what the client can rely on: at most ten contributors,
      in descending order of post count, none listed twice. */
  ghost predicate WellFormed(m: Message) {
    && |m.topUsers| <= Ranking.TopLimit
    && Ranking.SortedByCount(m.topUsers)
    && Ranking.UsersDistinct(m.topUsers)
  }

  lemma CycleMessageWellFormed(c: Cycle)
    ensures RunCycle(c).message.Some? ==> WellFormed(RunCycle(c).message.value)
  {
    var users := Upstream.TopUsers(c.usersReply, c.usersAtMs);
    Upstream.UsersFollowPosts(c.usersReply, c.usersAtMs);
    CycleSendsBothLists(c);
  }

  // ---------------------------------------------------------------------
  // The connection over time
  // ---------------------------------------------------------------------

  /** The messages a connection sends for `events`: one per successful
      cycle, up to the first close. */
  function Deliveries(events: seq<Event>): seq<Message>
    decreases |events|
  {
    if |events| == 0 then []
    else
      match events[0]
      case Close => []
      case Tick(c) => Sent(RunCycle(c)) + Deliveries(events[1..])
  }

  /** The number of timer firings before the first close. */
  function FiringsBeforeClose(events: seq<Event>): nat
    decreases |events|
  {
    if |events| == 0 then 0
    else
      match events[0]
      case Close => 0
      case Tick(_) => 1 + FiringsBeforeClose(events[1..])
  }

  /** What one event does to an open connection's history. */
  lemma StepRecords(s: Session, e: Event)
    requires IsOpen(s)
    ensures e.Close? ==> !IsOpen(Step(s, e)) && Step(s, e).sent == s.sent
    ensures e.Tick? ==> && IsOpen(Step(s, e))
                        && Step(s, e).sent == s.sent + Sent(RunCycle(e.cycle))
                        && |Step(s, e).cycleStartsMs| == |s.cycleStartsMs| + 1
  {
  }

  /** An open connection sends exactly the deliveries of its events, after
      what it had already sent. */
  lemma {:induction false} RunDelivers(s: Session, events: seq<Event>)
    requires IsOpen(s)
    ensures Run(s, events).sent == s.sent + Deliveries(events)
    decreases |events|
  {
    if |events| == 0 {
      assert s.sent + [] == s.sent;
    } else if events[0].Close? {
      ClosedIsFinal(Step(s, events[0]), events[1..]);
      assert s.sent + [] == s.sent;
    } else {
      StepRecords(s, events[0]);
      RunDelivers(Step(s, events[0]), events[1..]);
      FiringDelivers(s, events);
    }
  }

  /** A connection sends the first cycle's message, if any, and then the
      deliveries of its events. */
  lemma ConnectDelivers(atMs: nat, first: Cycle, events: seq<Event>)
    ensures Run(Connect(atMs, first), events).sent == Sent(RunCycle(first)) + Deliveries(events)
  {
    RunDelivers(Connect(atMs, first), events);
  }

  /** The inductive step of `RunDelivers` for a firing. */
  lemma FiringDelivers(s: Session, events: seq<Event>)
    requires IsOpen(s) && |events| > 0 && events[0].Tick?
    requires Run(Step(s, events[0]), events[1..]).sent == Step(s, events[0]).sent + Deliveries(events[1..])
    ensures Run(s, events).sent == s.sent + Deliveries(events)
  {
    var sent := Sent(RunCycle(events[0].cycle));
    StepRecords(s, events[0]);
    assert Deliveries(events) == sent + Deliveries(events[1..]);
    AppendAssociates(s.sent, sent, Deliveries(events[1..]));
  }

  /** An open connection runs one cycle per firing before the first
      close, and none after it. */
  lemma {:induction false} RunCountsFirings(s: Session, events: seq<Event>)
    requires IsOpen(s)
    ensures |Run(s, events).cycleStartsMs| == |s.cycleStartsMs| + FiringsBeforeClose(events)
    decreases |events|
  {
    if |events| > 0 {
      var s' := Step(s, events[0]);
      StepRecords(s, events[0]);
      if events[0].Close? {
        ClosedIsFinal(s', events[1..]);
      } else {
        RunCountsFirings(s', events[1..]);
      }
    }
  }

  /** Once closed, a connection never changes: no cycle runs, nothing is
      sent, no request is made. */
  lemma {:induction false} ClosedIsFinal(s: Session, events: seq<Event>)
    requires !IsOpen(s)
    ensures Run(s, events) == s
    decreases |events|
  {
    if |events| > 0 {
      ClosedIsFinal(Step(s, events[0]), events[1..]);
    }
  }

  /** A failed cycle is swallowed: the firing is recorded, the timer stays
      armed one period later, and nothing is sent. */
  lemma FailedCycleKeepsTimer(s: Session, c: Cycle)
    requires IsOpen(s) && RunCycle(c).message.None?
    ensures var s' := Step(s, Tick(c));
      && IsOpen(s')
      && s'.timer.value.nextMs == s.timer.value.nextMs + s.timer.value.periodMs
      && s'.sent == s.sent
      && |s'.cycleStartsMs| == |s.cycleStartsMs| + 1
  {
  }

  /** Closing twice is closing once, and closing keeps the history. */
  lemma CloseIsIdempotent(s: Session)
    ensures Step(Step(s, Close), Close) == Step(s, Close)
    ensures !IsOpen(Step(s, Close))
    ensures var c := Step(s, Close);
      c.cycleStartsMs == s.cycleStartsMs && c.requests == s.requests && c.sent == s.sent
  {
  }

  /** The schedule of a connection opened at `startMs`: the k-th cycle
      started at `startMs + k * 10000`, and an armed timer fires next at
      the slot after the last cycle. */
  ghost predicate OnSchedule(s: Session, startMs: nat) {
    && (forall k :: 0 <= k < |s.cycleStartsMs| ==> s.cycleStartsMs[k] == startMs + k * IntervalMs)
    && (IsOpen(s) ==> s.timer.value == Timer(IntervalMs, startMs + |s.cycleStartsMs| * IntervalMs))
  }

  lemma ConnectOnSchedule(atMs: nat, first: Cycle)
    ensures OnSchedule(Connect(atMs, first), atMs)
  {
  }

  lemma StepOnSchedule(s: Session, e: Event, startMs: nat)
    requires OnSchedule(s, startMs)
    ensures OnSchedule(Step(s, e), startMs)
  {
    if e.Tick? && IsOpen(s) {
      var s' := Step(s, e);
      var n := |s.cycleStartsMs|;
      assert s'.cycleStartsMs[n] == startMs + n * IntervalMs;
      assert s'.timer.value.nextMs == startMs + (n + 1) * IntervalMs;
    }
  }

  /** Every connection keeps to its schedule, whatever its cycles do. */
  lemma {:induction false} RunOnSchedule(s: Session, events: seq<Event>, startMs: nat)
    requires OnSchedule(s, startMs)
    ensures OnSchedule(Run(s, events), startMs)
    decreases |events|
  {
    if |events| > 0 {
      StepOnSchedule(s, events[0], startMs);
      RunOnSchedule(Step(s, events[0]), events[1..], startMs);
    }
  }

  /** Every message a connection ever sends is well formed. */
  ghost predicate AllWellFormed(ms: seq<Message>) {
    forall i :: 0 <= i < |ms| ==> WellFormed(ms[i])
  }

  lemma SentWellFormed(r: Report, c: Cycle)
    requires r == RunCycle(c)
    ensures AllWellFormed(Sent(r))
  {
    if r.message.Some? {
      CycleMessageWellFormed(c);
    }
  }

  lemma {:induction false} RunSendsWellFormed(s: Session, events: seq<Event>)
    requires AllWellFormed(s.sent)
    ensures AllWellFormed(Run(s, events).sent)
    decreases |events|
  {
    if |events| > 0 {
      var s' := Step(s, events[0]);
      if events[0].Tick? && IsOpen(s) {
        SentWellFormed(RunCycle(events[0].cycle), events[0].cycle);
        assert s'.sent == s.sent + Sent(RunCycle(events[0].cycle));
      }
      assert AllWellFormed(s'.sent);
      RunSendsWellFormed(s', events[1..]);
    }
  }
}
