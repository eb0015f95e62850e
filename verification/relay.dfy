/** The WebSocket server: every client connection gets its own handler,
    timer and cycles, and nothing is shared between connections except
    the code. Connections are told apart by an identifier that stands for
    the socket object. */
module Relay {
  import Session
  import opened Seqs

  type ConnectionId = nat

  datatype Server = Server(sessions: map<ConnectionId, Session.Session>)

  /** What the server sees: a new connection, or an event on one. */
  datatype ServerEvent =
    | Connected(id: ConnectionId, atMs: nat, first: Session.Cycle)
    | OnConnection(id: ConnectionId, event: Session.Event)

  /** The connection an event concerns. */
  function Target(e: ServerEvent): ConnectionId {
    match e
    case Connected(id, _, _) => id
    case OnConnection(id, _) => id
  }

  /** One event. A `connection` event starts a session for a socket not
      seen before (a socket connects once, so a repeated identifier
      changes nothing); an event on a known socket steps its session
      alone; an event on an unknown socket has no handler to run. */
  function Handle(srv: Server, e: ServerEvent): (r: Server)
    ensures r.sessions.Keys == srv.sessions.Keys + {Target(e)} || r.sessions.Keys == srv.sessions.Keys
    ensures (e.Connected? && e.id in srv.sessions) || (e.OnConnection? && e.id !in srv.sessions) ==> r == srv
    ensures e.Connected? && e.id !in srv.sessions ==> r.sessions == srv.sessions[e.id := Session.Connect(e.atMs, e.first)]
    ensures e.OnConnection? && e.id in srv.sessions ==>
      r.sessions == srv.sessions[e.id := Session.Step(srv.sessions[e.id], e.event)]
  {
    match e
    case Connected(id, atMs, first) =>
      if id in srv.sessions then srv
      else Server(srv.sessions[id := Session.Connect(atMs, first)])
    case OnConnection(id, event) =>
      if id in srv.sessions then Server(srv.sessions[id := Session.Step(srv.sessions[id], event)])
      else srv
  }

  /** The server over a sequence of events. Connections are never
      removed: a closed connection keeps its session, without a timer. */
  function RunServer(srv: Server, events: seq<ServerEvent>): (r: Server)
    ensures srv.sessions.Keys <= r.sessions.Keys
    ensures forall id :: id in r.sessions && id !in srv.sessions ==> exists k :: 0 <= k < |events| && events[k].Connected? && events[k].id == id
    decreases |events|
  {
    if |events| == 0 then srv else RunServer(Handle(srv, events[0]), events[1..])
  }

  /** The events of one known connection, in order. */
  function EventsOf(events: seq<ServerEvent>, id: ConnectionId): (r: seq<Session.Event>)
    ensures |r| <= |events|
    ensures forall k :: 0 <= k < |r| ==> OnConnection(id, r[k]) in events
    decreases |events|
  {
    if |events| == 0 then []
    else
      match events[0]
      case OnConnection(target, event) =>
        (if target == id then [event] else []) + EventsOf(events[1..], id)
      case Connected(_, _, _) => EventsOf(events[1..], id)
  }

  /** The events of a connection over two stretches of server events are
      those of the first stretch followed by those of the second: the
      selection keeps the server's order. */
  lemma {:induction false} EventsOfAppend(a: seq<ServerEvent>, b: seq<ServerEvent>, id: ConnectionId)
    ensures EventsOf(a + b, id) == EventsOf(a, id) + EventsOf(b, id)
    decreases |a|
  {
    if |a| == 0 {
      assert a + b == b;
    } else {
      assert (a + b)[1..] == a[1..] + b;
      EventsOfAppend(a[1..], b, id);
      var head := if a[0].OnConnection? && a[0].id == id then [a[0].event] else [];
      assert EventsOf(a + b, id) == head + EventsOf(a[1..] + b, id);
      assert EventsOf(a, id) == head + EventsOf(a[1..], id);
      AppendAssociates(head, EventsOf(a[1..], id), EventsOf(b, id));
    }
  }

  /** An event on one connection leaves every other connection as it
      was, and starts or stops no other connection. */
  lemma OthersUntouched(srv: Server, e: ServerEvent, other: ConnectionId)
    requires other != Target(e)
    ensures other in Handle(srv, e).sessions <==> other in srv.sessions
    ensures other in srv.sessions ==> Handle(srv, e).sessions[other] == srv.sessions[other]
  {
  }

  /** Connections are independent: a connection that exists behaves, over
      any interleaving of server events, exactly as it would alone on its
      own events. */
  lemma {:induction false} ConnectionInIsolation(srv: Server, events: seq<ServerEvent>, id: ConnectionId)
    requires id in srv.sessions
    ensures id in RunServer(srv, events).sessions
    ensures RunServer(srv, events).sessions[id] == Session.Run(srv.sessions[id], EventsOf(events, id))
    decreases |events|
  {
    if |events| > 0 {
      var e := events[0];
      var next := Handle(srv, e);
      ConnectionInIsolation(next, events[1..], id);
      match e
      case Connected(_, _, _) =>
        assert next.sessions[id] == srv.sessions[id];
      case OnConnection(target, event) =>
        if target == id {
          assert EventsOf(events, id) == [event] + EventsOf(events[1..], id);
          assert ([event] + EventsOf(events[1..], id))[1..] == EventsOf(events[1..], id);
        } else {
          assert next.sessions[id] == srv.sessions[id];
          assert EventsOf(events, id) == [] + EventsOf(events[1..], id) == EventsOf(events[1..], id);
        }
    }
  }

  /** A connection opened by a `connection` event runs, from then on,
      exactly as a session started by the handler and driven by its own
      events alone. */
  lemma NewConnectionInIsolation(srv: Server, id: ConnectionId, atMs: nat, first: Session.Cycle, events: seq<ServerEvent>)
    requires id !in srv.sessions
    ensures var r := RunServer(srv, [Connected(id, atMs, first)] + events);
      id in r.sessions && r.sessions[id] == Session.Run(Session.Connect(atMs, first), EventsOf(events, id))
  {
    var all := [Connected(id, atMs, first)] + events;
    var next := Handle(srv, Connected(id, atMs, first));
    assert all[0] == Connected(id, atMs, first) && all[1..] == events;
    assert RunServer(srv, all) == RunServer(next, events);
    ConnectionInIsolation(next, events, id);
  }
}
