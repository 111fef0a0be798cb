/** From an envelope a handler sent to the queues of the connections it reaches. */
module OutgoingRouting {
  import opened Results
  import opened RequestIds

  const CHANNEL_CAPACITY: nat := 128
  const OVERLOADED_ERROR_CODE: int := -32001

  datatype OutgoingMessage =
    | ServerRequest(id: RequestId, method_: string)
    | Notification(method_: string)
    | Response(id: RequestId, result: string)
    | Error(id: RequestId, code: int)

  predicate IsReply(m: OutgoingMessage) {
    m.Response? || m.Error?
  }

  function WithId(m: OutgoingMessage, id: RequestId): OutgoingMessage
    requires IsReply(m)
  {
    match m
    case Response(_, result) => Response(id, result)
    case Error(_, code) => Error(id, code)
  }

  datatype Envelope =
    | ToConnection(connection: ConnectionId, message: OutgoingMessage)
    | Broadcast(message: OutgoingMessage)

  /** Where the reply to a rewritten request belongs. `serial` numbers the client requests in the order
      of their arrival; it is part of the model's record of the run, the program has no such field. */
  datatype Route = Route(connection: ConnectionId, originalId: RequestId, serial: nat)

  type Routes = map<RequestId, Route>

  // Giving a reply its client's id back

  /** The envelope a broadcast reply turns into, if any. */
  function Rewritten(envelope: Envelope, routes: Routes): Option<Envelope> {
    if envelope.Broadcast? && IsReply(envelope.message) then
      var id := envelope.message.id;
      if id in routes then
        Some(ToConnection(routes[id].connection, WithId(envelope.message, routes[id].originalId)))
      else if IsInternal(id) then None
      else Some(envelope)
    else Some(envelope)
  }

  /** The routes left after that: a reply uses up the route of its id. */
  function RoutesAfter(envelope: Envelope, routes: Routes): Routes {
    if envelope.Broadcast? && IsReply(envelope.message) then routes - {envelope.message.id} else routes
  }

  function WithoutConnection(routes: Routes, connection: ConnectionId): Routes {
    map id | id in routes && routes[id].connection != connection :: routes[id]
  }

  /** The table the processor and the outbound router share. */
  class RequestRoutes {
    var routes: Routes

    constructor ()
      ensures routes == map[]
    {
      routes := map[];
    }

    method Insert(id: RequestId, route: Route)
      modifies this
      ensures routes == old(routes)[id := route]
    {
      routes := routes[id := route];
    }

    /** `remove_request_routes_for_connection` */
    method RemoveForConnection(connection: ConnectionId)
      modifies this
      ensures routes == WithoutConnection(old(routes), connection)
    {
      var kept: Routes := map[];
      var left := routes.Keys;
      while left != {}
        invariant left <= routes.Keys
        invariant routes == old(routes)
        invariant kept == map id | id in routes && id !in left && routes[id].connection != connection :: routes[id]
        decreases |left|
      {
        var id :| id in left;
        left := left - {id};
        if routes[id].connection != connection {
          kept := kept[id := routes[id]];
        }
      }
      routes := kept;
    }

    /** `rewrite_response_routing` */
    method RewriteResponseRouting(envelope: Envelope) returns (r: Option<Envelope>)
      modifies this
      ensures r == Rewritten(envelope, old(routes))
      ensures routes == RoutesAfter(envelope, old(routes))
    {
      if envelope.ToConnection? || !IsReply(envelope.message) {
        return Some(envelope);
      }
      var id := envelope.message.id;
      if id in routes {
        var route := routes[id];
        routes := routes - {id};
        return Some(ToConnection(route.connection, WithId(envelope.message, route.originalId)));
      }
      assert routes - {id} == routes;
      if IsInternal(id) {
        return None;
      }
      return Some(envelope);
    }
  }

  // Putting messages into the connections' queues

  /** A connection as the outbound router knows it. A queue that is full and has no way to disconnect
      its client makes the router wait. */
  datatype Connection = Connection(
    queue: seq<OutgoingMessage>,
    closed: bool,
    canDisconnect: bool,
    initialized: bool,
    optedOut: set<string>)

  type Connections = map<ConnectionId, Connection>

  /** `should_skip_notification_for_connection` */
  predicate Skips(c: Connection, m: OutgoingMessage) {
    m.Notification? && m.method_ in c.optedOut
  }

  predicate IsFull(c: Connection) {
    |c.queue| >= CHANNEL_CAPACITY
  }

  /** Sending would wait for room in the queue. */
  predicate WouldWait(c: Connection) {
    !c.closed && IsFull(c) && !c.canDisconnect
  }

  /** `is_connection_write_failed`, for a send that does not wait */
  predicate WriteFails(c: Connection)
    requires !WouldWait(c)
  {
    c.closed || IsFull(c)
  }

  predicate IsTarget(connections: Connections, envelope: Envelope, id: ConnectionId) {
    && id in connections
    && !Skips(connections[id], envelope.message)
    && match envelope
       case ToConnection(c, _) => id == c
       case Broadcast(_) => connections[id].initialized
  }

  ghost predicate NeedNotWait(connections: Connections, envelope: Envelope) {
    forall id :: IsTarget(connections, envelope, id) ==> !WouldWait(connections[id])
  }

  function Pushed(c: Connection, m: OutgoingMessage): Connection {
    c.(queue := c.queue + [m])
  }

  /** Targets do not make the router wait. */
  ghost predicate Sendable(connections: Connections, targets: set<ConnectionId>) {
    forall id :: id in targets ==> id in connections && !WouldWait(connections[id])
  }

  /** The targets among which writing fails. */
  ghost function FailedAmong(connections: Connections, targets: set<ConnectionId>): (r: set<ConnectionId>)
    requires Sendable(connections, targets)
    ensures r <= targets
  {
    set id | id in targets && WriteFails(connections[id])
  }

  /** The connections once `m` has been sent to `targets`. */
  ghost function SentTo(connections: Connections, targets: set<ConnectionId>, m: OutgoingMessage): Connections
    requires Sendable(connections, targets)
  {
    map id | id in connections && id !in FailedAmong(connections, targets) ::
      if id in targets then Pushed(connections[id], m) else connections[id]
  }

  ghost function Targets(connections: Connections, envelope: Envelope): set<ConnectionId> {
    set id | id in connections && IsTarget(connections, envelope, id)
  }

  /** The connections the router gives up on. */
  ghost function Failed(connections: Connections, envelope: Envelope): set<ConnectionId>
    requires NeedNotWait(connections, envelope)
  {
    FailedAmong(connections, Targets(connections, envelope))
  }

  /** The connections afterwards: failed targets are gone, the others have the message at the end of
      their queue, and nothing else changed. */
  ghost function Routed(connections: Connections, envelope: Envelope): Connections
    requires NeedNotWait(connections, envelope)
  {
    SentTo(connections, Targets(connections, envelope), envelope.message)
  }

  ghost predicate NoRepeats<T>(s: seq<T>) {
    forall i, j :: 0 <= i < j < |s| ==> s[i] != s[j]
  }

  /** `order` lists the elements of `ids`, each once. */
  ghost predicate Lists(order: seq<ConnectionId>, ids: set<ConnectionId>) {
    NoRepeats(order) && forall id :: id in order <==> id in ids
  }

  class OutboundRouter {
    var connections: Connections

    constructor ()
      ensures connections == map[]
    {
      connections := map[];
    }

    /** One round of `route_outgoing_envelope` for a target; tells whether the connection was dropped. */
    method SendTo(id: ConnectionId, message: OutgoingMessage) returns (failed: bool)
      requires id in connections && !WouldWait(connections[id])
      modifies this
      ensures failed == WriteFails(old(connections)[id])
      ensures connections == SentTo(old(connections), {id}, message)
    {
      if WriteFails(connections[id]) {
        connections := connections - {id};
        return true;
      }
      connections := connections[id := Pushed(connections[id], message)];
      return false;
    }

    /** `route_outgoing_envelope` */
    method RouteOutgoingEnvelope(envelope: Envelope) returns (disconnected: seq<ConnectionId>)
      requires NeedNotWait(connections, envelope)
      modifies this
      ensures connections == Routed(old(connections), envelope)
      ensures Lists(disconnected, Failed(old(connections), envelope))
    {
      hide SentTo, WouldWait, WriteFails, Skips;
      disconnected := [];
      ghost var before := connections;
      match envelope {
        case ToConnection(id, message) =>
          if id !in connections || Skips(connections[id], message) {
            assert Targets(before, envelope) == {};
            SentToNobody(before, message);
            return;
          }
          assert IsTarget(before, envelope, id);
          assert Targets(before, envelope) == {id};
          var failed := SendTo(id, message);
          if failed {
            disconnected := [id];
          }
        case Broadcast(message) =>
          var targets := set id | id in connections && connections[id].initialized && !Skips(connections[id], message);
          assert targets == Targets(before, envelope);
          assert Sendable(before, targets);
          disconnected := SendToAll(targets, message);
      }
    }

    /** The loop of `route_outgoing_envelope` over the targets of a broadcast */
    method SendToAll(targets: set<ConnectionId>, message: OutgoingMessage) returns (disconnected: seq<ConnectionId>)
      requires Sendable(connections, targets)
      modifies this
      ensures connections == SentTo(old(connections), targets, message)
      ensures Lists(disconnected, FailedAmong(old(connections), targets))
    {
      hide SentTo, WouldWait, WriteFails, FailedAmong;
      disconnected := [];
      ghost var before := connections;
      var left := targets;
      SentToNobody(before, message);
      NobodyFails(before);
      assert targets - left == {};
      while left != {}
        invariant left <= targets
        invariant connections == SentTo(before, targets - left, message)
        invariant Lists(disconnected, FailedAmong(before, targets - left))
        decreases |left|
      {
        var id :| id in left;
        ghost var sent := targets - left;
        StillThere(before, sent, id, message);
        var failed := SendTo(id, message);
        SentToOneMore(before, sent, id, message);
        if failed {
          disconnected := disconnected + [id];
        }
        left := left - {id};
        assert targets - left == sent + {id};
        assert failed == WriteFails(before[id]);
        FailedOneMore(before, sent, id);
      }
      assert targets - left == targets;
    }
  }

  lemma SentToNobody(connections: Connections, message: OutgoingMessage)
    ensures SentTo(connections, {}, message) == connections
  {
  }

  lemma NobodyFails(connections: Connections)
    ensures FailedAmong(connections, {}) == {}
  {
  }

  lemma FailedOneMore(connections: Connections, sent: set<ConnectionId>, id: ConnectionId)
    requires Sendable(connections, sent + {id}) && id in connections && id !in sent
    ensures FailedAmong(connections, sent + {id})
            == FailedAmong(connections, sent) + if WriteFails(connections[id]) then {id} else {}
  {
    hide WriteFails;
  }

  lemma StillThere(connections: Connections, sent: set<ConnectionId>, id: ConnectionId, message: OutgoingMessage)
    requires Sendable(connections, sent) && id in connections && id !in sent
    ensures id in SentTo(connections, sent, message) && SentTo(connections, sent, message)[id] == connections[id]
  {
  }

  lemma SentToOneMore(connections: Connections, sent: set<ConnectionId>, id: ConnectionId, message: OutgoingMessage)
    requires Sendable(connections, sent + {id}) && id in connections && id !in sent
    requires Sendable(SentTo(connections, sent, message), {id})
    ensures SentTo(SentTo(connections, sent, message), {id}, message) == SentTo(connections, sent + {id}, message)
  {
    hide WouldWait;
    StillThere(connections, sent, id, message);
    var once := SentTo(connections, sent, message);
    var a, b := SentTo(once, {id}, message), SentTo(connections, sent + {id}, message);
    assert forall k :: k in a <==> k in b;
  }

  /** What routing does to one connection: it is dropped if and only if it is a target that cannot be
      written to; a target that stays has exactly this message more, any other connection is as before. */
  lemma RoutedPointwise(connections: Connections, envelope: Envelope, id: ConnectionId)
    requires NeedNotWait(connections, envelope) && id in connections
    ensures var target := IsTarget(connections, envelope, id);
            var after := Routed(connections, envelope);
            && (id in after <==> !(target && WriteFails(connections[id])))
            && (id in after ==>
                  after[id] == if target then connections[id].(queue := connections[id].queue + [envelope.message])
                               else connections[id])
            && (id in after && |connections[id].queue| <= CHANNEL_CAPACITY ==> |after[id].queue| <= CHANNEL_CAPACITY)
  {
  }

  /** A connection that can be disconnected never makes the router wait, full or not. */
  lemma WebsocketsNeverWait(connections: Connections, envelope: Envelope)
    requires forall id :: id in connections ==> connections[id].canDisconnect
    ensures NeedNotWait(connections, envelope)
  {
  }
}
