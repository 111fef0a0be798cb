/** What single steps of the app-server do, client by client. */
module AppServerSteps {
  import opened Results
  import opened RequestIds
  import opened OutgoingRouting
  import opened AppServer

  /** The queue can be written to at once. */
  predicate IsOpen(client: Client) {
    !client.connection.closed && |client.connection.queue| < 128
  }

  predicate GetsOne(before: Client, after: Client, m: OutgoingMessage) {
    && after.connection == before.connection.(queue := before.connection.queue + [m])
    && |after.log| == |before.log| + 1 && after.log[..|before.log|] == before.log && after.log[|before.log|].message == m
    && after.taken == before.taken && after.reading == before.reading
  }

  /** The clients in `addressed` each get `m`, behind what they had, if they are open; the others the
      router gives up, notes, and is to report. Nobody else's queue changes. */
  ghost predicate Sends(s: Server, t: Server, addressed: set<ConnectionId>, m: OutgoingMessage) {
    && t.clients.Keys == s.clients.Keys
    && (forall c :: c in s.clients ==>
          if c in addressed && IsOpen(s.clients[c]) then GetsOne(s.clients[c], t.clients[c], m)
          else t.clients[c] == s.clients[c])
    && (forall c :: c in t.outbound <==> c in s.outbound && (c in addressed ==> c in s.clients && IsOpen(s.clients[c])))
    && |s.pendingClosed| <= |t.pendingClosed| && t.pendingClosed[..|s.pendingClosed|] == s.pendingClosed
    && (forall c :: c in t.pendingClosed[|s.pendingClosed|..] <==> c in addressed && c in s.clients && !IsOpen(s.clients[c]))
    && NoRepeats(t.pendingClosed[|s.pendingClosed|..])
  }

  /** Everything else is as before, but for the envelope that is taken out of the queue. */
  predicate TakesOne(s: Server, t: Server) {
    && |s.outgoing| > 0 && t.outgoing == s.outgoing[1..]
    && t.events == s.events && t.closing == s.closing && t.announced == s.announced && t.stdio == s.stdio
    && t.processor.connections == s.processor.connections
    && t.processor.nextOrdinal == s.processor.nextOrdinal
    && t.processor.control == s.processor.control
  }

  /** Whom the router knows and has been told is initialised. */
  function Initialised(s: Server): set<ConnectionId> {
    set c | c in s.outbound && c in s.clients && s.clients[c].connection.initialized
  }

  lemma RouterSends(s: Server, disconnected: seq<ConnectionId>, out: Envelope, addressed: set<ConnectionId>)
    requires Enabled(s, RouterEnvelope(disconnected))
    requires Rewritten(s.outgoing[0], s.processor.routes) == Some(out)
    requires forall c :: c in addressed <==> c in s.clients && c in s.outbound && IsTarget(Known(s), out, c)
    ensures Sends(s, After(s, RouterEnvelope(disconnected)), addressed, out.message)
    ensures TakesOne(s, After(s, RouterEnvelope(disconnected)))
  {
    hide IsTarget, Rewritten, RoutesAfter, CauseOf, AnsweredBy;
    var t := After(s, RouterEnvelope(disconnected));
    assert forall c :: c in addressed <==> c in Targets(Known(s), out);
    assert forall c :: c in Failed(Known(s), out) <==> c in addressed && !IsOpen(s.clients[c]);
    assert t.pendingClosed[|s.pendingClosed|..] == disconnected;
  }

  /** A notification goes to every client that is known, initialised and has not opted out of it, and to no
      other. No request is answered and no route is used up by it. */
  lemma NotificationIsBroadcast(s: Server, disconnected: seq<ConnectionId>, name: string)
    requires Enabled(s, RouterEnvelope(disconnected)) && s.outgoing[0] == Broadcast(Notification(name))
    ensures var t := After(s, RouterEnvelope(disconnected));
            var addressed := set c | c in Initialised(s) && name !in s.clients[c].connection.optedOut;
            && Sends(s, t, addressed, Notification(name)) && TakesOne(s, t)
            && t.requests == s.requests && t.processor.routes == s.processor.routes
  {
    hide Sends, TakesOne, Failed, AfterSending, Lists, NeedNotWait;
    var addressed := set c | c in Initialised(s) && name !in s.clients[c].connection.optedOut;
    RouterSends(s, disconnected, s.outgoing[0], addressed);
  }

  /** A request to clients is broadcast to all that are initialised. */
  lemma RequestIsBroadcast(s: Server, disconnected: seq<ConnectionId>, id: RequestId, name: string)
    requires Enabled(s, RouterEnvelope(disconnected)) && s.outgoing[0] == Broadcast(ServerRequest(id, name))
    ensures var t := After(s, RouterEnvelope(disconnected));
            && Sends(s, t, Initialised(s), ServerRequest(id, name)) && TakesOne(s, t)
            && t.requests == s.requests && t.processor.routes == s.processor.routes
  {
    hide Sends, TakesOne, Failed, AfterSending, Lists, NeedNotWait;
    RouterSends(s, disconnected, s.outgoing[0], Initialised(s));
  }

  /** A message addressed to one connection goes there, initialised or not, unless it is a notification that
      client has opted out of; and nowhere else. */
  lemma MessageIsAddressed(s: Server, disconnected: seq<ConnectionId>, c: ConnectionId, m: OutgoingMessage)
    requires Enabled(s, RouterEnvelope(disconnected)) && s.outgoing[0] == ToConnection(c, m)
    ensures var t := After(s, RouterEnvelope(disconnected));
            var wanted := c in s.outbound && c in s.clients
                          && !(m.Notification? && m.method_ in s.clients[c].connection.optedOut);
            && Sends(s, t, if wanted then {c} else {}, m) && TakesOne(s, t)
            && t.requests == s.requests && t.processor.routes == s.processor.routes
  {
    hide Sends, TakesOne, Failed, AfterSending, Lists, NeedNotWait;
    var wanted := c in s.outbound && c in s.clients
                  && !(m.Notification? && m.method_ in s.clients[c].connection.optedOut);
    RouterSends(s, disconnected, s.outgoing[0], if wanted then {c} else {});
  }

  /** A reply under an id that has a route goes to the route's connection only, with the id the request came
      with, and uses up that route and no other. */
  lemma ReplyGoesHome(s: Server, disconnected: seq<ConnectionId>, reply: OutgoingMessage, home: OutgoingMessage)
    requires Enabled(s, RouterEnvelope(disconnected)) && s.outgoing[0] == Broadcast(reply)
    requires IsReply(reply) && reply.id in s.processor.routes
    requires var id := s.processor.routes[reply.id].originalId;
             || (reply.Response? && home == Response(id, reply.result))
             || (reply.Error? && home == Error(id, reply.code))
    ensures var t, c := After(s, RouterEnvelope(disconnected)), s.processor.routes[reply.id].connection;
            && Sends(s, t, if c in s.outbound && c in s.clients then {c} else {}, home) && TakesOne(s, t)
            && t.processor.routes == s.processor.routes - {reply.id}
  {
    hide Sends, TakesOne, Failed, AfterSending, Lists, NeedNotWait;
    var c := s.processor.routes[reply.id].connection;
    RouterSends(s, disconnected, ToConnection(c, home), if c in s.outbound && c in s.clients then {c} else {});
  }

  /** A reply without a route goes nowhere if its id is an internal one, and else to all that are
      initialised. */
  lemma ReplyWithoutRoute(s: Server, disconnected: seq<ConnectionId>, reply: OutgoingMessage)
    requires Enabled(s, RouterEnvelope(disconnected)) && s.outgoing[0] == Broadcast(reply)
    requires IsReply(reply) && reply.id !in s.processor.routes
    ensures var t := After(s, RouterEnvelope(disconnected));
            && Sends(s, t, if IsInternal(reply.id) then {} else Initialised(s), reply) && TakesOne(s, t)
            && t.requests == s.requests && t.processor.routes == s.processor.routes
  {
    assert s.processor.routes - {reply.id} == s.processor.routes;
    if IsInternal(reply.id) {
      hide Failed, AfterSending, NeedNotWait;
    } else {
      hide Sends, TakesOne, Failed, AfterSending, Lists, NeedNotWait;
      RouterSends(s, disconnected, s.outgoing[0], Initialised(s));
    }
  }

  /** The router takes up an envelope only when no notice of a connection is waiting, and only when no
      client it would write to is open and full with no way to disconnect it. */
  lemma RouterWaits(s: Server, disconnected: seq<ConnectionId>, c: ConnectionId)
    requires Enabled(s, RouterEnvelope(disconnected)) && s.outgoing[0].Broadcast? && !IsReply(s.outgoing[0].message)
    requires c in Initialised(s)
    requires s.outgoing[0].message.Notification? ==>
               s.outgoing[0].message.method_ !in s.clients[c].connection.optedOut
    ensures s.processor.control == []
    ensures var k := s.clients[c].connection; k.closed || k.canDisconnect || |k.queue| < 128
  {
    assert IsTarget(Known(s), s.outgoing[0], c);
  }

  // The other steps

  /** A request is queued, behind what is queued already, if there is room; else its client is told of the
      overload, if it is open, and the request goes no further. */
  lemma RequestIsTakenOrRefused(s: Server, c: ConnectionId, id: RequestId)
    requires Enabled(s, Receive(c, id))
    ensures var t := After(s, Receive(c, id));
            && t.processor == s.processor && t.outgoing == s.outgoing && t.outbound == s.outbound
            && |t.requests| == |s.requests| + 1 && t.requests[..|s.requests|] == s.requests
            && t.clients.Keys == s.clients.Keys
            && (forall d :: d in s.clients && d != c ==> t.clients[d] == s.clients[d])
            && if |s.events| < 128 then
                 && t.events == s.events + [IncomingMessage(c, ClientRequest(id, |s.requests|))]
                 && t.requests[|s.requests|] == Request(c, id, Queued) && t.clients[c] == s.clients[c]
               else
                 && t.events == s.events && t.requests[|s.requests|] == Request(c, id, Refused)
                 && if IsOpen(s.clients[c]) then GetsOne(s.clients[c], t.clients[c], Error(id, -32001))
                    else t.clients[c] == s.clients[c]
  {
  }

  /** The router's own view follows the notices of the processor, one by one. */
  lemma NoticeIsFollowed(s: Server)
    requires Enabled(s, RouterControl)
    ensures var t := After(s, RouterControl);
            && t.clients == s.clients && t.requests == s.requests && t.outgoing == s.outgoing && t.events == s.events
            && t.processor.routes == s.processor.routes && t.processor.control == s.processor.control[1..]
            && (match s.processor.control[0]
                case Opened(c) => c in t.outbound
                case Closed(c) => c !in t.outbound)
            && forall c :: c != s.processor.control[0].connection ==> (c in t.outbound <==> c in s.outbound)
  {
  }

  /** A connection's end is told to the router and its routes are dropped: at once with websockets, with
      stdio when none of its routes is left. */
  lemma EndIsHandled(s: Server, c: ConnectionId)
    requires Enabled(s, Process) && s.events[0] == ConnectionClosed(c)
    ensures var t := After(s, Process);
            && t.events == s.events[1..] && t.requests == s.requests && t.clients == s.clients && t.outgoing == s.outgoing
            && if s.stdio then t.closing == Some(c) && t.processor == s.processor
               else t.closing == s.closing && Ended(s, t, c)
  {
  }

  ghost predicate Ended(s: Server, t: Server, c: ConnectionId) {
    && c !in t.processor.connections && (forall d :: d != c ==> (d in t.processor.connections <==> d in s.processor.connections))
    && t.processor.control == s.processor.control + [Closed(c)]
    && t.processor.nextOrdinal == s.processor.nextOrdinal
    && forall id :: if id in s.processor.routes && s.processor.routes[id].connection != c
                    then id in t.processor.routes && t.processor.routes[id] == s.processor.routes[id]
                    else id !in t.processor.routes
  }

  lemma EndIsFinished(s: Server, c: ConnectionId)
    requires s.closing == Some(c) && Enabled(s, FinishClosing)
    ensures forall id :: id in s.processor.routes ==> s.processor.routes[id].connection != c
    ensures var t := After(s, FinishClosing);
            && t.closing == None && Ended(s, t, c)
            && t.events == s.events && t.requests == s.requests && t.clients == s.clients && t.outgoing == s.outgoing
  {
  }

  /** A new connection is told to the router and known from then on. */
  lemma OpeningIsHandled(s: Server, c: ConnectionId)
    requires Enabled(s, Process) && s.events[0] == ConnectionOpened(c)
    ensures var t := After(s, Process);
            && t.events == s.events[1..] && t.requests == s.requests && t.clients == s.clients && t.outgoing == s.outgoing
            && t.processor == s.processor.(connections := s.processor.connections + {c},
                                           control := s.processor.control + [Opened(c)])
            && t.announced == s.announced + {c}
  {
  }

  /** A request from a known connection gets a new internal id, made of the connection and the next ordinal,
      with a route back to where it came from; one from an unknown connection gets none. */
  lemma RequestGetsRoute(s: Server, c: ConnectionId, id: RequestId, serial: nat)
    requires Enabled(s, Process) && s.events[0] == IncomingMessage(c, ClientRequest(id, serial)) && serial < |s.requests|
    ensures var t, internal := After(s, Process), InternalId(c, s.processor.nextOrdinal);
            && t.events == s.events[1..] && t.clients == s.clients && t.outgoing == s.outgoing && t.closing == s.closing
            && t.processor.connections == s.processor.connections && t.processor.control == s.processor.control
            && |t.requests| == |s.requests| && (forall k :: 0 <= k < |s.requests| && k != serial ==> t.requests[k] == s.requests[k])
            && t.requests[serial].connection == s.requests[serial].connection && t.requests[serial].id == s.requests[serial].id
            && if c in s.processor.connections then
                 && t.processor.nextOrdinal == s.processor.nextOrdinal + 1
                 && t.processor.routes == s.processor.routes[internal := Route(c, id, serial)]
                 && t.requests[serial].stage == Accepted(s.processor.nextOrdinal)
               else
                 t.processor == s.processor && t.requests[serial].stage == Ignored
  {
  }

  /** A failed connection is reported to the processor, the one that failed first before the others. */
  lemma FailureIsReported(s: Server)
    requires Enabled(s, RouterReportsClosed)
    ensures var t := After(s, RouterReportsClosed);
            && t.events == s.events + [ConnectionClosed(s.pendingClosed[0])] && t.pendingClosed == s.pendingClosed[1..]
            && t.clients == s.clients && t.requests == s.requests && t.processor == s.processor && t.outbound == s.outbound
  {
  }

  /** An internal id as it is written. */
  lemma InternalIdIsWritten()
    ensures InternalId(3, 12) == Text("__code_internal_request__3:12")
    ensures IsInternal(InternalId(3, 12)) && !IsInternal(Number(3)) && !IsInternal(Text("3:12"))
  {
    assert Digit(1) == '1' && Digit(2) == '2' && Digit(3) == '3';
    assert Decimal(1) == "1" && Decimal(12) == "12" && Decimal(3) == "3";
    assert "__code_internal_request__" + "3" + ":" + "12" == "__code_internal_request__3:12";
  }
}
