/** The invariant of all runs of the app-server, and what follows from it for its clients. */
module AppServerRuns {
  import opened Results
  import opened RequestIds
  import opened OutgoingRouting
  import opened AppServer
  import opened AppServerSafety

  // Connections coming and going

  /** An open connection is known to the router, about to be, or given up by it; and no notice of its
      end is under way. */
  ghost predicate OpenConnections(p: ProcessorState, outbound: set<ConnectionId>, dropped: set<ConnectionId>) {
    forall c :: c in p.connections ==>
      Closed(c) !in p.control && (c in outbound || c in dropped || Opened(c) in p.control)
  }

  ghost predicate AllAnnounced(s: Server) {
    && s.processor.connections <= s.announced && s.outbound <= s.announced && s.dropped <= s.announced
    && (forall x :: x in s.processor.control ==> x.connection in s.announced)
    && (forall c :: c in s.pendingClosed ==> c in s.announced)
    && (s.closing.Some? ==> s.closing.value in s.announced)
    && s.announced <= s.clients.Keys
  }

  ghost predicate OpenedBy(events: seq<Event>, announced: set<ConnectionId>, i: nat)
    requires i < |events|
  {
    events[i].connection in announced || exists j :: 0 <= j <= i && events[j] == ConnectionOpened(events[i].connection)
  }

  /** The opening of a connection is queued before anything else about it. */
  ghost predicate OpeningsFirst(events: seq<Event>, announced: set<ConnectionId>) {
    && (forall i :: 0 <= i < |events| && events[i].ConnectionOpened? ==> events[i].connection !in announced)
    && (forall i, j :: 0 <= i < j < |events| && events[j].ConnectionOpened? ==>
          events[i].connection != events[j].connection)
    && (forall i :: 0 <= i < |events| ==> OpenedBy(events, announced, i))
  }

  ghost predicate ClientsKnown(events: seq<Event>, announced: set<ConnectionId>, clients: map<ConnectionId, Client>) {
    && (forall i :: 0 <= i < |events| ==> events[i].connection in clients)
    && (forall c :: c in clients ==> c in announced || ConnectionOpened(c) in events)
  }

  ghost predicate Lifecycle(s: Server) {
    && OpenConnections(s.processor, s.outbound, s.dropped)
    && AllAnnounced(s)
    && OpeningsFirst(s.events, s.announced)
    && ClientsKnown(s.events, s.announced, s.clients)
  }

  lemma OpeningsFirstQueues(events: seq<Event>, announced: set<ConnectionId>, event: Event)
    requires OpeningsFirst(events, announced)
    requires if event.ConnectionOpened?
             then event.connection !in announced && forall i :: 0 <= i < |events| ==> events[i].connection != event.connection
             else event.connection in announced || ConnectionOpened(event.connection) in events
    ensures OpeningsFirst(events + [event], announced)
  {
    var all := events + [event];
    assert forall i :: 0 <= i < |events| ==> all[i] == events[i];
    forall i | 0 <= i < |all| ensures OpenedBy(all, announced, i) {
      if i < |events| {
        assert OpenedBy(events, announced, i);
        if events[i].connection !in announced {
          var j :| 0 <= j <= i && events[j] == ConnectionOpened(events[i].connection);
          assert all[j] == events[j];
        }
      } else if event.connection !in announced {
        var j :| 0 <= j < |all| && all[j] == ConnectionOpened(event.connection);
      }
    }
  }

  lemma OpeningsFirstDequeues(events: seq<Event>, announced: set<ConnectionId>)
    requires OpeningsFirst(events, announced) && events != []
    ensures if events[0].ConnectionOpened? then events[0].connection !in announced else events[0].connection in announced
    ensures OpeningsFirst(events[1..], if events[0].ConnectionOpened? then announced + {events[0].connection} else announced)
  {
    assert OpenedBy(events, announced, 0);
    var rest := events[1..];
    var more := if events[0].ConnectionOpened? then announced + {events[0].connection} else announced;
    assert forall i :: 0 <= i < |rest| ==> rest[i] == events[i + 1];
    forall i | 0 <= i < |rest| ensures OpenedBy(rest, more, i) {
      assert OpenedBy(events, announced, i + 1);
      if rest[i].connection !in more {
        var j :| 0 <= j <= i + 1 && events[j] == ConnectionOpened(rest[i].connection);
        assert rest[j - 1] == events[j];
      }
    }
  }

  lemma ClientsKnownDequeues(events: seq<Event>, announced: set<ConnectionId>, clients: map<ConnectionId, Client>)
    requires ClientsKnown(events, announced, clients) && events != []
    ensures events[0].connection in clients
    ensures ClientsKnown(events[1..], if events[0].ConnectionOpened? then announced + {events[0].connection} else announced,
                         clients)
  {
    var rest := events[1..];
    assert forall i :: 0 <= i < |rest| ==> rest[i] == events[i + 1];
    assert events == [events[0]] + rest;
  }

  /** The processor's part of the lifecycle, for any event whose connection is announced in time. */
  lemma HandlingKeepsOpen(p: ProcessorState, outbound: set<ConnectionId>, dropped: set<ConnectionId>, event: Event)
    requires OpenConnections(p, outbound, dropped)
    requires event.ConnectionOpened? ==> Closed(event.connection) !in p.control
    ensures OpenConnections(Handled(p, event), outbound, dropped)
  {
    hide WithoutConnection;
  }

  lemma LifecycleProcesses(s: Server)
    requires Lifecycle(s) && s.events != []
    ensures Lifecycle(Processed(s))
  {
    var event := s.events[0];
    OpeningsFirstDequeues(s.events, s.announced);
    ClientsKnownDequeues(s.events, s.announced, s.clients);
    hide OpeningsFirst, ClientsKnown;
    assert event.ConnectionOpened? ==> Closed(event.connection) !in s.processor.control;
    HandlingKeepsOpen(s.processor, s.outbound, s.dropped, event);
    hide OpenConnections, WithoutConnection, RequestsAfter;
  }

  lemma LifecycleConnects(s: Server, c: ConnectionId)
    requires Lifecycle(s) && Enabled(s, Connect(c))
    ensures Lifecycle(After(s, Connect(c)))
  {
    OpeningsFirstQueues(s.events, s.announced, ConnectionOpened(c));
    hide OpeningsFirst;
  }

  /** Any other event is about a connection that has been, or is about to be, announced. */
  lemma LifecycleQueues(s: Server, event: Event)
    requires Lifecycle(s) && !event.ConnectionOpened? && event.connection in s.clients
    ensures Lifecycle(s.(events := s.events + [event]))
  {
    OpeningsFirstQueues(s.events, s.announced, event);
    hide OpeningsFirst;
  }

  lemma LifecycleSameKeys(s: Server, clients: map<ConnectionId, Client>, requests: seq<Request>)
    requires Lifecycle(s) && clients.Keys == s.clients.Keys
    ensures Lifecycle(s.(clients := clients, requests := requests))
  {
    hide OpeningsFirst;
  }

  lemma LifecycleControls(s: Server)
    requires Lifecycle(s) && s.processor.control != []
    ensures Lifecycle(Controlled(s))
  {
    hide OpeningsFirst;
    var control := s.processor.control;
    assert control == [control[0]] + control[1..];
    assert forall x :: x in control[1..] ==> x in control;
  }

  lemma LifecycleRoutes(s: Server, disconnected: seq<ConnectionId>)
    requires Lifecycle(s) && Enabled(s, RouterEnvelope(disconnected))
    ensures Lifecycle(RoutedOut(s, disconnected))
  {
    hide OpeningsFirst, IsTarget, WriteFails, WouldWait, NoRepeats, Rewritten, RoutesAfter;
    var t := RoutedOut(s, disconnected);
    assert t.clients.Keys == s.clients.Keys;
    if Rewritten(s.outgoing[0], s.processor.routes).Some? {
      var out := Rewritten(s.outgoing[0], s.processor.routes).value;
      assert Failed(Known(s), out) <= s.outbound;
    }
  }

  lemma LifecycleFinishesClosing(s: Server)
    requires Lifecycle(s) && s.closing.Some?
    ensures Lifecycle(s.(closing := None, processor := Handled(s.processor, ConnectionClosed(s.closing.value))))
  {
    hide OpeningsFirst, WithoutConnection;
  }

  lemma LifecycleKept(s: Server, step: Step)
    requires Lifecycle(s) && Enabled(s, step)
    ensures Lifecycle(After(s, step))
  {
    hide Lifecycle, Processed, RoutedOut, Controlled, Handled, NeedNotWait, Lists, Known, Rewritten;
    var t := After(s, step);
    match step {
      case Connect(c) => LifecycleConnects(s, c);
      case Receive(c, id) => LifecycleReceives(s, c, id);
      case ReceiveOther(c) => LifecycleQueues(s, IncomingMessage(c, ClientOther));
      case Hangup(c) =>
        LifecycleQueues(s, ConnectionClosed(c));
        LifecycleSameKeys(s.(events := s.events + [ConnectionClosed(c)]), t.clients, s.requests);
      case WriterTakes(c) => LifecycleSameKeys(s, t.clients, s.requests);
      case WriterStops(c) => LifecycleSameKeys(s, t.clients, s.requests);
      case Initialize(c, _) => LifecycleSameKeys(s, t.clients, s.requests);
      case Process => LifecycleProcesses(s);
      case FinishClosing => LifecycleFinishesClosing(s);
      case HandlerSends(envelope) => LifecycleIgnoresOutgoing(s, s.outgoing + [envelope]);
      case RouterControl => LifecycleControls(s);
      case RouterEnvelope(disconnected) => LifecycleRoutes(s, disconnected);
      case RouterReportsClosed => LifecycleReports(s);
    }
  }

  lemma LifecycleIgnoresOutgoing(s: Server, outgoing: seq<Envelope>)
    requires Lifecycle(s)
    ensures Lifecycle(s.(outgoing := outgoing))
  {
    hide OpeningsFirst;
  }

  lemma LifecycleReceives(s: Server, c: ConnectionId, id: RequestId)
    requires Lifecycle(s) && c in s.clients
    ensures Lifecycle(Received(s, c, id))
  {
    hide Lifecycle;
    var t := Received(s, c, id);
    if |s.events| < CHANNEL_CAPACITY {
      var event := IncomingMessage(c, ClientRequest(id, |s.requests|));
      LifecycleQueues(s, event);
      LifecycleSameKeys(s.(events := s.events + [event]), s.clients, t.requests);
    } else {
      LifecycleSameKeys(s, t.clients, t.requests);
    }
  }

  lemma LifecycleReports(s: Server)
    requires Lifecycle(s) && s.pendingClosed != []
    ensures Lifecycle(s.(pendingClosed := s.pendingClosed[1..], events := s.events + [ConnectionClosed(s.pendingClosed[0])]))
  {
    var c := s.pendingClosed[0];
    assert c in s.pendingClosed;
    LifecycleQueues(s, ConnectionClosed(c));
    hide OpeningsFirst;
    assert forall d :: d in s.pendingClosed[1..] ==> d in s.pendingClosed;
  }

  // Replies reach their clients

  ghost predicate Replied(client: Client, serial: nat) {
    exists e :: e in client.log && e.cause == ReplyTo(serial)
  }

  /** A reply the router has taken up is in its client's queue, unless that client's writer failed. */
  ghost predicate AnswersDelivered(requests: seq<Request>, clients: map<ConnectionId, Client>, dropped: set<ConnectionId>) {
    forall k :: 0 <= k < |requests| && requests[k].stage.Answered? ==>
      && requests[k].connection in clients
      && (requests[k].connection in dropped || Replied(clients[requests[k].connection], k))
  }

  /** With stdio, an accepted request keeps its route until it is answered. */
  ghost predicate AcceptedKeepRoutes(requests: seq<Request>, routes: Routes) {
    forall k :: 0 <= k < |requests| && requests[k].stage.Accepted? ==>
      InternalId(requests[k].connection, requests[k].stage.ordinal) in routes
  }

  ghost predicate LogsGrow(a: map<ConnectionId, Client>, b: map<ConnectionId, Client>) {
    forall c :: c in a ==> c in b && a[c].log <= b[c].log
  }

  /** Requests that were not answered in this step leave the delivered answers as they are. */
  lemma DeliveredStays(a: seq<Request>, b: seq<Request>, clients: map<ConnectionId, Client>,
                       more: map<ConnectionId, Client>, dropped: set<ConnectionId>)
    requires AnswersDelivered(a, clients, dropped) && LogsGrow(clients, more) && Progress(a, b)
    requires NoNewAnswers(a, b)
    ensures AnswersDelivered(b, more, dropped)
  {
    forall k | 0 <= k < |b| && b[k].stage.Answered?
      ensures b[k].connection in more && (b[k].connection in dropped || Replied(more[b[k].connection], k))
    {
      var c := a[k].connection;
      if c !in dropped {
        var e :| e in clients[c].log && e.cause == ReplyTo(k);
        assert e in more[c].log;
      }
    }
  }

  /** The client of a reply being routed is within reach of the router, or was dropped by it. */
  lemma ReplyFindsItsClient(s: Server, disconnected: seq<ConnectionId>)
    requires Pipeline(s.events, s.processor, s.requests) && Lifecycle(s)
    requires Enabled(s, RouterEnvelope(disconnected)) && CauseOf(s, s.outgoing[0]).ReplyTo?
    ensures var t, k := RoutedOut(s, disconnected), CauseOf(s, s.outgoing[0]).serial;
            && k < |s.requests| && s.requests[k].connection in t.clients
            && (s.requests[k].connection in t.dropped || Replied(t.clients[s.requests[k].connection], k))
  {
    hide EventsRecorded, OrdinalsRecorded, OpeningsFirst, Lists, WriteFails, WouldWait;
    var envelope := s.outgoing[0];
    var id := envelope.message.id;
    assert RouteRecorded(s.processor, s.requests, id);
    var route := s.processor.routes[id];
    var c, k := route.connection, route.serial;
    var out := Rewritten(envelope, s.processor.routes).value;
    assert c in s.outbound || c in s.dropped;
    assert c in s.clients;
    if c in s.outbound {
      assert IsTarget(Known(s), out, c);
      assert c in Targets(Known(s), out);
      if c !in Failed(Known(s), out) {
        var client := AfterSending(s, out, ReplyTo(k))[c];
        assert client.log[|client.log| - 1] == Entry(out.message, ReplyTo(k));
        assert Entry(out.message, ReplyTo(k)) in client.log;
      }
    }
  }

  lemma DeliveredRoutes(s: Server, disconnected: seq<ConnectionId>)
    requires Pipeline(s.events, s.processor, s.requests) && Lifecycle(s)
    requires AnswersDelivered(s.requests, s.clients, s.dropped) && Enabled(s, RouterEnvelope(disconnected))
    ensures var t := RoutedOut(s, disconnected); AnswersDelivered(t.requests, t.clients, t.dropped)
  {
    hide Pipeline, Lifecycle, Lists, RoutedOut, CauseOf, NeedNotWait, Known, Rewritten, Targets, Failed, Progress;
    var t := RoutedOut(s, disconnected);
    var cause := CauseOf(s, s.outgoing[0]);
    RoutingGrowsLogs(s, disconnected);
    RoutingKeepsRequests(s, disconnected);
    if cause.ReplyTo? {
      ReplyFindsItsClient(s, disconnected);
    }
    AnswerDelivered(s, cause, t.clients, t.dropped);
  }

  /** Taking up one more reply, which found its client, keeps all answers delivered. */
  lemma AnswerDelivered(s: Server, cause: Cause, clients: map<ConnectionId, Client>, dropped: set<ConnectionId>)
    requires AnswersDelivered(s.requests, s.clients, s.dropped)
    requires LogsGrow(s.clients, clients) && s.dropped <= dropped
    requires cause.ReplyTo? ==>
               && cause.serial < |s.requests| && s.requests[cause.serial].connection in clients
               && (s.requests[cause.serial].connection in dropped
                   || Replied(clients[s.requests[cause.serial].connection], cause.serial))
    ensures AnswersDelivered(AnsweredBy(s, cause), clients, dropped)
  {
    var after := AnsweredBy(s, cause);
    forall k | 0 <= k < |after| && after[k].stage.Answered?
      ensures after[k].connection in clients
              && (after[k].connection in dropped || Replied(clients[after[k].connection], k))
    {
      if cause != ReplyTo(k) {
        var c := s.requests[k].connection;
        if c !in s.dropped {
          var e :| e in s.clients[c].log && e.cause == ReplyTo(k);
          assert e in clients[c].log;
        }
      }
    }
  }

  lemma RoutingKeepsRequests(s: Server, disconnected: seq<ConnectionId>)
    requires Enabled(s, RouterEnvelope(disconnected))
    ensures var t := RoutedOut(s, disconnected);
            t.requests == AnsweredBy(s, CauseOf(s, s.outgoing[0])) && s.dropped <= t.dropped
  {
  }

  lemma RoutingGrowsLogs(s: Server, disconnected: seq<ConnectionId>)
    requires Enabled(s, RouterEnvelope(disconnected))
    ensures LogsGrow(s.clients, RoutedOut(s, disconnected).clients)
  {
    hide Targets, Failed, Lists;
  }

  lemma DeliveredKept(s: Server, step: Step)
    requires Pipeline(s.events, s.processor, s.requests) && Lifecycle(s)
    requires AnswersDelivered(s.requests, s.clients, s.dropped) && Enabled(s, step)
    ensures var t := After(s, step); AnswersDelivered(t.requests, t.clients, t.dropped)
  {
    var t := After(s, step);
    if step.RouterEnvelope? {
      DeliveredRoutes(s, step.disconnected);
      return;
    }
    OtherStepsProgress(s, step);
    hide Pipeline, Lifecycle, After, Enabled;
    DeliveredStays(s.requests, t.requests, s.clients, t.clients, s.dropped);
  }

  ghost predicate NoNewAnswers(a: seq<Request>, b: seq<Request>) {
    forall k :: 0 <= k < |b| && b[k].stage.Answered? ==> k < |a| && a[k].stage.Answered?
  }

  lemma ReceivingProgresses(s: Server, c: ConnectionId, id: RequestId)
    requires c in s.clients
    ensures var t := Received(s, c, id);
            LogsGrow(s.clients, t.clients) && Progress(s.requests, t.requests) && t.dropped == s.dropped
            && NoNewAnswers(s.requests, t.requests)
  {
  }

  lemma ProcessingProgresses(s: Server)
    requires Pipeline(s.events, s.processor, s.requests) && s.events != []
    ensures var t := Processed(s);
            LogsGrow(s.clients, t.clients) && Progress(s.requests, t.requests) && t.dropped == s.dropped
            && NoNewAnswers(s.requests, t.requests)
  {
    hide RoutesRecorded, OrdinalsRecorded, Handled;
  }

  /** Only the router answers requests; every other step lets records and logs grow, or be. */
  lemma OtherStepsProgress(s: Server, step: Step)
    requires Pipeline(s.events, s.processor, s.requests) && Enabled(s, step) && !step.RouterEnvelope?
    ensures var t := After(s, step);
            LogsGrow(s.clients, t.clients) && Progress(s.requests, t.requests) && t.dropped == s.dropped
            && NoNewAnswers(s.requests, t.requests)
  {
    hide Pipeline, Handled, Received, Processed;
    match step {
      case Receive(c, id) => ReceivingProgresses(s, c, id);
      case Process => ProcessingProgresses(s);
      case _ =>
    }
  }

  lemma NoRoutesToRemove(routes: Routes, c: ConnectionId)
    requires !HasRoutes(routes, c)
    ensures WithoutConnection(routes, c) == routes
  {
  }

  lemma AcceptedKeepRoutesAnswering(s: Server, id: RequestId)
    requires Pipeline(s.events, s.processor, s.requests) && AcceptedKeepRoutes(s.requests, s.processor.routes)
    requires id in s.processor.routes
    ensures AcceptedKeepRoutes(AnsweredBy(s, ReplyTo(s.processor.routes[id].serial)), s.processor.routes - {id})
  {
    assert RouteRecorded(s.processor, s.requests, id);
    var serial := s.processor.routes[id].serial;
    var after := AnsweredBy(s, ReplyTo(serial));
    forall k | 0 <= k < |after| && after[k].stage.Accepted?
      ensures InternalId(after[k].connection, after[k].stage.ordinal) in s.processor.routes - {id}
    {
      var r := s.requests[k];
      assert k != serial && after[k] == r;
      OrdinalsDiffer(s.processor, s.requests, k, serial);
      if InternalId(r.connection, r.stage.ordinal) == id {
        InternalIdIsInjective(r.connection, r.stage.ordinal, s.requests[serial].connection, s.requests[serial].stage.ordinal);
      }
    }
  }

  lemma OrdinalsDiffer(p: ProcessorState, requests: seq<Request>, j: nat, k: nat)
    requires OrdinalsRecorded(p, requests) && j < |requests| && k < |requests| && j != k
    requires HasOrdinal(requests[j].stage) && HasOrdinal(requests[k].stage)
    ensures requests[j].stage.ordinal != requests[k].stage.ordinal
  {
  }

  lemma AcceptedKeepRoutesRouting(s: Server, disconnected: seq<ConnectionId>)
    requires Pipeline(s.events, s.processor, s.requests) && AcceptedKeepRoutes(s.requests, s.processor.routes)
    requires Enabled(s, RouterEnvelope(disconnected))
    ensures var t := RoutedOut(s, disconnected); AcceptedKeepRoutes(t.requests, t.processor.routes)
  {
    hide Pipeline, AcceptedKeepRoutes, Failed, Targets, AfterSending, NeedNotWait, Known, Lists;
    var envelope := s.outgoing[0];
    if envelope.Broadcast? && IsReply(envelope.message) {
      if envelope.message.id in s.processor.routes {
        AcceptedKeepRoutesAnswering(s, envelope.message.id);
      } else {
        assert s.processor.routes - {envelope.message.id} == s.processor.routes;
      }
    }
  }

  lemma AcceptedKeepRoutesProcessing(s: Server)
    requires AcceptedKeepRoutes(s.requests, s.processor.routes) && s.stdio && s.events != []
    requires Pipeline(s.events, s.processor, s.requests)
    ensures var t := Processed(s); AcceptedKeepRoutes(t.requests, t.processor.routes)
  {
    hide RoutesRecorded, OrdinalsRecorded;
  }

  lemma AcceptedKeepRoutesKept(s: Server, step: Step)
    requires Pipeline(s.events, s.processor, s.requests) && AcceptedKeepRoutes(s.requests, s.processor.routes)
    requires s.stdio && Enabled(s, step)
    ensures var t := After(s, step); AcceptedKeepRoutes(t.requests, t.processor.routes)
  {
    hide Pipeline, RoutedOut, Processed, NeedNotWait, Lists, Known, WithoutConnection;
    match step {
      case Process => AcceptedKeepRoutesProcessing(s);
      case FinishClosing => NoRoutesToRemove(s.processor.routes, s.closing.value);
      case RouterEnvelope(disconnected) => AcceptedKeepRoutesRouting(s, disconnected);
      case _ =>
    }
  }

  // Whom the router gives up on

  /** A stdio connection cannot be disconnected for being slow; one the router gave up on has a writer
      that is gone. */
  ghost predicate StdioFailures(clients: map<ConnectionId, Client>, dropped: set<ConnectionId>) {
    && (forall c :: c in clients ==> !clients[c].connection.canDisconnect)
    && (forall c :: c in dropped ==> c in clients && clients[c].connection.closed)
  }

  lemma StdioFailuresRouting(s: Server, disconnected: seq<ConnectionId>)
    requires StdioFailures(s.clients, s.dropped) && Enabled(s, RouterEnvelope(disconnected))
    ensures var t := RoutedOut(s, disconnected); StdioFailures(t.clients, t.dropped)
  {
    hide IsTarget, Lists, Rewritten, RoutesAfter, AnsweredBy, CauseOf, IsFull;
    var t := RoutedOut(s, disconnected);
    if Rewritten(s.outgoing[0], s.processor.routes).Some? {
      var out := Rewritten(s.outgoing[0], s.processor.routes).value;
      forall c | c in Failed(Known(s), out) ensures c in t.clients && t.clients[c].connection.closed {
        assert Known(s)[c] == s.clients[c].connection && !WouldWait(Known(s)[c]);
      }
    }
  }

  lemma StdioFailuresKept(s: Server, step: Step)
    requires StdioFailures(s.clients, s.dropped) && s.stdio && Enabled(s, step)
    ensures var t := After(s, step); StdioFailures(t.clients, t.dropped)
  {
    hide RoutedOut, Handled, RequestsAfter, NeedNotWait, Lists, Known, Rewritten, HasRoutes;
    match step {
      case RouterEnvelope(disconnected) => StdioFailuresRouting(s, disconnected);
      case _ =>
    }
  }

  // The invariant

  ghost predicate Bounded(s: Server) {
    && |s.events| <= CHANNEL_CAPACITY && |s.processor.control| <= CHANNEL_CAPACITY
    && |s.outgoing| <= CHANNEL_CAPACITY
    && forall e :: e in s.outgoing ==> SentByHandlers(e)
  }

  lemma BoundedKept(s: Server, step: Step)
    requires Bounded(s) && Enabled(s, step)
    ensures Bounded(After(s, step))
  {
    hide NeedNotWait, Lists, Known, Rewritten, WithoutConnection, AfterSending, Failed;
  }

  ghost predicate Inv(s: Server) {
    && Bounded(s)
    && Pipeline(s.events, s.processor, s.requests)
    && Logs(s.clients, s.requests)
    && Lifecycle(s)
    && AnswersDelivered(s.requests, s.clients, s.dropped)
    && (s.stdio ==> AcceptedKeepRoutes(s.requests, s.processor.routes) && StdioFailures(s.clients, s.dropped))
  }

  lemma StartIsGood(stdio: bool)
    ensures Inv(Start(stdio))
  {
  }

  lemma InvKept(s: Server, step: Step)
    requires Inv(s) && Enabled(s, step)
    ensures Inv(After(s, step)) && After(s, step).stdio == s.stdio
  {
    hide Bounded, Pipeline, Logs, Lifecycle, AnswersDelivered, AcceptedKeepRoutes, StdioFailures;
    BoundedKept(s, step);
    PipelineKept(s, step);
    LogsKept(s, step) by { OutgoingIsByHandlers(s); }
    LifecycleKept(s, step);
    DeliveredKept(s, step);
    if s.stdio {
      AcceptedKeepRoutesKept(s, step);
      StdioFailuresKept(s, step);
    }
    StdioStays(s, step);
    hide After;
  }

  lemma OutgoingIsByHandlers(s: Server)
    requires Bounded(s)
    ensures forall e :: e in s.outgoing ==> SentByHandlers(e)
  {
  }

  lemma StdioStays(s: Server, step: Step)
    requires Enabled(s, step)
    ensures After(s, step).stdio == s.stdio
  {
  }

  /** The invariant holds at the end of every run. */
  lemma {:induction false} InvHolds(s: Server, steps: seq<Step>)
    requires Inv(s) && IsRun(s, steps)
    ensures Inv(End(s, steps)) && End(s, steps).stdio == s.stdio
    decreases |steps|
  {
    hide Inv, Enabled, After;
    if steps != [] {
      InvKept(s, steps[0]);
      InvHolds(After(s, steps[0]), steps[1..]);
    }
  }

  // What it means for the clients

  /** In every run, whatever handlers send: each client request has at most one reply given in its place,
      through its route or as the overload error, in the queue of the client that sent it and with the id
      it was sent with. A reply given in no request's place carries no internal id, so only a handler that
      makes up an id of its own can cause one; AppServerReplies counts replies for handlers that do not. */
  lemma OneReplyPerRequest(stdio: bool, steps: seq<Step>)
    requires IsRun(Start(stdio), steps)
    ensures var s := End(Start(stdio), steps);
            && (forall c, i | c in s.clients && 0 <= i < |s.clients[c].log| && IsReply(s.clients[c].log[i].message) ::
                  match s.clients[c].log[i].cause
                  case ReplyTo(k) => k < |s.requests| && s.requests[k].connection == c
                                     && s.requests[k].id == s.clients[c].log[i].message.id
                  case NoRequest => !IsInternal(s.clients[c].log[i].message.id))
            && (forall c, i, d, j | c in s.clients && 0 <= i < |s.clients[c].log| && s.clients[c].log[i].cause.ReplyTo?
                                    && d in s.clients && 0 <= j < |s.clients[d].log|
                                    && s.clients[c].log[i].cause == s.clients[d].log[j].cause ::
                  c == d && i == j)
  {
    hide IsRun, End;
    StartIsGood(stdio);
    InvHolds(Start(stdio), steps);
    var s := End(Start(stdio), steps);
    assert Logs(s.clients, s.requests);
    hide Inv, Logs;
    forall c, i | c in s.clients && 0 <= i < |s.clients[c].log|
      ensures GoodEntry(s.requests, c, s.clients[c].log[i])
    {
      LoggedEntryIsGood(s.clients, s.requests, c, i);
    }
    forall c, i, d, j | c in s.clients && d in s.clients
                        && 0 <= i < |s.clients[c].log| && 0 <= j < |s.clients[d].log|
                        && s.clients[c].log[i].cause.ReplyTo? && s.clients[c].log[i].cause == s.clients[d].log[j].cause
      ensures c == d && i == j
    {
      assert GoodEntry(s.requests, c, s.clients[c].log[i]) && GoodEntry(s.requests, d, s.clients[d].log[j]);
      OneReplyInLog(s.clients, s.requests, c, i, j);
    }
  }

  lemma LoggedEntryIsGood(clients: map<ConnectionId, Client>, requests: seq<Request>, c: ConnectionId, i: nat)
    requires Logs(clients, requests) && c in clients && i < |clients[c].log|
    ensures GoodEntry(requests, c, clients[c].log[i])
  {
    assert GoodLog(requests, c, clients[c].log);
  }

  lemma OneReplyInLog(clients: map<ConnectionId, Client>, requests: seq<Request>, c: ConnectionId, i: nat, j: nat)
    requires Logs(clients, requests) && c in clients && i < |clients[c].log| && j < |clients[c].log|
    requires clients[c].log[i].cause.ReplyTo? && clients[c].log[i].cause == clients[c].log[j].cause
    ensures i == j
  {
    assert GoodLog(requests, c, clients[c].log);
  }

  /** A reply to a request that has been answered, or whose connection the processor has closed, is
      dropped: no client is sent anything. */
  lemma LateReplyIsDropped(s: Server, c: ConnectionId, ordinal: nat, disconnected: seq<ConnectionId>)
    requires Inv(s) && Enabled(s, RouterEnvelope(disconnected))
    requires s.outgoing[0].Broadcast? && IsReply(s.outgoing[0].message)
    requires s.outgoing[0].message.id == InternalId(c, ordinal)
    requires || c !in s.processor.connections
             || exists k :: 0 <= k < |s.requests| && s.requests[k].stage == Answered(ordinal)
    ensures Rewritten(s.outgoing[0], s.processor.routes) == None
    ensures After(s, RouterEnvelope(disconnected)).clients == s.clients
  {
    hide Lifecycle, AnswersDelivered, AcceptedKeepRoutes, Logs, Bounded, EventsRecorded, Failed, Known, Lists, NeedNotWait;
    var id := InternalId(c, ordinal);
    InternalIdIsInternal(c, ordinal);
    if id in s.processor.routes {
      assert RouteRecorded(s.processor, s.requests, id);
      var route := s.processor.routes[id];
      InternalIdIsInjective(c, ordinal, route.connection, s.requests[route.serial].stage.ordinal);
      if c in s.processor.connections {
        var k :| 0 <= k < |s.requests| && s.requests[k].stage == Answered(ordinal);
        OrdinalsDiffer(s.processor, s.requests, k, route.serial);
      }
    }
  }

  /** The request table, at any point of a run: keys are internal ids with an ordinal given out before,
      and their connections are open; the next request's key is not among them. */
  lemma RequestTable(stdio: bool, steps: seq<Step>, c: ConnectionId)
    requires IsRun(Start(stdio), steps)
    ensures var p := End(Start(stdio), steps).processor;
            && (forall id :: id in p.routes ==>
                  && p.routes[id].connection in p.connections
                  && exists n: nat :: n < p.nextOrdinal && id == InternalId(p.routes[id].connection, n))
            && InternalId(c, p.nextOrdinal) !in p.routes
  {
    hide IsRun, End;
    StartIsGood(stdio);
    InvHolds(Start(stdio), steps);
    var s := End(Start(stdio), steps);
    NewKeyIsNew(s.processor, s.requests, c);
    hide Lifecycle, AnswersDelivered, AcceptedKeepRoutes, Logs, Bounded, EventsRecorded, OrdinalsRecorded;
    forall id | id in s.processor.routes
      ensures exists n: nat :: n < s.processor.nextOrdinal && id == InternalId(s.processor.routes[id].connection, n)
    {
      assert RouteRecorded(s.processor, s.requests, id);
    }
  }

  lemma StepProgress(s: Server, step: Step)
    requires Inv(s) && Enabled(s, step)
    ensures Progress(s.requests, After(s, step).requests)
  {
    if step.RouterEnvelope? {
      AnsweringIsProgress(s, CauseOf(s, s.outgoing[0]));
      RoutingKeepsRequests(s, step.disconnected);
    } else {
      OtherStepsProgress(s, step);
    }
  }

  /** What is settled about a request never changes: one refused as overload is never accepted, one
      answered never answered again. */
  lemma {:induction false} RunProgress(s: Server, steps: seq<Step>)
    requires Inv(s) && IsRun(s, steps)
    ensures Progress(s.requests, End(s, steps).requests)
    decreases |steps|
  {
    hide Inv, Enabled, After;
    if steps != [] {
      var t := After(s, steps[0]);
      InvKept(s, steps[0]);
      StepProgress(s, steps[0]);
      RunProgress(t, steps[1..]);
    }
  }

  /** With stdio, once the processor is done with a connection every request it accepted from it has
      been answered, and every answer has been put into the queue of the client's writer, unless that
      writer is gone. A slow writer loses nothing. */
  lemma EndOfInputLosesNoReply(steps: seq<Step>, c: ConnectionId, k: nat)
    requires IsRun(Start(true), steps)
    requires var s := End(Start(true), steps);
             k < |s.requests| && s.requests[k].connection == c && c !in s.processor.connections
    ensures var s := End(Start(true), steps);
            && !s.requests[k].stage.Accepted?
            && (s.requests[k].stage.Answered? ==> c in s.clients && (s.clients[c].connection.closed || Replied(s.clients[c], k)))
  {
    hide IsRun, End;
    StartIsGood(true);
    InvHolds(Start(true), steps);
    var s := End(Start(true), steps);
    if s.requests[k].stage.Accepted? {
      var id := InternalId(c, s.requests[k].stage.ordinal);
      assert RouteRecorded(s.processor, s.requests, id);
      var route := s.processor.routes[id];
      InternalIdIsInjective(c, s.requests[k].stage.ordinal, route.connection, s.requests[route.serial].stage.ordinal);
    }
  }

  /** The notice of a connection's end reaches the router only when that is so. */
  lemma CloseNoticeComesLast(stdio: bool, steps: seq<Step>, c: ConnectionId)
    requires IsRun(Start(stdio), steps)
    requires Closed(c) in End(Start(stdio), steps).processor.control
    ensures c !in End(Start(stdio), steps).processor.connections
  {
    hide IsRun, End;
    StartIsGood(stdio);
    InvHolds(Start(stdio), steps);
  }

  /** In every run all queues keep within their capacity, and a client's queue is the unread rest of
      what was put into it. */
  lemma QueuesStayBounded(stdio: bool, steps: seq<Step>)
    requires IsRun(Start(stdio), steps)
    ensures var s := End(Start(stdio), steps);
            && |s.events| <= CHANNEL_CAPACITY && |s.processor.control| <= CHANNEL_CAPACITY
            && |s.outgoing| <= CHANNEL_CAPACITY
            && forall c :: c in s.clients ==> QueueIsLogged(s.clients[c])
  {
    hide IsRun, End;
    StartIsGood(stdio);
    InvHolds(Start(stdio), steps);
    hide Pipeline, Lifecycle, AnswersDelivered, AcceptedKeepRoutes, GoodLog;
  }

  // The normal course of a request

  lemma RunCons(s: Server, step: Step, rest: seq<Step>)
    requires Enabled(s, step) && IsRun(After(s, step), rest)
    ensures IsRun(s, [step] + rest) && End(s, [step] + rest) == End(After(s, step), rest)
  {
    hide Enabled, After;
    assert ([step] + rest)[1..] == rest;
  }

  /** A client connects, sends a request and gets the handler's answer, under its own id. */
  function NormalCourse(c: ConnectionId, id: RequestId, result: string): seq<Step> {
    [Connect(c)] + ([Process] + ([RouterControl] + ([Receive(c, id)] + ([Process]
      + ([HandlerSends(Broadcast(Response(InternalId(c, 0), result)))] + ([RouterEnvelope([])] + []))))))
  }

  lemma RequestIsAnswered(c: ConnectionId, id: RequestId, result: string)
    ensures IsRun(Start(false), NormalCourse(c, id, result))
    ensures var s := End(Start(false), NormalCourse(c, id, result));
            && c in s.clients && s.clients[c].log == [Entry(Response(id, result), ReplyTo(0))]
            && s.clients[c].connection.queue == [Response(id, result)]
            && s.requests == [Request(c, id, Answered(0))] && s.processor.routes == map[]
  {
    var s0 := Start(false);
    var s1 := After(s0, Connect(c));
    var s2 := After(s1, Process);
    var s3 := After(s2, RouterControl);
    var s4 := After(s3, Receive(c, id));
    var s5 := After(s4, Process);
    var reply := Broadcast(Response(InternalId(c, 0), result));
    var s6 := After(s5, HandlerSends(reply));
    Answering(s6, c, id, result);
    var s7 := After(s6, RouterEnvelope([]));
    hide Enabled, After;
    RunCons(s6, RouterEnvelope([]), []);
    RunCons(s5, HandlerSends(reply), [RouterEnvelope([])] + []);
    RunCons(s4, Process, [HandlerSends(reply)] + ([RouterEnvelope([])] + []));
    RunCons(s3, Receive(c, id), [Process] + ([HandlerSends(reply)] + ([RouterEnvelope([])] + [])));
    RunCons(s2, RouterControl, [Receive(c, id)] + ([Process] + ([HandlerSends(reply)] + ([RouterEnvelope([])] + []))));
    RunCons(s1, Process, [RouterControl] + ([Receive(c, id)] + ([Process]
            + ([HandlerSends(reply)] + ([RouterEnvelope([])] + [])))));
    RunCons(s0, Connect(c), [Process] + ([RouterControl] + ([Receive(c, id)] + ([Process]
            + ([HandlerSends(reply)] + ([RouterEnvelope([])] + []))))));
  }

  lemma Answering(s: Server, c: ConnectionId, id: RequestId, result: string)
    requires s.outgoing == [Broadcast(Response(InternalId(c, 0), result))] && s.processor.control == []
    requires s.processor.routes == map[InternalId(c, 0) := Route(c, id, 0)]
    requires c in s.clients && s.clients[c] == NewClient(false) && s.outbound == {c}
    requires s.requests == [Request(c, id, Accepted(0))]
    ensures Enabled(s, RouterEnvelope([]))
    ensures var t := After(s, RouterEnvelope([]));
            && c in t.clients && t.clients[c].log == [Entry(Response(id, result), ReplyTo(0))]
            && t.clients[c].connection.queue == [Response(id, result)]
            && t.requests == [Request(c, id, Answered(0))] && t.processor.routes == map[]
  {
    var out := ToConnection(c, Response(id, result));
    assert Rewritten(s.outgoing[0], s.processor.routes) == Some(out);
    assert Known(s)[c] == s.clients[c].connection;
    assert Targets(Known(s), out) == {c} && Failed(Known(s), out) == {};
  }
}
