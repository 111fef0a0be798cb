/** What holds after every step of every run of the app-server. */
module AppServerSafety {
  import opened RequestIds
  import opened OutgoingRouting
  import opened AppServer

  // Requests on their way: queued, accepted under an internal id, or done with

  predicate IsRequestEvent(event: Event) {
    event.IncomingMessage? && event.message.ClientRequest?
  }

  /** A queued request is recorded as such, and is in the queue once. */
  ghost predicate EventsRecorded(events: seq<Event>, requests: seq<Request>) {
    && (forall i :: 0 <= i < |events| && IsRequestEvent(events[i]) ==>
          && events[i].message.serial < |requests|
          && requests[events[i].message.serial] == Request(events[i].connection, events[i].message.id, Queued))
    && (forall i, j :: 0 <= i < j < |events| && IsRequestEvent(events[i]) && IsRequestEvent(events[j]) ==>
          events[i].message.serial != events[j].message.serial)
  }

  /** A route's key is the internal id of the request it stands for, and names a connection still open. */
  ghost predicate RouteRecorded(p: ProcessorState, requests: seq<Request>, id: RequestId)
    requires id in p.routes
  {
    var route := p.routes[id];
    && route.serial < |requests|
    && requests[route.serial].connection == route.connection
    && requests[route.serial].id == route.originalId
    && requests[route.serial].stage.Accepted?
    && id == InternalId(route.connection, requests[route.serial].stage.ordinal)
    && requests[route.serial].stage.ordinal < p.nextOrdinal
    && route.connection in p.connections
  }

  ghost predicate RoutesRecorded(p: ProcessorState, requests: seq<Request>) {
    forall id :: id in p.routes ==> RouteRecorded(p, requests, id)
  }

  predicate HasOrdinal(stage: Stage) {
    stage.Accepted? || stage.Answered?
  }

  /** No two requests share an ordinal. */
  ghost predicate OrdinalsRecorded(p: ProcessorState, requests: seq<Request>) {
    && (forall k :: 0 <= k < |requests| && HasOrdinal(requests[k].stage) ==> requests[k].stage.ordinal < p.nextOrdinal)
    && (forall j, k :: 0 <= j < k < |requests| && HasOrdinal(requests[j].stage) && HasOrdinal(requests[k].stage) ==>
          requests[j].stage.ordinal != requests[k].stage.ordinal)
  }

  ghost predicate Pipeline(events: seq<Event>, p: ProcessorState, requests: seq<Request>) {
    EventsRecorded(events, requests) && RoutesRecorded(p, requests) && OrdinalsRecorded(p, requests)
  }

  lemma PipelineQueues(events: seq<Event>, p: ProcessorState, requests: seq<Request>, event: Event)
    requires Pipeline(events, p, requests) && !IsRequestEvent(event)
    ensures Pipeline(events + [event], p, requests)
  {
  }

  lemma PipelineReceives(events: seq<Event>, p: ProcessorState, requests: seq<Request>, c: ConnectionId, id: RequestId)
    requires Pipeline(events, p, requests)
    ensures Pipeline(events + [IncomingMessage(c, ClientRequest(id, |requests|))], p, requests + [Request(c, id, Queued)])
    ensures Pipeline(events, p, requests + [Request(c, id, Refused)])
  {
  }

  /** Forgetting routes, or other changes that keep every route's connection open, break nothing. */
  lemma PipelineForgets(events: seq<Event>, p: ProcessorState, q: ProcessorState, requests: seq<Request>)
    requires Pipeline(events, p, requests) && q.nextOrdinal == p.nextOrdinal
    requires forall id :: id in q.routes ==> id in p.routes && q.routes[id] == p.routes[id]
                                             && q.routes[id].connection in q.connections
    ensures Pipeline(events, q, requests)
  {
  }

  lemma PipelineDequeues(events: seq<Event>, p: ProcessorState, requests: seq<Request>)
    requires Pipeline(events, p, requests) && events != []
    ensures Pipeline(events[1..], p, requests)
    ensures IsRequestEvent(events[0]) ==>
              forall i :: 0 <= i < |events[1..]| && IsRequestEvent(events[1..][i]) ==>
                events[1..][i].message.serial != events[0].message.serial
  {
  }

  /** A request that has been accepted has a key no other route has. */
  lemma NewKeyIsNew(p: ProcessorState, requests: seq<Request>, c: ConnectionId)
    requires RoutesRecorded(p, requests)
    ensures InternalId(c, p.nextOrdinal) !in p.routes
  {
    var id := InternalId(c, p.nextOrdinal);
    if id in p.routes {
      assert RouteRecorded(p, requests, id);
      var route := p.routes[id];
      InternalIdIsInjective(c, p.nextOrdinal, route.connection, requests[route.serial].stage.ordinal);
    }
  }

  /** The routes of different keys belong to different requests. */
  lemma RoutesOfOneRequest(p: ProcessorState, requests: seq<Request>, a: RequestId, b: RequestId)
    requires RoutesRecorded(p, requests) && a in p.routes && b in p.routes
    requires p.routes[a].serial == p.routes[b].serial
    ensures a == b
  {
    assert RouteRecorded(p, requests, a) && RouteRecorded(p, requests, b);
  }

  lemma PipelineAccepts(events: seq<Event>, p: ProcessorState, requests: seq<Request>, c: ConnectionId, id: RequestId, serial: nat)
    requires Pipeline(events, p, requests) && c in p.connections
    requires serial < |requests| && requests[serial] == Request(c, id, Queued)
    requires forall i :: 0 <= i < |events| && IsRequestEvent(events[i]) ==> events[i].message.serial != serial
    ensures Pipeline(events, Handled(p, IncomingMessage(c, ClientRequest(id, serial))),
                     requests[serial := requests[serial].(stage := Accepted(p.nextOrdinal))])
  {
    var q := Handled(p, IncomingMessage(c, ClientRequest(id, serial)));
    var after := requests[serial := requests[serial].(stage := Accepted(p.nextOrdinal))];
    NewKeyIsNew(p, requests, c);
    forall k | k in q.routes ensures RouteRecorded(q, after, k) {
      if k != InternalId(c, p.nextOrdinal) {
        assert RouteRecorded(p, requests, k);
      }
    }
  }

  lemma PipelineIgnores(events: seq<Event>, p: ProcessorState, requests: seq<Request>, serial: nat)
    requires Pipeline(events, p, requests)
    requires serial < |requests| && requests[serial].stage.Queued?
    requires forall i :: 0 <= i < |events| && IsRequestEvent(events[i]) ==> events[i].message.serial != serial
    ensures Pipeline(events, p, requests[serial := requests[serial].(stage := Ignored)])
  {
    var after := requests[serial := requests[serial].(stage := Ignored)];
    forall k | k in p.routes ensures RouteRecorded(p, after, k) {
      assert RouteRecorded(p, requests, k);
    }
  }

  lemma PipelineAnswers(events: seq<Event>, p: ProcessorState, requests: seq<Request>, id: RequestId)
    requires Pipeline(events, p, requests) && id in p.routes
    ensures var serial := p.routes[id].serial;
            && serial < |requests| && requests[serial].stage.Accepted?
            && Pipeline(events, p.(routes := p.routes - {id}),
                        requests[serial := requests[serial].(stage := Answered(requests[serial].stage.ordinal))])
  {
    assert RouteRecorded(p, requests, id);
    var serial := p.routes[id].serial;
    var q := p.(routes := p.routes - {id});
    var after := requests[serial := requests[serial].(stage := Answered(requests[serial].stage.ordinal))];
    forall k | k in q.routes ensures RouteRecorded(q, after, k) {
      assert RouteRecorded(p, requests, k);
      if p.routes[k].serial == serial {
        RoutesOfOneRequest(p, requests, id, k);
      }
    }
  }

  lemma PipelineProcesses(s: Server)
    requires Pipeline(s.events, s.processor, s.requests) && s.events != []
    ensures Pipeline(Processed(s).events, Processed(s).processor, Processed(s).requests)
  {
    var event := s.events[0];
    PipelineDequeues(s.events, s.processor, s.requests);
    match event {
      case ConnectionOpened(c) =>
        PipelineForgets(s.events[1..], s.processor, Handled(s.processor, event), s.requests);
      case ConnectionClosed(c) =>
        ClosingForgets(s.events[1..], s.processor, s.requests, c);
      case IncomingMessage(c, ClientRequest(id, serial)) =>
        if c in s.processor.connections {
          PipelineAccepts(s.events[1..], s.processor, s.requests, c, id, serial);
        } else {
          PipelineIgnores(s.events[1..], s.processor, s.requests, serial);
        }
      case IncomingMessage(_, ClientOther) =>
    }
  }

  lemma ClosingForgets(events: seq<Event>, p: ProcessorState, requests: seq<Request>, c: ConnectionId)
    requires Pipeline(events, p, requests)
    ensures Pipeline(events, Handled(p, ConnectionClosed(c)), requests)
  {
    var q := Handled(p, ConnectionClosed(c));
    forall id | id in q.routes ensures id in p.routes && q.routes[id] == p.routes[id] && q.routes[id].connection in q.connections {
      assert RouteRecorded(p, requests, id);
    }
    PipelineForgets(events, p, q, requests);
  }

  lemma PipelineRoutes(s: Server, disconnected: seq<ConnectionId>)
    requires Pipeline(s.events, s.processor, s.requests) && Enabled(s, RouterEnvelope(disconnected))
    ensures var t := RoutedOut(s, disconnected); Pipeline(t.events, t.processor, t.requests)
  {
    hide Pipeline, Failed, Targets, AfterSending, NeedNotWait, Known, Lists;
    var envelope := s.outgoing[0];
    if envelope.Broadcast? && IsReply(envelope.message) {
      if envelope.message.id in s.processor.routes {
        PipelineAnswers(s.events, s.processor, s.requests, envelope.message.id);
      } else {
        assert s.processor.routes - {envelope.message.id} == s.processor.routes;
      }
    }
  }

  lemma PipelineKept(s: Server, step: Step)
    requires Pipeline(s.events, s.processor, s.requests) && Enabled(s, step)
    ensures var t := After(s, step); Pipeline(t.events, t.processor, t.requests)
  {
    hide Pipeline, RoutedOut, Processed, NeedNotWait, Lists, Known;
    match step {
      case Connect(c) => PipelineQueues(s.events, s.processor, s.requests, ConnectionOpened(c));
      case Receive(c, id) => PipelineReceives(s.events, s.processor, s.requests, c, id);
      case ReceiveOther(c) => PipelineQueues(s.events, s.processor, s.requests, IncomingMessage(c, ClientOther));
      case Hangup(c) => PipelineQueues(s.events, s.processor, s.requests, ConnectionClosed(c));
      case Process => PipelineProcesses(s);
      case FinishClosing => ClosingForgets(s.events, s.processor, s.requests, s.closing.value);
      case RouterControl => ControlKeepsPipeline(s);
      case RouterEnvelope(disconnected) => PipelineRoutes(s, disconnected);
      case RouterReportsClosed =>
        PipelineQueues(s.events, s.processor, s.requests, ConnectionClosed(s.pendingClosed[0]));
      case WriterTakes(_) =>
      case WriterStops(_) =>
      case Initialize(_, _) =>
      case HandlerSends(_) =>
    }
  }

  lemma ControlKeepsPipeline(s: Server)
    requires Pipeline(s.events, s.processor, s.requests) && s.processor.control != []
    ensures Pipeline(s.events, Controlled(s).processor, s.requests)
  {
    var p, q := s.processor, Controlled(s).processor;
    forall id | id in q.routes ensures q.routes[id].connection in q.connections {
      assert RouteRecorded(p, s.requests, id);
    }
    PipelineForgets(s.events, p, q, s.requests);
  }

  // What has been put into the clients' queues

  function Messages(log: seq<Entry>): seq<OutgoingMessage> {
    seq(|log|, i requires 0 <= i < |log| => log[i].message)
  }

  /** A reply stands in the queue of the client that sent the request, under that request's own id; or
      it answers no request of a client, and then its id is not one the server made up. */
  ghost predicate GoodEntry(requests: seq<Request>, c: ConnectionId, e: Entry) {
    match e.cause
    case ReplyTo(k) =>
      && k < |requests| && requests[k].connection == c
      && IsReply(e.message) && e.message.id == requests[k].id
      && (requests[k].stage.Answered?
          || (requests[k].stage.Refused? && e.message == Error(requests[k].id, OVERLOADED_ERROR_CODE)))
    case NoRequest => IsReply(e.message) ==> !IsInternal(e.message.id)
  }

  ghost predicate OneReplyEach(log: seq<Entry>) {
    forall i, j :: 0 <= i < j < |log| && log[i].cause.ReplyTo? ==> log[i].cause != log[j].cause
  }

  ghost predicate GoodLog(requests: seq<Request>, c: ConnectionId, log: seq<Entry>) {
    OneReplyEach(log) && forall e :: e in log ==> GoodEntry(requests, c, e)
  }

  /** The queue holds what has been put in and not been taken out, within its capacity. */
  ghost predicate QueueIsLogged(client: Client) {
    && client.taken <= |client.log|
    && client.connection.queue == Messages(client.log)[client.taken..]
    && |client.connection.queue| <= CHANNEL_CAPACITY
  }

  ghost predicate Logs(clients: map<ConnectionId, Client>, requests: seq<Request>) {
    forall c :: c in clients ==> GoodLog(requests, c, clients[c].log) && QueueIsLogged(clients[c])
  }

  predicate Settled(stage: Stage) {
    stage.Refused? || stage.Answered?
  }

  /** The record of requests only grows, and what is settled stays. */
  ghost predicate Progress(a: seq<Request>, b: seq<Request>) {
    && |a| <= |b|
    && forall k :: 0 <= k < |a| ==>
         && b[k].connection == a[k].connection && b[k].id == a[k].id
         && (Settled(a[k].stage) ==> b[k].stage == a[k].stage)
  }

  lemma GoodLogStays(a: seq<Request>, b: seq<Request>, c: ConnectionId, log: seq<Entry>)
    requires GoodLog(a, c, log) && Progress(a, b)
    ensures GoodLog(b, c, log)
  {
    forall e | e in log ensures GoodEntry(b, c, e) {
      assert GoodEntry(a, c, e);
    }
  }

  lemma LogsStay(clients: map<ConnectionId, Client>, a: seq<Request>, b: seq<Request>)
    requires Logs(clients, a) && Progress(a, b)
    ensures Logs(clients, b)
  {
    hide GoodLog, QueueIsLogged, Progress;
    forall c | c in clients ensures GoodLog(b, c, clients[c].log) {
      GoodLogStays(a, b, c, clients[c].log);
    }
  }

  /** One more entry: for a request not settled before, or for none. */
  lemma LogGrows(a: seq<Request>, b: seq<Request>, c: ConnectionId, client: Client, m: OutgoingMessage, cause: Cause)
    requires GoodLog(a, c, client.log) && QueueIsLogged(client) && Progress(a, b)
    requires !IsFull(client.connection)
    requires GoodEntry(b, c, Entry(m, cause))
    requires cause.ReplyTo? && cause.serial < |a| ==> !Settled(a[cause.serial].stage)
    ensures GoodLog(b, c, Logged(client, m, cause).log) && QueueIsLogged(Logged(client, m, cause))
  {
    GoodLogStays(a, b, c, client.log);
    var log := client.log + [Entry(m, cause)];
    forall i, j | 0 <= i < j < |log| && log[i].cause.ReplyTo? ensures log[i].cause != log[j].cause {
      assert GoodEntry(a, c, client.log[i]);
    }
    assert Messages(log)[client.taken..] == Messages(client.log)[client.taken..] + [m];
  }

  /** A client whose log and queue are as they were. */
  lemma LogsOfSameLog(clients: map<ConnectionId, Client>, requests: seq<Request>, c: ConnectionId, client: Client)
    requires Logs(clients, requests) && c in clients
    requires client.log == clients[c].log && client.taken == clients[c].taken
    requires client.connection.queue == clients[c].connection.queue
    ensures Logs(clients[c := client], requests)
  {
  }

  lemma WriterTakesOne(clients: map<ConnectionId, Client>, requests: seq<Request>, c: ConnectionId)
    requires Logs(clients, requests) && c in clients && clients[c].connection.queue != []
    ensures var client := clients[c];
            Logs(clients[c := client.(taken := client.taken + 1,
                                      connection := client.connection.(queue := client.connection.queue[1..]))], requests)
  {
    hide GoodLog;
    var client := clients[c];
    assert QueueIsLogged(client);
    assert Messages(client.log)[client.taken..][1..] == Messages(client.log)[client.taken + 1..];
  }

  lemma LogsReceive(s: Server, c: ConnectionId, id: RequestId)
    requires Logs(s.clients, s.requests) && c in s.clients
    ensures Logs(Received(s, c, id).clients, Received(s, c, id).requests)
  {
    hide GoodLog, QueueIsLogged;
    var t := Received(s, c, id);
    LogsStay(s.clients, s.requests, t.requests);
    if t.clients != s.clients {
      LogGrows(s.requests, t.requests, c, s.clients[c], Error(id, OVERLOADED_ERROR_CODE), ReplyTo(|s.requests|));
    }
  }

  // Where the router sends an envelope

  /** What goes out for an envelope, and why, fits each of its targets. */
  lemma EnvelopeFits(s: Server, envelope: Envelope, c: ConnectionId)
    requires Pipeline(s.events, s.processor, s.requests) && SentByHandlers(envelope)
    requires Rewritten(envelope, s.processor.routes).Some?
    requires IsTarget(Known(s), Rewritten(envelope, s.processor.routes).value, c)
    ensures var cause := CauseOf(s, envelope);
            && GoodEntry(AnsweredBy(s, cause), c, Entry(Rewritten(envelope, s.processor.routes).value.message, cause))
            && (cause.ReplyTo? ==> cause.serial < |s.requests| && s.requests[cause.serial].stage.Accepted?)
  {
    hide Known, Skips, EventsRecorded, OrdinalsRecorded;
    if envelope.Broadcast? && IsReply(envelope.message) && envelope.message.id in s.processor.routes {
      assert RouteRecorded(s.processor, s.requests, envelope.message.id);
    }
  }

  lemma AnsweringIsProgress(s: Server, cause: Cause)
    ensures Progress(s.requests, AnsweredBy(s, cause))
  {
  }

  lemma LogsRouteTo(s: Server, out: Envelope, cause: Cause, after: seq<Request>)
    requires Logs(s.clients, s.requests) && NeedNotWait(Known(s), out) && Progress(s.requests, after)
    requires forall c :: IsTarget(Known(s), out, c) ==> GoodEntry(after, c, Entry(out.message, cause))
    requires cause.ReplyTo? && cause.serial < |s.requests| ==> !Settled(s.requests[cause.serial].stage)
    ensures Logs(AfterSending(s, out, cause), after)
  {
    hide GoodLog, QueueIsLogged, GoodEntry, Progress, IsTarget;
    LogsStay(s.clients, s.requests, after);
    forall c | c in s.clients && c in Targets(Known(s), out) && c !in Failed(Known(s), out)
      ensures GoodLog(after, c, Logged(s.clients[c], out.message, cause).log)
      ensures QueueIsLogged(Logged(s.clients[c], out.message, cause))
    {
      LogGrows(s.requests, after, c, s.clients[c], out.message, cause);
    }
  }

  lemma LogsRoute(s: Server, disconnected: seq<ConnectionId>)
    requires Pipeline(s.events, s.processor, s.requests) && Logs(s.clients, s.requests)
    requires Enabled(s, RouterEnvelope(disconnected)) && SentByHandlers(s.outgoing[0])
    ensures Logs(RoutedOut(s, disconnected).clients, RoutedOut(s, disconnected).requests)
  {
    hide Pipeline, Logs, GoodEntry, Progress, AfterSending, Failed, Lists, Known, IsTarget;
    var envelope := s.outgoing[0];
    var cause := CauseOf(s, envelope);
    AnsweringIsProgress(s, cause);
    match Rewritten(envelope, s.processor.routes) {
      case None =>
        LogsStay(s.clients, s.requests, AnsweredBy(s, cause));
      case Some(out) =>
        forall c | IsTarget(Known(s), out, c) ensures GoodEntry(AnsweredBy(s, cause), c, Entry(out.message, cause)) {
          EnvelopeFits(s, envelope, c);
        }
        CauseIsAccepted(s, envelope);
        LogsRouteTo(s, out, cause, AnsweredBy(s, cause));
    }
  }

  lemma CauseIsAccepted(s: Server, envelope: Envelope)
    requires Pipeline(s.events, s.processor, s.requests)
    ensures var cause := CauseOf(s, envelope);
            cause.ReplyTo? ==> cause.serial < |s.requests| && s.requests[cause.serial].stage.Accepted?
  {
    if CauseOf(s, envelope).ReplyTo? {
      assert RouteRecorded(s.processor, s.requests, envelope.message.id);
    }
  }

  lemma ProcessingIsProgress(s: Server)
    requires Pipeline(s.events, s.processor, s.requests) && s.events != []
    ensures Progress(s.requests, Processed(s).requests)
  {
  }

  lemma LogsKept(s: Server, step: Step)
    requires Pipeline(s.events, s.processor, s.requests) && Logs(s.clients, s.requests)
    requires Enabled(s, step) && forall e :: e in s.outgoing ==> SentByHandlers(e)
    ensures Logs(After(s, step).clients, After(s, step).requests)
  {
    hide Pipeline, RoutedOut, Processed, NeedNotWait, Lists, Known, Logs, Progress, Received;
    match step {
      case Connect(c) => NewClientLogs(s.clients, s.requests, c, s.stdio);
      case Receive(c, id) => LogsReceive(s, c, id);
      case Hangup(c) =>
        var client := s.clients[c];
        LogsOfSameLog(s.clients, s.requests, c,
                      client.(reading := false, connection := client.connection.(closed := client.connection.closed || !s.stdio)));
      case WriterTakes(c) => WriterTakesOne(s.clients, s.requests, c);
      case WriterStops(c) =>
        LogsOfSameLog(s.clients, s.requests, c, s.clients[c].(connection := s.clients[c].connection.(closed := true)));
      case Initialize(c, optedOut) =>
        LogsOfSameLog(s.clients, s.requests, c,
                      s.clients[c].(connection := s.clients[c].connection.(initialized := true, optedOut := optedOut)));
      case Process =>
        ProcessingKeepsClients(s);
        ProcessingIsProgress(s);
        LogsStay(s.clients, s.requests, Processed(s).requests);
      case RouterEnvelope(disconnected) =>
        assert s.outgoing[0] in s.outgoing;
        LogsRoute(s, disconnected);
      case ReceiveOther(_) =>
      case FinishClosing =>
      case HandlerSends(_) =>
      case RouterControl =>
      case RouterReportsClosed =>
    }
  }

  lemma ProcessingKeepsClients(s: Server)
    requires s.events != []
    ensures Processed(s).clients == s.clients
  {
  }

  lemma NewClientLogs(clients: map<ConnectionId, Client>, requests: seq<Request>, c: ConnectionId, stdio: bool)
    requires Logs(clients, requests)
    ensures Logs(clients[c := NewClient(stdio)], requests)
  {
    var client := NewClient(stdio);
    assert Messages(client.log)[client.taken..] == [];
    assert GoodLog(requests, c, client.log) && QueueIsLogged(client);
  }
}
