/** The app-server as a system of steps: transports, processor task and outbound router task, joined by
    bounded queues. One step is one iteration of a loop, or one action of a transport or a handler. */
module AppServer {
  import opened Results
  import opened RequestIds
  import opened OutgoingRouting

  /** What a client sends. `serial` is the position of a request in the record of all requests sent. */
  datatype ClientMessage =
    | ClientRequest(id: RequestId, serial: nat)
    | ClientOther

  datatype Event =
    | ConnectionOpened(connection: ConnectionId)
    | ConnectionClosed(connection: ConnectionId)
    | IncomingMessage(connection: ConnectionId, message: ClientMessage)

  datatype Control = Opened(connection: ConnectionId) | Closed(connection: ConnectionId)

  // The processor task

  datatype ProcessorState = ProcessorState(
    connections: set<ConnectionId>,
    nextOrdinal: nat,
    routes: Routes,
    control: seq<Control>)

  /** One event handled by the processor loop. For a stdio connection's end this is the part after the
      wait for its routes. */
  function Handled(p: ProcessorState, event: Event): ProcessorState {
    match event
    case ConnectionOpened(c) =>
      p.(connections := p.connections + {c}, control := p.control + [Opened(c)])
    case ConnectionClosed(c) =>
      p.(connections := p.connections - {c}, routes := WithoutConnection(p.routes, c),
         control := p.control + [Closed(c)])
    case IncomingMessage(c, ClientRequest(id, serial)) =>
      if c !in p.connections then p
      else p.(routes := p.routes[InternalId(c, p.nextOrdinal) := Route(c, id, serial)],
              nextOrdinal := p.nextOrdinal + 1)
    case IncomingMessage(_, ClientOther) => p
  }

  /** Requests of connection `c` are still waiting for their replies. */
  predicate HasRoutes(routes: Routes, c: ConnectionId) {
    exists id | id in routes :: routes[id].connection == c
  }

  class Processor {
    var connections: set<ConnectionId>
    var nextInternalRequestOrdinal: nat
    const requestRoutes: RequestRoutes
    var control: seq<Control>

    constructor (routes: RequestRoutes)
      ensures requestRoutes == routes && State() == ProcessorState({}, 0, routes.routes, [])
    {
      requestRoutes := routes;
      connections, nextInternalRequestOrdinal, control := {}, 0, [];
    }

    ghost function State(): ProcessorState
      reads this, requestRoutes
    {
      ProcessorState(connections, nextInternalRequestOrdinal, requestRoutes.routes, control)
    }

    /** The body of the processor loop, and the id it hands to the request's handler. */
    method HandleEvent(event: Event) returns (issued: Option<RequestId>)
      requires event.ConnectionOpened? || event.ConnectionClosed? ==> |control| < CHANNEL_CAPACITY
      modifies this, requestRoutes
      ensures State() == Handled(old(State()), event)
      ensures issued == if event.IncomingMessage? && event.message.ClientRequest?
                           && event.connection in old(connections)
                        then Some(InternalId(event.connection, old(nextInternalRequestOrdinal))) else None
    {
      issued := None;
      match event {
        case ConnectionOpened(c) =>
          control := control + [Opened(c)];
          connections := connections + {c};
        case ConnectionClosed(c) =>
          control := control + [Closed(c)];
          connections := connections - {c};
          requestRoutes.RemoveForConnection(c);
        case IncomingMessage(c, ClientRequest(id, serial)) =>
          if c !in connections {
            return;
          }
          var internal := InternalId(c, nextInternalRequestOrdinal);
          nextInternalRequestOrdinal := nextInternalRequestOrdinal + 1;
          requestRoutes.Insert(internal, Route(c, id, serial));
          issued := Some(internal);
        case IncomingMessage(_, ClientOther) =>
      }
    }
  }

  /** Handling the end of a connection twice in a row is handling it once, save for the second notice
      to the outbound router. */
  lemma ClosingTwice(p: ProcessorState, c: ConnectionId)
    ensures var once := Handled(p, ConnectionClosed(c));
            Handled(once, ConnectionClosed(c)) == once.(control := once.control + [Closed(c)])
  {
    var once := Handled(p, ConnectionClosed(c));
    assert once.connections - {c} == once.connections;
    assert WithoutConnection(once.routes, c) == once.routes;
  }

  // The whole system, with a record of what happened

  /** What became of a client request. */
  datatype Stage =
    | Queued             // waiting in the event queue
    | Refused            // the event queue was full
    | Ignored            // its connection was not known any more
    | Accepted(ordinal: nat)  // handed to a handler under an internal id
    | Answered(ordinal: nat)  // a reply under that id has been taken up by the router

  datatype Request = Request(connection: ConnectionId, id: RequestId, stage: Stage)

  /** Why a message was put into a client's queue. */
  datatype Cause = ReplyTo(serial: nat) | NoRequest

  datatype Entry = Entry(message: OutgoingMessage, cause: Cause)

  /** A client: its connection, the record of everything put into its queue, how much of that its writer
      has taken out, and whether its reader is still at work. */
  datatype Client = Client(connection: Connection, log: seq<Entry>, taken: nat, reading: bool)

  datatype Server = Server(
    stdio: bool,
    events: seq<Event>,
    processor: ProcessorState,
    closing: Option<ConnectionId>,     // the stdio connection whose routes the processor waits for
    outgoing: seq<Envelope>,
    outbound: set<ConnectionId>,       // the connections the outbound router knows
    pendingClosed: seq<ConnectionId>,
    clients: map<ConnectionId, Client>,
    requests: seq<Request>,            // every request ever sent, in order of arrival
    announced: set<ConnectionId>,         // the connections the processor has been told of
    dropped: set<ConnectionId>)        // the connections whose writer failed the router

  function Start(stdio: bool): Server {
    Server(stdio, [], ProcessorState({}, 0, map[], []), None, [], {}, [], map[], [], {}, {})
  }

  datatype Step =
    | Connect(connection: ConnectionId)
    | Receive(connection: ConnectionId, id: RequestId)
    | ReceiveOther(connection: ConnectionId)
    | Hangup(connection: ConnectionId)
    | WriterTakes(connection: ConnectionId)
    | WriterStops(connection: ConnectionId)
    | Initialize(connection: ConnectionId, optedOut: set<string>)
    | Process
    | FinishClosing
    | HandlerSends(envelope: Envelope)
    | RouterControl
    | RouterEnvelope(disconnected: seq<ConnectionId>)
    | RouterReportsClosed

  // Transports

  function NewClient(stdio: bool): Client {
    Client(Connection([], false, !stdio, false, {}), [], 0, true)
  }

  /** The request is in the event queue, or, when that is full, refused with an error put directly into
      the client's queue, provided that is open and has room. */
  function Received(s: Server, c: ConnectionId, id: RequestId): Server
    requires c in s.clients
  {
    var serial := |s.requests|;
    if |s.events| < CHANNEL_CAPACITY then
      s.(events := s.events + [IncomingMessage(c, ClientRequest(id, serial))],
         requests := s.requests + [Request(c, id, Queued)])
    else
      var refused := s.(requests := s.requests + [Request(c, id, Refused)]);
      var client := s.clients[c];
      if client.connection.closed || IsFull(client.connection) then refused
      else refused.(clients := s.clients[c := Logged(client, Error(id, OVERLOADED_ERROR_CODE), ReplyTo(serial))])
  }

  function Logged(client: Client, m: OutgoingMessage, cause: Cause): Client {
    client.(connection := Pushed(client.connection, m), log := client.log + [Entry(m, cause)])
  }

  // Processor

  /** What becomes of the request behind an event the processor handles. */
  function RequestsAfter(s: Server, event: Event): seq<Request> {
    if event.IncomingMessage? && event.message.ClientRequest? && event.message.serial < |s.requests| then
      var serial := event.message.serial;
      s.requests[serial := s.requests[serial].(
        stage := if event.connection in s.processor.connections then Accepted(s.processor.nextOrdinal) else Ignored)]
    else s.requests
  }

  function Processed(s: Server): Server
    requires s.events != []
  {
    var event := s.events[0];
    var rest := s.(events := s.events[1..]);
    if s.stdio && event.ConnectionClosed? then rest.(closing := Some(event.connection))
    else rest.(processor := Handled(s.processor, event),
               requests := RequestsAfter(s, event),
               announced := if event.ConnectionOpened? then s.announced + {event.connection} else s.announced)
  }

  // Outbound router

  ghost function Known(s: Server): Connections {
    map c | c in s.outbound && c in s.clients :: s.clients[c].connection
  }

  /** A reply the router takes up answers the request whose route it uses. */
  function CauseOf(s: Server, envelope: Envelope): Cause {
    if envelope.Broadcast? && IsReply(envelope.message) && envelope.message.id in s.processor.routes then
      ReplyTo(s.processor.routes[envelope.message.id].serial)
    else NoRequest
  }

  function AnsweredBy(s: Server, cause: Cause): seq<Request> {
    if cause.ReplyTo? && cause.serial < |s.requests| && s.requests[cause.serial].stage.Accepted? then
      s.requests[cause.serial := s.requests[cause.serial].(stage := Answered(s.requests[cause.serial].stage.ordinal))]
    else s.requests
  }

  ghost function AfterSending(s: Server, envelope: Envelope, cause: Cause): map<ConnectionId, Client>
    requires NeedNotWait(Known(s), envelope)
  {
    map c | c in s.clients ::
      if c in Targets(Known(s), envelope) && c !in Failed(Known(s), envelope)
      then Logged(s.clients[c], envelope.message, cause) else s.clients[c]
  }

  /** The envelope at the front is rewritten and, unless dropped, sent. */
  ghost function RoutedOut(s: Server, disconnected: seq<ConnectionId>): Server
    requires s.outgoing != []
    requires Rewritten(s.outgoing[0], s.processor.routes).Some? ==>
               NeedNotWait(Known(s), Rewritten(s.outgoing[0], s.processor.routes).value)
  {
    var envelope := s.outgoing[0];
    var cause := CauseOf(s, envelope);
    var t := s.(outgoing := s.outgoing[1..],
                processor := s.processor.(routes := RoutesAfter(envelope, s.processor.routes)),
                requests := AnsweredBy(s, cause));
    match Rewritten(envelope, s.processor.routes)
    case None => t
    case Some(out) =>
      t.(clients := AfterSending(s, out, cause),
         outbound := s.outbound - Failed(Known(s), out),
         dropped := s.dropped + Failed(Known(s), out),
         pendingClosed := s.pendingClosed + disconnected)
  }

  function Controlled(s: Server): Server
    requires s.processor.control != []
  {
    var control := s.processor.control[0];
    s.(processor := s.processor.(control := s.processor.control[1..]),
       outbound := if control.Opened? then s.outbound + {control.connection} else s.outbound - {control.connection})
  }

  /** What handlers send: replies always as broadcasts, whatever their id and however often. */
  predicate SentByHandlers(envelope: Envelope) {
    envelope.ToConnection? ==> !IsReply(envelope.message)
  }

  ghost predicate Enabled(s: Server, step: Step) {
    match step
    case Connect(c) =>
      c !in s.clients && |s.events| < CHANNEL_CAPACITY && (s.stdio ==> c == 0)
    case Receive(c, _) => c in s.clients && s.clients[c].reading
    case ReceiveOther(c) => c in s.clients && s.clients[c].reading && |s.events| < CHANNEL_CAPACITY
    case Hangup(c) => c in s.clients && s.clients[c].reading && |s.events| < CHANNEL_CAPACITY
    case WriterTakes(c) => c in s.clients && s.clients[c].connection.queue != []
    case WriterStops(c) => c in s.clients
    case Initialize(c, _) => c in s.clients
    case Process =>
      && s.closing.None? && s.events != []
      && (s.events[0].IncomingMessage? || |s.processor.control| < CHANNEL_CAPACITY)
    case FinishClosing =>
      && s.closing.Some? && !HasRoutes(s.processor.routes, s.closing.value)
      && |s.processor.control| < CHANNEL_CAPACITY
    case HandlerSends(envelope) => SentByHandlers(envelope) && |s.outgoing| < CHANNEL_CAPACITY
    case RouterControl => s.processor.control != []
    case RouterEnvelope(disconnected) =>
      && s.processor.control == [] && s.outgoing != []
      && (match Rewritten(s.outgoing[0], s.processor.routes)
          case None => disconnected == []
          case Some(out) => NeedNotWait(Known(s), out) && Lists(disconnected, Failed(Known(s), out)))
    case RouterReportsClosed => s.pendingClosed != [] && |s.events| < CHANNEL_CAPACITY
  }

  ghost function After(s: Server, step: Step): Server
    requires Enabled(s, step)
  {
    match step
    case Connect(c) =>
      s.(clients := s.clients[c := NewClient(s.stdio)], events := s.events + [ConnectionOpened(c)])
    case Receive(c, id) => Received(s, c, id)
    case ReceiveOther(c) => s.(events := s.events + [IncomingMessage(c, ClientOther)])
    case Hangup(c) =>
      var client := s.clients[c];
      s.(events := s.events + [ConnectionClosed(c)],
         clients := s.clients[c := client.(reading := false,
                                           connection := client.connection.(closed := client.connection.closed || !s.stdio))])
    case WriterTakes(c) =>
      var client := s.clients[c];
      s.(clients := s.clients[c := client.(taken := client.taken + 1,
                                           connection := client.connection.(queue := client.connection.queue[1..]))])
    case WriterStops(c) =>
      var client := s.clients[c];
      s.(clients := s.clients[c := client.(connection := client.connection.(closed := true))])
    case Initialize(c, optedOut) =>
      var client := s.clients[c];
      s.(clients := s.clients[c := client.(connection := client.connection.(initialized := true, optedOut := optedOut))])
    case Process => Processed(s)
    case FinishClosing =>
      s.(closing := None, processor := Handled(s.processor, ConnectionClosed(s.closing.value)))
    case HandlerSends(envelope) => s.(outgoing := s.outgoing + [envelope])
    case RouterControl => Controlled(s)
    case RouterEnvelope(disconnected) => RoutedOut(s, disconnected)
    case RouterReportsClosed =>
      s.(pendingClosed := s.pendingClosed[1..], events := s.events + [ConnectionClosed(s.pendingClosed[0])])
  }

  /** `steps` can be taken one after the other from `s` on. */
  ghost predicate IsRun(s: Server, steps: seq<Step>)
    decreases |steps|
  {
    steps == [] || (Enabled(s, steps[0]) && IsRun(After(s, steps[0]), steps[1..]))
  }

  ghost function End(s: Server, steps: seq<Step>): Server
    requires IsRun(s, steps)
    decreases |steps|
  {
    if steps == [] then s else End(After(s, steps[0]), steps[1..])
  }
}
