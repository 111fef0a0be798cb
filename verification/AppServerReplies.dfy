/** Two stronger results on replies: how many a client is sent under each id when handlers answer as the
    program's do, and what has become of every request when a stdio client's input has ended. */
module AppServerReplies {
  import opened Results
  import opened RequestIds
  import opened OutgoingRouting
  import opened AppServer
  import opened AppServerSafety
  import opened AppServerRuns

  // Handlers that answer under the ids they were given

  /** Handlers know no other id of a request than the internal one, so all their replies are under such
      an id; which one, and how often, is left open. */
  ghost predicate RepliesInternally(steps: seq<Step>) {
    forall step :: step in steps && step.HandlerSends? && IsReply(step.envelope.message) ==>
      IsInternal(step.envelope.message.id)
  }

  ghost predicate InternalReply(e: Envelope) {
    IsReply(e.message) ==> e.Broadcast? && IsInternal(e.message.id)
  }

  ghost predicate AllInternal(outgoing: seq<Envelope>) {
    forall e :: e in outgoing ==> InternalReply(e)
  }

  /** Every reply in the log answers a recorded request. */
  ghost predicate OnlyAnswers(log: seq<Entry>) {
    forall e :: e in log && IsReply(e.message) ==> e.cause.ReplyTo?
  }

  ghost predicate AllAnswers(clients: map<ConnectionId, Client>) {
    forall c :: c in clients ==> OnlyAnswers(clients[c].log)
  }

  lemma AnswersRouting(s: Server, disconnected: seq<ConnectionId>)
    requires AllInternal(s.outgoing) && AllAnswers(s.clients) && Enabled(s, RouterEnvelope(disconnected))
    ensures AllAnswers(RoutedOut(s, disconnected).clients)
  {
    hide Targets, Failed, Lists, NeedNotWait, Known, IsInternal;
    var envelope := s.outgoing[0];
    assert InternalReply(envelope);
  }

  lemma AnswersKept(s: Server, step: Step)
    requires AllInternal(s.outgoing) && AllAnswers(s.clients) && Enabled(s, step)
    requires step.HandlerSends? ==> InternalReply(step.envelope)
    ensures AllInternal(After(s, step).outgoing) && AllAnswers(After(s, step).clients)
  {
    hide InternalReply, NeedNotWait, Lists, Known, Rewritten, AfterSending, Failed;
    match step {
      case RouterEnvelope(disconnected) =>
        AnswersRouting(s, disconnected);
        hide AllAnswers;
      case _ =>
    }
  }

  lemma {:induction false} AnswersHold(s: Server, steps: seq<Step>)
    requires AllInternal(s.outgoing) && AllAnswers(s.clients) && IsRun(s, steps) && RepliesInternally(steps)
    ensures AllAnswers(End(s, steps).clients)
    decreases |steps|
  {
    hide AllInternal, AllAnswers, After, IsInternal;
    if steps != [] {
      assert steps[0] in steps && forall step :: step in steps[1..] ==> step in steps;
      AnswersKept(s, steps[0]);
      AnswersHold(After(s, steps[0]), steps[1..]);
    }
  }

  /** The replies under `id` in a client's log. */
  function RepliesUnder(log: seq<Entry>, id: RequestId): set<nat> {
    set i | 0 <= i < |log| && IsReply(log[i].message) && log[i].message.id == id :: i
  }

  /** The requests a client has sent under `id`. */
  function RequestsUnder(requests: seq<Request>, c: ConnectionId, id: RequestId): set<nat> {
    set k | 0 <= k < |requests| && requests[k].connection == c && requests[k].id == id :: k
  }

  /** Each of the replies answers a request among `requests`, and no two the same one. */
  ghost predicate AnswerApart(log: seq<Entry>, replies: set<nat>, requests: set<nat>) {
    && (forall i :: i in replies ==> i < |log| && log[i].cause.ReplyTo? && log[i].cause.serial in requests)
    && (forall i, j :: i in replies && j in replies && i != j ==> log[i].cause != log[j].cause)
  }

  lemma {:induction false} NoMoreRepliesThanRequests(log: seq<Entry>, replies: set<nat>, requests: set<nat>)
    requires AnswerApart(log, replies, requests)
    ensures |replies| <= |requests|
    decreases replies
  {
    if replies != {} {
      var i :| i in replies;
      var k := log[i].cause.serial;
      NoMoreRepliesThanRequests(log, replies - {i}, requests - {k});
    }
  }

  /** In every run in which handlers answer under the ids they were given, each client has been sent at
      most as many replies under an id as it has sent requests under it: with ids of its own all
      different, at most one each, and none under an id it did not use. */
  lemma RepliesAreCounted(stdio: bool, steps: seq<Step>, c: ConnectionId, id: RequestId)
    requires IsRun(Start(stdio), steps) && RepliesInternally(steps)
    requires c in End(Start(stdio), steps).clients
    ensures var s := End(Start(stdio), steps);
            |RepliesUnder(s.clients[c].log, id)| <= |RequestsUnder(s.requests, c, id)|
  {
    StartIsGood(stdio);
    var start := Start(stdio);
    assert AllInternal(start.outgoing) && AllAnswers(start.clients);
    hide IsRun, End, RepliesInternally;
    InvHolds(start, steps);
    AnswersHold(start, steps);
    var s := End(start, steps);
    LogIsApart(s, c, id);
    NoMoreRepliesThanRequests(s.clients[c].log, RepliesUnder(s.clients[c].log, id), RequestsUnder(s.requests, c, id));
  }

  lemma LogIsApart(s: Server, c: ConnectionId, id: RequestId)
    requires Inv(s) && AllAnswers(s.clients) && c in s.clients
    ensures AnswerApart(s.clients[c].log, RepliesUnder(s.clients[c].log, id), RequestsUnder(s.requests, c, id))
  {
    assert Logs(s.clients, s.requests);
    hide Inv;
    var log := s.clients[c].log;
    assert GoodLog(s.requests, c, log) && OnlyAnswers(log);
    forall i | i in RepliesUnder(log, id)
      ensures log[i].cause.ReplyTo? && log[i].cause.serial in RequestsUnder(s.requests, c, id)
    {
      assert log[i] in log && GoodEntry(s.requests, c, log[i]);
    }
  }

  // What becomes of the requests of a stdio client

  /** No request of `c` is in the queue from `from` on. */
  ghost predicate Silent(events: seq<Event>, from: nat, c: ConnectionId) {
    forall i :: from <= i < |events| && IsRequestEvent(events[i]) ==> events[i].connection != c
  }

  /** The end of `c`'s input has been queued, or more: nothing is read from it any more. */
  ghost predicate EndIsQueued(events: seq<Event>, client: Client, c: ConnectionId) {
    forall i :: 0 <= i < |events| && events[i] == ConnectionClosed(c) ==> !client.reading && Silent(events, i, c)
  }

  /** The end of `c`'s input has been taken up by the processor, or its connection closed. */
  predicate EndIsReached(s: Server, c: ConnectionId) {
    s.closing == Some(c) || (c in s.announced && c !in s.processor.connections)
  }

  ghost predicate EndComesLast(s: Server, c: ConnectionId)
    requires c in s.clients
  {
    && EndIsQueued(s.events, s.clients[c], c)
    && (EndIsReached(s, c) ==> !s.clients[c].reading && Silent(s.events, 0, c))
  }

  /** The end of a client's input comes behind all its requests, as long as its writer is there: then the
      router does not report the connection closed on its own. */
  ghost predicate EndsComeLast(s: Server) {
    && (forall c :: c in s.clients && !s.clients[c].connection.closed ==> EndComesLast(s, c))
    && (forall c :: c in s.pendingClosed ==> c in s.dropped)
  }

  ghost predicate HasEvent(events: seq<Event>, serial: nat) {
    exists i :: 0 <= i < |events| && IsRequestEvent(events[i]) && events[i].message.serial == serial
  }

  /** A queued request is in the queue, and one is ignored only if its client's writer is gone. */
  ghost predicate NoneLost(events: seq<Event>, requests: seq<Request>, clients: map<ConnectionId, Client>) {
    forall k :: 0 <= k < |requests| ==>
      && requests[k].connection in clients
      && (requests[k].stage.Queued? ==> HasEvent(events, k))
      && (requests[k].stage.Ignored? ==> clients[requests[k].connection].connection.closed)
  }

  /** The clients are still there, and no writer that was gone is back. */
  ghost predicate SameOrStopped(a: map<ConnectionId, Client>, b: map<ConnectionId, Client>) {
    forall c :: c in a ==> c in b && (a[c].connection.closed ==> b[c].connection.closed)
  }

  lemma NoneLostStays(events: seq<Event>, more: seq<Event>, requests: seq<Request>,
                      clients: map<ConnectionId, Client>, after: map<ConnectionId, Client>)
    requires NoneLost(events, requests, clients) && events <= more && SameOrStopped(clients, after)
    ensures NoneLost(more, requests, after)
  {
    forall k | 0 <= k < |requests| && requests[k].stage.Queued? ensures HasEvent(more, k) {
      var i :| 0 <= i < |events| && IsRequestEvent(events[i]) && events[i].message.serial == k;
      assert more[i] == events[i];
    }
  }

  lemma NoneLostReceiving(s: Server, c: ConnectionId, id: RequestId)
    requires NoneLost(s.events, s.requests, s.clients) && c in s.clients
    ensures var t := Received(s, c, id); NoneLost(t.events, t.requests, t.clients)
  {
    hide HasEvent;
    var t := Received(s, c, id);
    NoneLostStays(s.events, t.events, s.requests, s.clients, t.clients);
    if |s.events| < CHANNEL_CAPACITY {
      assert t.events[|s.events|].message.serial == |s.requests|;
      LastHasEvent(t.events, |s.requests|);
    }
  }

  lemma LastHasEvent(events: seq<Event>, serial: nat)
    requires events != [] && IsRequestEvent(events[|events| - 1]) && events[|events| - 1].message.serial == serial
    ensures HasEvent(events, serial)
  {
  }

  lemma HasEventBehind(events: seq<Event>, serial: nat)
    requires events != [] && HasEvent(events, serial)
    requires IsRequestEvent(events[0]) ==> events[0].message.serial != serial
    ensures HasEvent(events[1..], serial)
  {
    var i :| 0 <= i < |events| && IsRequestEvent(events[i]) && events[i].message.serial == serial;
    assert events[1..][i - 1] == events[i];
  }

  lemma NoneLostProcessing(s: Server)
    requires NoneLost(s.events, s.requests, s.clients) && s.events != [] && s.stdio
    requires EventsRecorded(s.events, s.requests) && OpeningsFirst(s.events, s.announced) && EndsComeLast(s)
    ensures var t := Processed(s); NoneLost(t.events, t.requests, t.clients)
  {
    var event, t := s.events[0], Processed(s);
    OpeningsFirstDequeues(s.events, s.announced);
    hide HasEvent, OpeningsFirst, Handled;
    forall k | 0 <= k < |t.requests| && t.requests[k].stage.Queued? ensures HasEvent(t.events, k) {
      HasEventBehind(s.events, k);
    }
    if IsRequestEvent(event) && event.connection !in s.processor.connections {
      assert EndIsReached(s, event.connection);
      assert !Silent(s.events, 0, event.connection);
    }
  }

  lemma NoneLostRouting(s: Server, disconnected: seq<ConnectionId>)
    requires NoneLost(s.events, s.requests, s.clients) && Enabled(s, RouterEnvelope(disconnected))
    ensures var t := RoutedOut(s, disconnected); NoneLost(t.events, t.requests, t.clients)
  {
    hide HasEvent, Targets, Failed, Lists, NeedNotWait, Known, Rewritten, CauseOf;
  }

  lemma NoneLostKept(s: Server, step: Step)
    requires NoneLost(s.events, s.requests, s.clients) && s.stdio && Enabled(s, step)
    requires Pipeline(s.events, s.processor, s.requests) && Lifecycle(s) && EndsComeLast(s)
    ensures var t := After(s, step); NoneLost(t.events, t.requests, t.clients)
  {
    hide NoneLost, OpeningsFirst, EndsComeLast, NeedNotWait, Lists, Known, Processed, RoutedOut, Received, EventsRecorded;
    match step {
      case Receive(c, id) => NoneLostReceiving(s, c, id);
      case Process => NoneLostProcessing(s);
      case RouterEnvelope(disconnected) => NoneLostRouting(s, disconnected);
      case _ =>
        hide Pipeline, Lifecycle;
        OtherStepsOnlyQueue(s, step);
        hide After, Enabled;
        NoneLostStays(s.events, After(s, step).events, s.requests, s.clients, After(s, step).clients);
    }
  }

  lemma OtherStepsOnlyQueue(s: Server, step: Step)
    requires Enabled(s, step) && !step.Receive? && !step.Process? && !step.RouterEnvelope?
    ensures var t := After(s, step);
            t.requests == s.requests && s.events <= t.events && SameOrStopped(s.clients, t.clients)
  {
    hide Handled, HasRoutes, SentByHandlers;
  }

  // The end of input behind the requests

  lemma SilentQueues(events: seq<Event>, from: nat, c: ConnectionId, event: Event)
    requires Silent(events, from, c) && (IsRequestEvent(event) ==> event.connection != c)
    ensures Silent(events + [event], from, c)
  {
  }

  lemma EndQueues(s: Server, c: ConnectionId, event: Event)
    requires c in s.clients && EndComesLast(s, c)
    requires event.connection == c ==> !event.ConnectionClosed? && s.clients[c].reading
    ensures EndComesLast(s.(events := s.events + [event]), c)
  {
  }

  lemma EndOfThisQueues(s: Server, c: ConnectionId)
    requires c in s.clients && EndComesLast(s, c)
    ensures EndComesLast(s.(events := s.events + [ConnectionClosed(c)],
                            clients := s.clients[c := s.clients[c].(reading := false)]), c)
  {
  }

  lemma EndProcessed(s: Server, c: ConnectionId)
    requires s.events != [] && s.stdio && s.closing.None? && c in s.clients && EndComesLast(s, c)
    ensures EndComesLast(Processed(s), c)
  {
    hide WithoutConnection, RequestsAfter;
    var t := Processed(s);
    assert forall i :: 0 <= i < |t.events| ==> t.events[i] == s.events[i + 1];
    if s.events[0] == ConnectionClosed(c) {
      assert Silent(s.events, 0, c);
    }
  }

  lemma EndsProcessed(s: Server)
    requires s.events != [] && s.stdio && s.closing.None? && EndsComeLast(s)
    ensures EndsComeLast(Processed(s))
  {
    hide EndComesLast, Handled, RequestsAfter;
    forall c | c in s.clients && !s.clients[c].connection.closed ensures EndComesLast(Processed(s), c) {
      EndProcessed(s, c);
    }
  }

  /** What the order speaks of is the same for `c` in both. */
  ghost predicate SameInput(s: Server, t: Server, c: ConnectionId) {
    && c in s.clients && c in t.clients
    && s.clients[c].reading == t.clients[c].reading && s.events == t.events
    && (EndIsReached(t, c) ==> EndIsReached(s, c))
  }

  lemma EndStays(s: Server, t: Server, c: ConnectionId)
    requires SameInput(s, t, c) && EndComesLast(s, c)
    ensures EndComesLast(t, c)
  {
  }

  lemma EndsConnecting(s: Server, d: ConnectionId)
    requires EndsComeLast(s) && Lifecycle(s) && Enabled(s, Connect(d))
    ensures EndsComeLast(After(s, Connect(d)))
  {
    hide EndComesLast, OpeningsFirst, OpenConnections;
    var t := After(s, Connect(d));
    forall c | c in t.clients && !t.clients[c].connection.closed ensures EndComesLast(t, c) {
      var queued := s.(events := t.events);
      if c != d {
        EndQueues(s, c, ConnectionOpened(d));
        EndStays(queued, t, c);
      } else {
        NewInputHasNoEnd(t, s.events, c);
      }
    }
  }

  lemma NewInputHasNoEnd(t: Server, events: seq<Event>, c: ConnectionId)
    requires c in t.clients && t.events == events + [ConnectionOpened(c)] && !EndIsReached(t, c)
    requires forall i :: 0 <= i < |events| ==> events[i].connection != c
    ensures EndComesLast(t, c)
  {
    hide EndIsReached;
  }

  /** Something is queued that was read from `d`. */
  lemma EndsReading(s: Server, d: ConnectionId, event: Event, requests: seq<Request>)
    requires EndsComeLast(s) && d in s.clients && s.clients[d].reading
    requires event.connection == d && !event.ConnectionClosed?
    ensures EndsComeLast(s.(events := s.events + [event], requests := requests))
  {
    hide EndComesLast;
    var queued, t := s.(events := s.events + [event]), s.(events := s.events + [event], requests := requests);
    forall c | c in t.clients && !t.clients[c].connection.closed ensures EndComesLast(t, c) {
      EndQueues(s, c, event);
      EndStays(queued, t, c);
    }
  }

  lemma EndsHangup(s: Server, d: ConnectionId)
    requires EndsComeLast(s) && s.stdio && Enabled(s, Hangup(d))
    ensures EndsComeLast(After(s, Hangup(d)))
  {
    hide EndComesLast;
    var t := After(s, Hangup(d));
    var queued := s.(events := t.events);
    forall c | c in t.clients && !t.clients[c].connection.closed ensures EndComesLast(t, c) {
      if c == d {
        EndOfThisQueues(s, d);
        EndStays(queued.(clients := s.clients[d := s.clients[d].(reading := false)]), t, d);
      } else {
        EndQueues(s, c, ConnectionClosed(d));
        EndStays(queued, t, c);
      }
    }
  }

  lemma EndsReporting(s: Server)
    requires EndsComeLast(s) && StdioFailures(s.clients, s.dropped) && s.pendingClosed != []
    ensures EndsComeLast(s.(pendingClosed := s.pendingClosed[1..], events := s.events + [ConnectionClosed(s.pendingClosed[0])]))
  {
    hide EndComesLast;
    var d := s.pendingClosed[0];
    assert d in s.pendingClosed;
    var queued := s.(events := s.events + [ConnectionClosed(d)]);
    var t := queued.(pendingClosed := s.pendingClosed[1..]);
    forall c | c in t.clients && !t.clients[c].connection.closed ensures EndComesLast(t, c) {
      EndQueues(s, c, ConnectionClosed(d));
      EndStays(queued, t, c);
    }
  }

  /** The same clients read from, no writer back, the same events: the order stays. */
  lemma EndsStay(s: Server, t: Server)
    requires EndsComeLast(s) && t.clients.Keys == s.clients.Keys
    requires forall c :: c in t.clients ==>
               SameInput(s, t, c) && (s.clients[c].connection.closed ==> t.clients[c].connection.closed)
    requires forall c :: c in t.pendingClosed ==> c in t.dropped
    ensures EndsComeLast(t)
  {
    hide EndComesLast;
    forall c | c in t.clients && !t.clients[c].connection.closed ensures EndComesLast(t, c) {
      EndStays(s, t, c);
    }
  }

  lemma EndsRouting(s: Server, disconnected: seq<ConnectionId>)
    requires EndsComeLast(s) && Enabled(s, RouterEnvelope(disconnected))
    ensures EndsComeLast(RoutedOut(s, disconnected))
  {
    hide EndComesLast, Targets, Failed, NeedNotWait, Known, Rewritten, CauseOf, NoRepeats, RoutesAfter;
    EndsStay(s, RoutedOut(s, disconnected));
  }

  lemma EndsReceiving(s: Server, d: ConnectionId, id: RequestId)
    requires EndsComeLast(s) && Enabled(s, Receive(d, id))
    ensures EndsComeLast(Received(s, d, id))
  {
    var t := Received(s, d, id);
    hide EndsComeLast;
    if |s.events| < CHANNEL_CAPACITY {
      EndsReading(s, d, IncomingMessage(d, ClientRequest(id, |s.requests|)), t.requests);
    } else {
      assert forall c :: c in s.pendingClosed ==> c in s.dropped by { PendingIsDropped(s); }
      EndsStay(s, t);
    }
  }

  lemma PendingIsDropped(s: Server)
    requires EndsComeLast(s)
    ensures forall c :: c in s.pendingClosed ==> c in s.dropped
  {
  }

  lemma EndsFinishClosing(s: Server)
    requires EndsComeLast(s) && Enabled(s, FinishClosing)
    ensures EndsComeLast(After(s, FinishClosing))
  {
    hide EndComesLast, HasRoutes, WithoutConnection;
    EndsStay(s, After(s, FinishClosing));
  }

  lemma EndsKept(s: Server, step: Step)
    requires EndsComeLast(s) && Lifecycle(s) && StdioFailures(s.clients, s.dropped) && s.stdio && Enabled(s, step)
    ensures EndsComeLast(After(s, step))
  {
    hide EndsComeLast, Lifecycle, StdioFailures, Processed, RoutedOut, Received, Controlled, NeedNotWait, Lists, Known, Rewritten;
    PendingIsDropped(s);
    var t := After(s, step);
    match step {
      case Connect(d) => EndsConnecting(s, d);
      case Receive(d, id) => EndsReceiving(s, d, id);
      case ReceiveOther(d) => EndsReading(s, d, IncomingMessage(d, ClientOther), s.requests);
      case Hangup(d) => EndsHangup(s, d);
      case Process => EndsProcessed(s);
      case FinishClosing => EndsFinishClosing(s);
      case RouterControl => ControlKeepsEnds(s);
      case RouterEnvelope(disconnected) => EndsRouting(s, disconnected);
      case RouterReportsClosed => EndsReporting(s);
      case WriterTakes(_) => EndsStay(s, t);
      case WriterStops(_) => EndsStay(s, t);
      case Initialize(_, _) => EndsStay(s, t);
      case HandlerSends(_) => EndsStay(s, t);
    }
  }

  lemma ControlKeepsEnds(s: Server)
    requires EndsComeLast(s) && s.processor.control != []
    ensures EndsComeLast(Controlled(s))
  {
    hide EndComesLast;
    EndsStay(s, Controlled(s));
  }

  lemma {:induction false} EndsHold(s: Server, steps: seq<Step>)
    requires Inv(s) && s.stdio && EndsComeLast(s) && NoneLost(s.events, s.requests, s.clients) && IsRun(s, steps)
    ensures var t := End(s, steps); EndsComeLast(t) && NoneLost(t.events, t.requests, t.clients)
    decreases |steps|
  {
    if steps != [] {
      var t := After(s, steps[0]);
      assert Pipeline(s.events, s.processor, s.requests) && Lifecycle(s) && StdioFailures(s.clients, s.dropped);
      hide Inv, Enabled, After, EndsComeLast, NoneLost, Pipeline, Lifecycle, StdioFailures;
      InvKept(s, steps[0]);
      EndsKept(s, steps[0]);
      NoneLostKept(s, steps[0]);
      EndsHold(t, steps[1..]);
    }
  }

  /** With stdio, once the processor has taken up a connection's end and is done with it, every request
      that client sent has been refused as overload or answered, and the answers have been put into its
      writer's queue - none is still queued or was ignored - unless that writer is gone. */
  lemma EndOfInputAnswersAll(steps: seq<Step>, c: ConnectionId, k: nat)
    requires IsRun(Start(true), steps)
    requires var s := End(Start(true), steps);
             && k < |s.requests| && s.requests[k].connection == c
             && c in s.announced && c !in s.processor.connections
    ensures var s := End(Start(true), steps);
            && c in s.clients
            && (s.clients[c].connection.closed || s.requests[k].stage.Refused?
                || (s.requests[k].stage.Answered? && Replied(s.clients[c], k)))
  {
    var start := Start(true);
    StartIsGood(true);
    assert EndsComeLast(start) && NoneLost(start.events, start.requests, start.clients);
    hide IsRun, End, Inv, EndsComeLast, NoneLost;
    InvHolds(start, steps);
    EndsHold(start, steps);
    EndOfInputLosesNoReply(steps, c, k);
    NothingIsLeft(End(start, steps), c, k);
  }

  lemma NothingIsLeft(s: Server, c: ConnectionId, k: nat)
    requires Inv(s) && EndsComeLast(s) && NoneLost(s.events, s.requests, s.clients)
    requires k < |s.requests| && s.requests[k].connection == c && EndIsReached(s, c)
    ensures c in s.clients
    ensures s.requests[k].stage.Queued? || s.requests[k].stage.Ignored? ==> s.clients[c].connection.closed
  {
    assert EventsRecorded(s.events, s.requests);
    hide Inv;
    if s.requests[k].stage.Queued? {
      var i :| 0 <= i < |s.events| && IsRequestEvent(s.events[i]) && s.events[i].message.serial == k;
      assert !Silent(s.events, 0, c);
    }
  }
}
