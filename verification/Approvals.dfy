/** Requests from the server to a client: the callback table, and the approvals that wait on it. */
module Approvals {
  import opened Results
  import opened RequestIds

  // What clients answer

  datatype WireDecision = WireApproved | WireApprovedExecpolicyAmendment | WireApprovedForSession | WireDenied | WireAbort

  datatype ReviewDecision = Approved | ApprovedForSession | Denied | Abort

  /** The result of a client's response: a decision, or something that does not deserialize to one. */
  datatype ClientResult = WellFormed(decision: WireDecision) | Malformed

  predicate Approving(d: ReviewDecision) {
    d.Approved? || d.ApprovedForSession?
  }

  predicate WireApproving(d: WireDecision) {
    d.WireApproved? || d.WireApprovedExecpolicyAmendment? || d.WireApprovedForSession?
  }

  /** `map_review_decision_from_wire` */
  function FromWire(d: WireDecision): (r: ReviewDecision)
    ensures Approving(r) <==> WireApproving(d)
  {
    match d
    case WireApproved => Approved
    case WireApprovedExecpolicyAmendment => Approved
    case WireApprovedForSession => ApprovedForSession
    case WireDenied => Denied
    case WireAbort => Abort
  }

  // The callback table

  /** The receiving end of a callback. It is gone once the sending end has been dropped unused. */
  datatype Receiver = Waiting | Got(result: ClientResult) | Gone

  /** A pending callback is owned by the connection asked, if it is one in particular. */
  datatype Table = Table(
    nextRequestId: nat,
    owners: map<RequestId, Option<ConnectionId>>,
    receivers: map<RequestId, Receiver>)

  /** A message from `connection` may use the callback `id`. */
  predicate MayUse(t: Table, connection: Option<ConnectionId>, id: RequestId) {
    id in t.owners && (t.owners[id].None? || connection.None? || t.owners[id] == connection)
  }

  function Issued(t: Table, owner: Option<ConnectionId>, queued: bool): Table {
    var id := Number(t.nextRequestId);
    Table(t.nextRequestId + 1,
          if queued then t.owners[id := owner] else t.owners - {id},
          t.receivers[id := if queued then Waiting else Gone])
  }

  /** The callback is used up and its receiver gets `outcome`, provided the sender may use it. */
  function Settled(t: Table, connection: Option<ConnectionId>, id: RequestId, outcome: Receiver): Table {
    if MayUse(t, connection, id) then t.(owners := t.owners - {id}, receivers := t.receivers[id := outcome]) else t
  }

  predicate OwnedBy(t: Table, id: RequestId, connection: ConnectionId) {
    id in t.owners && t.owners[id] == Some(connection)
  }

  function Cleared(t: Table, connection: ConnectionId): Table {
    t.(owners := map id | id in t.owners && !OwnedBy(t, id, connection) :: t.owners[id],
       receivers := map id | id in t.receivers :: if OwnedBy(t, id, connection) then Gone else t.receivers[id])
  }

  class OutgoingMessageSender {
    var nextRequestId: nat
    var owners: map<RequestId, Option<ConnectionId>>
    var receivers: map<RequestId, Receiver>

    constructor ()
      ensures State() == Table(0, map[], map[])
    {
      nextRequestId, owners, receivers := 0, map[], map[];
    }

    ghost function State(): Table
      reads this
    {
      Table(nextRequestId, owners, receivers)
    }

    /** `send_request_impl`; `queued` says whether the envelope could be queued. */
    method SendRequest(owner: Option<ConnectionId>, queued: bool) returns (id: RequestId)
      modifies this
      ensures id == Number(old(nextRequestId))
      ensures State() == Issued(old(State()), owner, queued)
    {
      id := Number(nextRequestId);
      nextRequestId := nextRequestId + 1;
      owners := owners[id := owner];
      receivers := receivers[id := Waiting];
      if !queued {
        owners := owners - {id};
        receivers := receivers[id := Gone];
        assert owners == old(owners) - {id};
      }
    }

    /** Takes a callback out of the table for a message that may use it. */
    method Take(connection: Option<ConnectionId>, id: RequestId) returns (taken: bool)
      modifies this
      ensures taken == MayUse(old(State()), connection, id)
      ensures State() == if taken then old(State()).(owners := old(owners) - {id}) else old(State())
    {
      taken := false;
      if id in owners {
        var owner := owners[id];
        taken := owner.None? || connection.None? || owner == connection;
      }
      if taken {
        owners := owners - {id};
      }
    }

    /** `notify_client_response_for_connection` */
    method NotifyClientResponse(connection: Option<ConnectionId>, id: RequestId, result: ClientResult)
      modifies this
      ensures State() == Settled(old(State()), connection, id, Got(result))
    {
      var taken := Take(connection, id);
      if taken {
        receivers := receivers[id := Got(result)];
      }
    }

    /** `notify_client_error_for_connection` */
    method NotifyClientError(connection: Option<ConnectionId>, id: RequestId)
      modifies this
      ensures State() == Settled(old(State()), connection, id, Gone)
    {
      var taken := Take(connection, id);
      if taken {
        receivers := receivers[id := Gone];
      }
    }

    /** `clear_callbacks_for_connection` */
    method ClearCallbacks(connection: ConnectionId)
      modifies this
      ensures State() == Cleared(old(State()), connection)
    {
      ghost var before := State();
      var cleared := set id | id in owners && owners[id] == Some(connection);
      assert forall id :: id in cleared <==> OwnedBy(before, id, connection);
      owners := map id | id in owners && id !in cleared :: owners[id];
      receivers := map id | id in receivers :: if id in cleared then Gone else receivers[id];
    }
  }

  // The tasks that wait for an approval

  datatype Approval = Exec(callId: string, turnId: string) | PatchOf(callId: string)

  datatype Op = ExecApproval(id: string, turnId: Option<string>, decision: ReviewDecision)
              | PatchApproval(id: string, decision: ReviewDecision)

  function OpFor(approval: Approval, decision: ReviewDecision): Op {
    match approval
    case Exec(callId, turnId) => ExecApproval(callId, Some(turnId), decision)
    case PatchOf(callId) => PatchApproval(callId, decision)
  }

  /** What a finished wait means. */
  function DecisionOf(r: Receiver): ReviewDecision
    requires !r.Waiting?
  {
    match r
    case Got(WellFormed(decision)) => FromWire(decision)
    case Got(Malformed) => Denied
    case Gone => Denied
  }

  /** Which outcomes of a wait lead to which decision. */
  predicate LeadsTo(r: Receiver, d: ReviewDecision) {
    match d
    case Approved => r == Got(WellFormed(WireApproved)) || r == Got(WellFormed(WireApprovedExecpolicyAmendment))
    case ApprovedForSession => r == Got(WellFormed(WireApprovedForSession))
    case Abort => r == Got(WellFormed(WireAbort))
    case Denied => r == Got(WellFormed(WireDenied)) || r == Got(Malformed) || r == Gone
  }

  lemma DecisionIff(r: Receiver, d: ReviewDecision)
    requires !r.Waiting?
    ensures DecisionOf(r) == d <==> LeadsTo(r, d)
  {
  }

  /** The operation tells the conversation of decision `d` on the call, and turn, that asked for it. */
  predicate Tells(op: Op, approval: Approval, d: ReviewDecision) {
    match op
    case ExecApproval(id, turnId, decision) =>
      approval.Exec? && id == approval.callId && turnId == Some(approval.turnId) && decision == d
    case PatchApproval(id, decision) => approval.PatchOf? && id == approval.callId && decision == d
  }

  lemma OpTells(approval: Approval, d: ReviewDecision)
    ensures Tells(OpFor(approval, d), approval, d)
  {
  }

  class Conversation {
    var ops: seq<Op>

    constructor ()
      ensures ops == []
    {
      ops := [];
    }

    method Submit(op: Op)
      modifies this
      ensures ops == old(ops) + [op]
    {
      ops := ops + [op];
    }
  }

  /** `on_exec_approval_response` and `on_patch_approval_response`, from where the wait is over */
  method OnApprovalResponse(approval: Approval, receiver: Receiver, conversation: Conversation)
    requires !receiver.Waiting?
    modifies conversation
    ensures conversation.ops == old(conversation.ops) + [OpFor(approval, DecisionOf(receiver))]
    ensures var op := conversation.ops[|old(conversation.ops)|];
            Tells(op, approval, op.decision) && LeadsTo(receiver, op.decision)
  {
    DecisionIff(receiver, DecisionOf(receiver));
    OpTells(approval, DecisionOf(receiver));
    if receiver.Gone? {
      conversation.Submit(OpFor(approval, Denied));
      return;
    }
    var decision := WireDenied;
    if receiver.result.WellFormed? {
      decision := receiver.result.decision;
    }
    conversation.Submit(OpFor(approval, FromWire(decision)));
  }

  // The whole, with a record of what was asked, heard and submitted

  /** `handler` is the approval task waiting, or none for other requests to the client. */
  datatype Question = Question(owner: Option<ConnectionId>, task: Option<Approval>)

  datatype Heard = HeardResult(connection: ConnectionId, id: RequestId, result: ClientResult)
                 | HeardError(connection: ConnectionId, id: RequestId)

  datatype Submission = Submission(id: RequestId, op: Op, decision: ReviewDecision)

  datatype Desk = Desk(
    table: Table,
    questions: seq<Question>,    // the k-th question went out under the id k
    heard: seq<Heard>,
    waiting: set<RequestId>,     // the approval tasks still to finish
    submitted: seq<Submission>)

  const START := Desk(Table(0, map[], map[]), [], [], {}, [])

  datatype Step =
    | Ask(owner: ConnectionId, approval: Approval, queued: bool)
    | AskOther(anyOwner: Option<ConnectionId>, queued: bool)
    | Hear(message: Heard)
    | ClearConnection(connection: ConnectionId)
    | Resume(id: RequestId)

  predicate Enabled(d: Desk, step: Step) {
    step.Resume? ==>
      step.id in d.waiting && step.id in d.table.receivers && !d.table.receivers[step.id].Waiting?
      && step.id.Number? && 0 <= step.id.number < |d.questions| && d.questions[step.id.number].task.Some?
  }

  function AfterHearing(t: Table, m: Heard): Table {
    match m
    case HeardResult(connection, id, result) => Settled(t, Some(connection), id, Got(result))
    case HeardError(connection, id) => Settled(t, Some(connection), id, Gone)
  }

  function After(d: Desk, step: Step): Desk
    requires Enabled(d, step)
  {
    match step
    case Ask(owner, approval, queued) =>
      d.(table := Issued(d.table, Some(owner), queued), questions := d.questions + [Question(Some(owner), Some(approval))],
         waiting := d.waiting + {Number(d.table.nextRequestId)})
    case AskOther(owner, queued) =>
      d.(table := Issued(d.table, owner, queued), questions := d.questions + [Question(owner, None)])
    case Hear(m) =>
      d.(table := AfterHearing(d.table, m), heard := d.heard + [m])
    case ClearConnection(connection) =>
      d.(table := Cleared(d.table, connection))
    case Resume(id) =>
      var decision := DecisionOf(d.table.receivers[id]);
      d.(waiting := d.waiting - {id},
         submitted := d.submitted + [Submission(id, OpFor(d.questions[id.number].task.value, decision), decision)])
  }

  ghost predicate IsRun(d: Desk, steps: seq<Step>)
    decreases |steps|
  {
    steps == [] || (Enabled(d, steps[0]) && IsRun(After(d, steps[0]), steps[1..]))
  }

  ghost function End(d: Desk, steps: seq<Step>): Desk
    requires IsRun(d, steps)
    decreases |steps|
  {
    if steps == [] then d else End(After(d, steps[0]), steps[1..])
  }

  // The invariant

  predicate IsAsked(d: Desk, id: RequestId) {
    id.Number? && 0 <= id.number < |d.questions|
  }

  /** Pending callbacks and receivers are those of questions asked; a pending one has its question's owner
      and its receiver still waits. */
  ghost predicate TableRecorded(d: Desk) {
    && d.table.nextRequestId == |d.questions|
    && (forall id :: id in d.table.receivers <==> IsAsked(d, id))
    && (forall id :: id in d.table.owners ==>
          IsAsked(d, id) && d.table.owners[id] == d.questions[id.number].owner && d.table.receivers[id].Waiting?)
    && (forall id :: id in d.table.receivers && d.table.receivers[id].Waiting? ==> id in d.table.owners)
  }

  /** A result got for a question to one connection is one that connection sent for it. */
  ghost predicate ResultsHeard(d: Desk) {
    forall id :: id in d.table.receivers && d.table.receivers[id].Got? && IsAsked(d, id)
                 && d.questions[id.number].owner.Some? ==>
      HeardResult(d.questions[id.number].owner.value, id, d.table.receivers[id].result) in d.heard
  }

  /** A submission answers an approval asked of one connection, with the decision its wait ended in. */
  ghost predicate GoodSubmission(d: Desk, u: Submission) {
    && IsAsked(d, u.id) && u.id !in d.waiting && u.id in d.table.receivers
    && d.questions[u.id.number].task.Some? && d.questions[u.id.number].owner.Some?
    && !d.table.receivers[u.id].Waiting? && u.decision == DecisionOf(d.table.receivers[u.id])
    && u.op == OpFor(d.questions[u.id.number].task.value, u.decision)
  }

  ghost predicate SubmissionsRecorded(d: Desk) {
    && (forall u :: u in d.submitted ==> GoodSubmission(d, u))
    && (forall i, j :: 0 <= i < j < |d.submitted| ==> d.submitted[i].id != d.submitted[j].id)
    && (forall id :: id in d.waiting ==>
          IsAsked(d, id) && d.questions[id.number].task.Some? && d.questions[id.number].owner.Some?)
  }

  ghost predicate Inv(d: Desk) {
    TableRecorded(d) && ResultsHeard(d) && SubmissionsRecorded(d)
  }

  lemma IssuingKeeps(d: Desk, question: Question, queued: bool, waiting: set<RequestId>)
    requires Inv(d)
    requires waiting == if question.task.Some? then d.waiting + {Number(d.table.nextRequestId)} else d.waiting
    requires question.task.Some? ==> question.owner.Some?
    ensures Inv(d.(table := Issued(d.table, question.owner, queued), questions := d.questions + [question], waiting := waiting))
  {
    var t := d.(table := Issued(d.table, question.owner, queued), questions := d.questions + [question], waiting := waiting);
    assert TableRecorded(t);
    forall u | u in t.submitted ensures GoodSubmission(t, u) {
      assert GoodSubmission(d, u);
    }
  }

  /** Settled receivers are never changed again. */
  ghost predicate SettledStay(t: Table, after: Table) {
    && (forall id :: id in t.receivers <==> id in after.receivers)
    && (forall id :: id in t.receivers && !t.receivers[id].Waiting? ==> after.receivers[id] == t.receivers[id])
  }

  lemma SubmissionsKept(d: Desk, after: Table, heard: seq<Heard>)
    requires SubmissionsRecorded(d) && SettledStay(d.table, after)
    ensures SubmissionsRecorded(d.(table := after, heard := heard))
  {
    var t := d.(table := after, heard := heard);
    forall u | u in t.submitted ensures GoodSubmission(t, u) {
      assert GoodSubmission(d, u);
    }
  }

  lemma HearingKeeps(d: Desk, m: Heard)
    requires Inv(d)
    ensures Inv(After(d, Hear(m)))
  {
    HearingRecords(d, m);
    hide SubmissionsRecorded, TableRecorded, ResultsHeard;
    SubmissionsKept(d, AfterHearing(d.table, m), d.heard + [m]);
  }

  lemma HearingRecords(d: Desk, m: Heard)
    requires TableRecorded(d) && ResultsHeard(d)
    ensures SettledStay(d.table, AfterHearing(d.table, m))
    ensures TableRecorded(After(d, Hear(m))) && ResultsHeard(After(d, Hear(m)))
  {
    var t := After(d, Hear(m));
    forall id | id in t.table.receivers && t.table.receivers[id].Got? && IsAsked(t, id) && t.questions[id.number].owner.Some?
      ensures HeardResult(t.questions[id.number].owner.value, id, t.table.receivers[id].result) in t.heard
    {
      assert m in t.heard && t.heard[..|d.heard|] == d.heard;
    }
  }

  lemma ClearingKeeps(d: Desk, connection: ConnectionId)
    requires Inv(d)
    ensures Inv(After(d, ClearConnection(connection)))
  {
    assert SettledStay(d.table, Cleared(d.table, connection));
    SubmissionsKept(d, Cleared(d.table, connection), d.heard);
    hide SubmissionsRecorded;
  }

  lemma ResumingKeeps(d: Desk, id: RequestId)
    requires Inv(d) && Enabled(d, Resume(id))
    ensures Inv(After(d, Resume(id)))
  {
    var t := After(d, Resume(id));
    forall u | u in t.submitted ensures GoodSubmission(t, u) {
      if u in d.submitted {
        assert GoodSubmission(d, u);
      }
    }
    forall i, j | 0 <= i < j < |t.submitted| ensures t.submitted[i].id != t.submitted[j].id {
      assert GoodSubmission(d, d.submitted[i]);
    }
  }

  lemma InvKept(d: Desk, step: Step)
    requires Inv(d) && Enabled(d, step)
    ensures Inv(After(d, step))
  {
    match step {
      case Ask(owner, approval, queued) =>
        IssuingKeeps(d, Question(Some(owner), Some(approval)), queued, d.waiting + {Number(d.table.nextRequestId)});
      case AskOther(owner, queued) =>
        IssuingKeeps(d, Question(owner, None), queued, d.waiting);
      case Hear(m) => HearingKeeps(d, m);
      case ClearConnection(connection) => ClearingKeeps(d, connection);
      case Resume(id) => ResumingKeeps(d, id);
    }
  }

  lemma {:induction false} InvHolds(d: Desk, steps: seq<Step>)
    requires Inv(d) && IsRun(d, steps)
    ensures Inv(End(d, steps))
    decreases |steps|
  {
    hide Inv, Enabled, After;
    if steps != [] {
      InvKept(d, steps[0]);
      InvHolds(After(d, steps[0]), steps[1..]);
    }
  }

  // What it guarantees

  /** In every run, an approving decision is submitted only for an approval whose own connection, under
      that request's id, sent a well-formed result with that decision. */
  lemma ApprovalComesFromItsOwner(steps: seq<Step>, u: Submission)
    requires IsRun(START, steps)
    requires u in End(START, steps).submitted && Approving(u.decision)
    ensures var d := End(START, steps);
            && IsAsked(d, u.id) && d.questions[u.id.number].owner.Some?
            && exists w :: WireApproving(w) && FromWire(w) == u.decision
                 && HeardResult(d.questions[u.id.number].owner.value, u.id, WellFormed(w)) in d.heard
  {
    hide IsRun, End;
    assert Inv(START);
    InvHolds(START, steps);
    var d := End(START, steps);
    assert GoodSubmission(d, u);
    var r := d.table.receivers[u.id];
    assert r == Got(WellFormed(r.result.decision));
    assert HeardResult(d.questions[u.id.number].owner.value, u.id, r.result) in d.heard;
  }

  /** In every run, no request for approval leads to two decisions, and each decision goes to the call
      and turn it was asked for. */
  lemma OneDecisionPerRequest(steps: seq<Step>)
    requires IsRun(START, steps)
    ensures var d := End(START, steps);
            && (forall i, j :: 0 <= i < j < |d.submitted| ==> d.submitted[i].id != d.submitted[j].id)
            && (forall u :: u in d.submitted ==>
                  && IsAsked(d, u.id) && d.questions[u.id.number].task.Some?
                  && u.op == OpFor(d.questions[u.id.number].task.value, u.decision))
  {
    hide IsRun, End;
    assert Inv(START);
    InvHolds(START, steps);
    var d := End(START, steps);
    assert forall u :: u in d.submitted ==> GoodSubmission(d, u);
  }

  /** A message from a connection that was not asked changes no callback and no receiver. */
  lemma OthersChangeNothing(d: Desk, m: Heard)
    requires Inv(d)
    requires IsAsked(d, m.id) ==> d.questions[m.id.number].owner.Some? && d.questions[m.id.number].owner.value != m.connection
    ensures After(d, Hear(m)) == d.(heard := d.heard + [m])
  {
  }

  /** While the question to `owner` is pending, its error, the end of its connection, and a malformed
      result of its all settle the wait as a denial. */
  lemma EverythingElseDenies(d: Desk, owner: ConnectionId, id: RequestId)
    requires Inv(d) && id in d.table.owners && d.table.owners[id] == Some(owner)
    ensures forall t :: t in [After(d, Hear(HeardError(owner, id))), After(d, Hear(HeardResult(owner, id, Malformed))),
                              After(d, ClearConnection(owner))] ==>
              id in t.table.receivers && !t.table.receivers[id].Waiting? && DecisionOf(t.table.receivers[id]) == Denied
  {
  }

  /** Once settled, a wait keeps its outcome whatever is heard or cleared later. */
  lemma {:induction false} OutcomeIsFinal(d: Desk, steps: seq<Step>, id: RequestId)
    requires Inv(d) && IsRun(d, steps)
    requires id in d.table.receivers && !d.table.receivers[id].Waiting?
    ensures var t := End(d, steps).table; id in t.receivers && t.receivers[id] == d.table.receivers[id]
    decreases |steps|
  {
    if steps != [] {
      InvKept(d, steps[0]);
      StepKeepsOutcome(d, steps[0], id);
      OutcomeIsFinal(After(d, steps[0]), steps[1..], id);
    }
  }

  lemma StepKeepsOutcome(d: Desk, step: Step, id: RequestId)
    requires Inv(d) && Enabled(d, step)
    requires id in d.table.receivers && !d.table.receivers[id].Waiting?
    ensures var t := After(d, step).table; id in t.receivers && t.receivers[id] == d.table.receivers[id]
  {
    hide ResultsHeard, SubmissionsRecorded;
  }

  /** In every run, a submission tells of the call it was asked for; its decision is one for the session
      only if the asked connection sent just that for that request, one to abort likewise, and a plain
      approval only if it sent one of the two that are for this once. */
  lemma DecisionsAreAsSent(steps: seq<Step>, u: Submission)
    requires IsRun(START, steps) && u in End(START, steps).submitted
    ensures var d := End(START, steps);
            && IsAsked(d, u.id) && d.questions[u.id.number].owner.Some? && d.questions[u.id.number].task.Some?
            && Tells(u.op, d.questions[u.id.number].task.value, u.decision)
            && var owner := d.questions[u.id.number].owner.value;
               match u.decision
               case Approved =>
                 || HeardResult(owner, u.id, WellFormed(WireApproved)) in d.heard
                 || HeardResult(owner, u.id, WellFormed(WireApprovedExecpolicyAmendment)) in d.heard
               case ApprovedForSession => HeardResult(owner, u.id, WellFormed(WireApprovedForSession)) in d.heard
               case Abort => HeardResult(owner, u.id, WellFormed(WireAbort)) in d.heard
               case Denied => true
  {
    hide IsRun, End;
    assert Inv(START);
    InvHolds(START, steps);
    var d := End(START, steps);
    assert GoodSubmission(d, u);
    var r := d.table.receivers[u.id];
    DecisionIff(r, u.decision);
    OpTells(d.questions[u.id.number].task.value, u.decision);
    assert r.Got? ==> HeardResult(d.questions[u.id.number].owner.value, u.id, r.result) in d.heard;
  }

  // Single steps

  /** Whatever the asked connection answers while its question is pending ends the wait with that answer,
      and the waiting task then submits one operation, for its call and with the decision it leads to. */
  lemma AnswerIsSubmitted(d: Desk, owner: ConnectionId, id: RequestId, result: ClientResult)
    requires Inv(d) && id in d.waiting
    requires id in d.table.owners && d.table.owners[id] == Some(owner)
    ensures var heard := After(d, Hear(HeardResult(owner, id, result)));
            && Enabled(heard, Resume(id))
            && var t := After(heard, Resume(id));
               && id !in t.waiting && id !in t.table.owners && |t.submitted| == |d.submitted| + 1
               && t.submitted[..|d.submitted|] == d.submitted
               && var u := t.submitted[|d.submitted|];
                  u.id == id && Tells(u.op, d.questions[id.number].task.value, u.decision) && LeadsTo(Got(result), u.decision)
  {
    hide ResultsHeard;
    var heard := After(d, Hear(HeardResult(owner, id, result)));
    assert heard.table.receivers[id] == Got(result);
    DecisionIff(Got(result), DecisionOf(Got(result)));
    OpTells(d.questions[id.number].task.value, DecisionOf(Got(result)));
    hide DecisionOf, OpFor;
  }

  /** Two tables agree on a callback. */
  predicate SameCallback(a: Table, b: Table, id: RequestId) {
    && (id in a.owners <==> id in b.owners) && (id in a.owners ==> a.owners[id] == b.owners[id])
    && (id in a.receivers <==> id in b.receivers) && (id in a.receivers ==> a.receivers[id] == b.receivers[id])
  }

  /** A new request has the next number; queued, its callback is pending with its owner, else it is given
      up at once. No other callback changes. */
  lemma IssuingAddsOne(t: Table, owner: Option<ConnectionId>, queued: bool)
    ensures var after, id := Issued(t, owner, queued), Number(t.nextRequestId);
            && after.nextRequestId == t.nextRequestId + 1
            && id in after.receivers
            && (if queued then id in after.owners && after.owners[id] == owner && after.receivers[id] == Waiting
                else id !in after.owners && after.receivers[id] == Gone)
            && forall other :: other != id ==> SameCallback(t, after, other)
  {
  }

  /** A message settles a pending callback if it comes from the owner, or there is no owner, or it is not
      known whom it comes from; otherwise it does nothing. No other callback changes. */
  lemma SettlingEndsOne(t: Table, connection: Option<ConnectionId>, id: RequestId, outcome: Receiver)
    ensures var after := Settled(t, connection, id, outcome);
            && (if id in t.owners && (t.owners[id] == None || connection == None || t.owners[id] == connection)
                then id !in after.owners && id in after.receivers && after.receivers[id] == outcome
                else after == t)
            && after.nextRequestId == t.nextRequestId
            && forall other :: other != id ==> SameCallback(t, after, other)
  {
  }

  /** When a connection ends, its own pending callbacks are given up, and no others. */
  lemma ClearingEndsOwn(t: Table, connection: ConnectionId, id: RequestId)
    requires id in t.owners ==> id in t.receivers
    ensures var after := Cleared(t, connection);
            && after.nextRequestId == t.nextRequestId
            && if id in t.owners && t.owners[id] == Some(connection)
               then id !in after.owners && id in after.receivers && after.receivers[id] == Gone
               else SameCallback(t, after, id)
  {
  }

  /** The normal course: asked, answered, submitted. */
  lemma ApprovalIsSubmitted(owner: ConnectionId, approval: Approval, result: ClientResult)
    ensures var steps := [Ask(owner, approval, true), Hear(HeardResult(owner, Number(0), result)), Resume(Number(0))];
            && IsRun(START, steps)
            && var d := End(START, steps);
               && |d.submitted| == 1 && d.waiting == {} && d.table.owners == map[]
               && d.submitted[0].id == Number(0)
               && Tells(d.submitted[0].op, approval, d.submitted[0].decision)
               && LeadsTo(Got(result), d.submitted[0].decision)
  {
    var steps := [Ask(owner, approval, true), Hear(HeardResult(owner, Number(0), result)), Resume(Number(0))];
    assert Inv(START);
    var asked := After(START, steps[0]);
    InvKept(START, steps[0]);
    var heard := After(asked, steps[1]);
    AnswerIsSubmitted(asked, owner, Number(0), result);
    var done := After(heard, steps[2]);
    assert steps[1..][0] == steps[1] && steps[1..][1..] == [steps[2]] && [steps[2]][1..] == [];
    hide After, Enabled, Inv;
    assert IsRun(done, []) && End(done, []) == done;
    assert IsRun(heard, [steps[2]]) && End(heard, [steps[2]]) == done;
    assert IsRun(asked, steps[1..]) && End(asked, steps[1..]) == done;
  }
}
