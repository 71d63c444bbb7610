/**
  The audit events a transaction writes, the check that each still matches the
  live tables, and why it always does: what an event refers to is written once.
*/
module Correlation {
  import opened Wrappers
  import opened Accounting
  import opened Tables
  import opened History
  import opened AuditChain

  /** Canonical texts and digests of the rows events refer to. */
  datatype Codec = Codec(
    crypto: Crypto,
    resultText: SigningResult -> string,
    receiptDigest: Receipt -> string,
    statusText: ApprovalState -> string)

  const RECEIVED := "operation.received"
  const PUBLISHED := "operation.published"
  const BATCH_PUBLISHED := "batch.published"
  const APPROVAL_TRANSITION := "approval.transition"
  const ACTIVE := "ACTIVE"

  datatype Event = Event(name: string, payload: Payload)

  // ------------------------------------------------------------- the check

  function MembersOf(k: Codec, r: SigningResult): ResultMembers
  {
    ResultMembers(Some(r.operation), Some(r.digest), Some(k.crypto.sha(k.resultText(r))),
                  Some(r.signerReceipt), Some(r.brokerReceipt))
  }

  /** An event's result members agree with a stored result; the identifier is the lookup key. */
  predicate SameResult(k: Codec, m: ResultMembers, r: SigningResult)
  {
    && m.operationDigest == Some(r.digest)
    && m.resultDigest == Some(k.crypto.sha(k.resultText(r)))
    && m.signerReceiptDigest == Some(r.signerReceipt)
    && m.brokerReceiptDigest == Some(r.brokerReceipt)
  }

  function ChildOf(k: Codec, ordinal: nat, r: SigningResult): ChildDigest
  {
    ChildDigest(ordinal, r.operation, r.digest, k.crypto.sha(k.resultText(r)), r.signerReceipt, r.brokerReceipt)
  }

  /** The list names exactly the parent's children, in ordinal order. */
  predicate ListsChildren(k: Codec, children: map<(string, nat), SigningResult>, parent: string, list: seq<ChildDigest>)
  {
    && (forall i, j :: 0 <= i < j < |list| ==> list[i].ordinal < list[j].ordinal)
    && (forall i :: 0 <= i < |list| ==>
          (parent, list[i].ordinal) in children && list[i] == ChildOf(k, list[i].ordinal, children[(parent, list[i].ordinal)]))
    && (forall key :: key in children && key.0 == parent ==> exists i :: 0 <= i < |list| && list[i].ordinal == key.1)
  }

  predicate Receipted(k: Codec, t: Tables, operation: string, digest: Option<string>)
  {
    && operation in t.operations && t.operations[operation].receipt.Some?
    && digest == Some(k.receiptDigest(t.operations[operation].receipt.value))
  }

  predicate Stored(t: Tables, operation: string)
  {
    operation in t.operations && t.operations[operation].result.Some?
  }

  /** `verify_audit_correlation`. */
  predicate Correlated(k: Codec, t: Tables, name: string, p: Payload)
  {
    if !p.schemaV1 then true
    else if name == RECEIVED then
      && p.own.operationId.Some?
      && Receipted(k, t, p.own.operationId.value, p.validationReceiptDigest)
      && p.own.operationDigest == Some(t.operations[p.own.operationId.value].receipt.value.operationDigest)
    else if name == PUBLISHED then
      && p.own.operationId.Some?
      && Stored(t, p.own.operationId.value)
      && Receipted(k, t, p.own.operationId.value, p.validationReceiptDigest)
      && SameResult(k, p.own, t.operations[p.own.operationId.value].result.value)
    else if name == BATCH_PUBLISHED then
      && p.parent.operationId.Some?
      && Stored(t, p.parent.operationId.value)
      && Receipted(k, t, p.parent.operationId.value, p.validationReceiptDigest)
      && SameResult(k, p.parent, t.operations[p.parent.operationId.value].result.value)
      && p.children.Some?
      && ListsChildren(k, t.children, p.parent.operationId.value, p.children.value)
    else if name == APPROVAL_TRANSITION && p.to == Some(ACTIVE) then
      && p.approvalId.Some?
      && p.approvalId.value in t.approvals
      && t.approvals[p.approvalId.value].grant.Some?
      && p.activationReceiptDigest == Some(k.crypto.sha(t.approvals[p.approvalId.value].grant.value))
    else true
  }

  // ------------------------------------------------------------ write once

  lemma ListedStays(k: Codec, a: Tables, b: Tables, parent: string, list: seq<ChildDigest>)
    requires ChildrenExtend(a, b) && Stored(a, parent) && ListsChildren(k, a.children, parent, list)
    ensures ListsChildren(k, b.children, parent, list)
  {
  }

  /** A correlated activation announcement, looked up in the grant column. */
  predicate Announces(name: string, p: Payload)
  {
    name == APPROVAL_TRANSITION && p.schemaV1 && p.to == Some(ACTIVE)
  }

  /** Whatever extends the tables keeps a correlated entry correlated, its announced grant being kept. */
  lemma CorrelatedStays(k: Codec, a: Tables, b: Tables, name: string, p: Payload)
    requires Extends(a, b) && Correlated(k, a, name, p)
    requires Announces(name, p) && p.approvalId.Some? && p.approvalId.value in a.approvals ==>
      p.approvalId.value in b.approvals && b.approvals[p.approvalId.value].grant == a.approvals[p.approvalId.value].grant
    ensures Correlated(k, b, name, p)
  {
    NamesDiffer();
    if p.schemaV1 && (name == RECEIVED || name == PUBLISHED) {
      var o := p.own.operationId.value;
      assert OperationExtends(a.operations[o], b.operations[o]);
    } else if p.schemaV1 && name == BATCH_PUBLISHED {
      var o := p.parent.operationId.value;
      assert OperationExtends(a.operations[o], b.operations[o]);
      ListedStays(k, a, b, o, p.children.value);
    }
  }

  /** The two activation columns are written together. */
  predicate GrantsFiled(t: Tables)
  {
    forall id :: id in t.approvals && t.approvals[id].grant.Some? ==> t.approvals[id].activationOp.Some?
  }

  // ------------------------------------------------------------ the events

  function Note(name: string): seq<Event>
  {
    [Event(name, PLAIN)]
  }

  function ReceivedEvent(k: Codec, q: AttemptRequest): Event
  {
    Event(RECEIVED, PLAIN.(schemaV1 := true,
                           own := NO_RESULT.(operationId := Some(q.operation), operationDigest := Some(q.digest)),
                           validationReceiptDigest := Some(k.receiptDigest(q.receipt))))
  }

  function PublishedEvent(k: Codec, approval: string, r: SigningResult, receipt: Receipt): Event
  {
    Event(PUBLISHED, PLAIN.(schemaV1 := true, approvalId := Some(approval), own := MembersOf(k, r),
                            validationReceiptDigest := Some(k.receiptDigest(receipt))))
  }

  function BatchEvent(k: Codec, approval: string, r: SigningResult, results: seq<SigningResult>, receipt: Receipt): Event
  {
    Event(BATCH_PUBLISHED,
          PLAIN.(schemaV1 := true, approvalId := Some(approval), parent := MembersOf(k, r),
                 validationReceiptDigest := Some(k.receiptDigest(receipt)),
                 children := Some(ChildList(k, results))))
  }

  function ActivatedEvent(k: Codec, q: ActivateRequest): Event
  {
    Event(APPROVAL_TRANSITION,
          PLAIN.(schemaV1 := true, approvalId := Some(q.id), to := Some(ACTIVE),
                 activationReceiptDigest := Some(k.crypto.sha(q.grant))))
  }

  function TransitionEvent(k: Codec, id: string, next: ApprovalState): Event
  {
    Event(APPROVAL_TRANSITION, PLAIN.(approvalId := Some(id), to := Some(k.statusText(next))))
  }

  /** One transition event per pending ceremony a stop fences. */
  ghost function FenceEvents(k: Codec, t: Tables, ids: set<string>): seq<Event>
    requires forall id :: id in ids ==> id in t.approvals
  {
    if ids == {} then []
    else
      var id :| id in ids;
      (if Pending(t.approvals[id].state) then [TransitionEvent(k, id, Failed)] else []) + FenceEvents(k, t, ids - {id})
  }

  /** `observe_time` logs the first reading and every change of condition for the worse. */
  function ClockEvents(t: Tables, decision: Clock): seq<Event>
  {
    var changed := t.clock.None? || t.clock.value.condition != decision.condition;
    match decision.condition
    case Healthy => if t.clock.None? then Note("clock.initialized") else []
    case Untrusted => if changed then Note("clock.untrusted") else []
    case RollbackFrozen => if changed then Note("clock.rollback") else []
    case ForwardJumpRejected => if changed then Note("clock.forward_jump") else []
    case Repaired => []
  }

  /** What a committed step appends to the log. */
  ghost function Events(k: Codec, t: Tables, step: Step): seq<Event>
    requires Try(t, step).Ok?
  {
    match step
    case Prepare(q) => if q.id in t.approvals then [] else Note("approval.prepared")
    case Activate(q) =>
      if q.id in t.approvals && t.approvals[q.id].activationOp.Some? then [] else [ActivatedEvent(k, q)]
    case Stop(id) =>
      if id in t.approvals && StopState(t.approvals[id].state).Some?
      then [TransitionEvent(k, id, StopState(t.approvals[id].state).value)] else []
    case Retire(id, into) => [TransitionEvent(k, id, into)]
    case AdmitKeyStop(q) =>
      if q.operation in t.operations then []
      else Note("key.revocation.received") + Note("approval.key_stopped")
           + FenceEvents(k, t, BoundApprovals(t, q.wallet, q.keyRef))
    case CompleteKeyStop(operation) =>
      if operation in t.operations && t.operations[operation].state == Received then Note("key.revocation.succeeded") else []
    case Tombstones(_, _) => Note("revocation.tombstones_reconciled")
    case Reconcile(_, _) => Note("revocation.epoch_reconciled")
    case Advance(_, _, _) => Note("revocation.epoch_advanced")
    case Install(_) => Note("policy.installed")
    case Attempt(q) => if q.operation in t.operations then [] else [ReceivedEvent(k, q)]
    case MoveOperation(_, _) => Note("operation.transition")
    case Spend(q) =>
      if Find(t.reservations, q.approval, q.operation) < |t.reservations| then []
      else Note("reservation.created")
    case Finalize(approval, operation, _) =>
      if HasState(t, approval, operation, Reserved) then Note("reservation.finalized") else []
    case Publish(approval, r) =>
      if Stored(t, r.operation) || t.operations[r.operation].receipt.None? then []
      else [PublishedEvent(k, approval, r, t.operations[r.operation].receipt.value)]
    case PublishMany(approval, r, results, _) =>
      if Stored(t, r.operation) || t.operations[r.operation].receipt.None? then []
      else [BatchEvent(k, approval, r, results, t.operations[r.operation].receipt.value)]
    case Observe(decision) => ClockEvents(t, decision)
    case Repair(_) => Note("clock.repaired")
    case Log(name, text) => if Ordinary(name) then [Event(name, PLAIN.(rest := text))] else []
  }

  // ----------------------------------------------- new events are correlated

  predicate NoBrace(name: string)
  {
    forall i :: 0 <= i < |name| ==> name[i] != '{'
  }

  /** Event names the verifier gives no rotation meaning, and that end where the payload begins. */
  predicate Ordinary(name: string)
  {
    name != ROTATED && name != COMPLETED && NoBrace(name)
  }

  /** An event fit for the log of the given tables. */
  predicate Fit(k: Codec, t: Tables, e: Event)
  {
    Ordinary(e.name) && Correlated(k, t, e.name, e.payload)
  }

  predicate AllFit(k: Codec, t: Tables, events: seq<Event>)
  {
    forall i :: 0 <= i < |events| ==> Fit(k, t, events[i])
  }

  lemma ShortNamesOrdinary()
    ensures Ordinary("approval.prepared") && Ordinary("key.revocation.received") && Ordinary("approval.key_stopped")
    ensures Ordinary("key.revocation.succeeded") && Ordinary("operation.transition") && Ordinary("policy.installed")
  {
    assert |ROTATED| == 17 && |COMPLETED| == 28;
    assert "approval.prepared"[1] != ROTATED[1];
  }

  lemma RevocationNamesOrdinary()
    ensures Ordinary("revocation.tombstones_reconciled") && Ordinary("revocation.epoch_reconciled")
    ensures Ordinary("revocation.epoch_advanced") && Ordinary("reservation.created") && Ordinary("reservation.finalized")
  {
    assert |ROTATED| == 17 && |COMPLETED| == 28;
  }

  lemma ClockNamesOrdinary()
    ensures Ordinary("clock.initialized") && Ordinary("clock.untrusted") && Ordinary("clock.rollback")
    ensures Ordinary("clock.forward_jump") && Ordinary("clock.repaired")
  {
    assert |ROTATED| == 17 && |COMPLETED| == 28;
    assert "clock.initialized"[0] != ROTATED[0];
  }

  lemma CorrelatedNamesOrdinary()
    ensures Ordinary(RECEIVED) && Ordinary(PUBLISHED) && Ordinary(BATCH_PUBLISHED) && Ordinary(APPROVAL_TRANSITION)
  {
    assert |ROTATED| == 17 && |COMPLETED| == 28;
  }

  lemma NamesDiffer()
    ensures RECEIVED != PUBLISHED && RECEIVED != BATCH_PUBLISHED && RECEIVED != APPROVAL_TRANSITION
    ensures PUBLISHED != BATCH_PUBLISHED && PUBLISHED != APPROVAL_TRANSITION && BATCH_PUBLISHED != APPROVAL_TRANSITION
  {
    assert |RECEIVED| == 18 && |PUBLISHED| == 19 && |BATCH_PUBLISHED| == 15 && |APPROVAL_TRANSITION| == 19;
    assert PUBLISHED[0] != APPROVAL_TRANSITION[0];
  }

  lemma ActivatedFits(k: Codec, t: Tables, q: ActivateRequest)
    requires ActivateApproval(t, q).Ok? && t.approvals[q.id].activationOp.None?
    ensures Fit(k, ActivateApproval(t, q).value, ActivatedEvent(k, q))
  {
    CorrelatedNamesOrdinary();
    NamesDiffer();
    ActivateIsRecord(t, q);
  }

  lemma ReceivedFits(k: Codec, t: Tables, q: AttemptRequest)
    requires BeginAttempt(t, q).Ok? && q.operation !in t.operations
    ensures Fit(k, BeginAttempt(t, q).value, ReceivedEvent(k, q))
  {
    CorrelatedNamesOrdinary();
  }

  lemma PublishedFits(k: Codec, t: Tables, approval: string, r: SigningResult)
    requires PublishResult(t, approval, r).Ok? && t.operations[r.operation].result.None?
    ensures t.operations[r.operation].receipt.Some?
    ensures Fit(k, PublishResult(t, approval, r).value,
                PublishedEvent(k, approval, r, t.operations[r.operation].receipt.value))
  {
    CorrelatedNamesOrdinary();
    NamesDiffer();
  }

  function ChildList(k: Codec, results: seq<SigningResult>): (list: seq<ChildDigest>)
    ensures |list| == |results| && forall i :: 0 <= i < |list| ==> list[i] == ChildOf(k, i, results[i])
  {
    seq(|results|, i requires 0 <= i < |results| => ChildOf(k, i, results[i]))
  }

  /** A parent with no earlier rows has exactly the published children; earlier rows would spoil the list. */
  lemma NewChildrenListed(
    k: Codec, children: map<(string, nat), SigningResult>, parent: string, results: seq<SigningResult>)
    requires forall i :: 0 <= i < |results| ==> (parent, i) !in children
    ensures ListsChildren(k, children + NewChildren(parent, results), parent, ChildList(k, results))
       <==> forall key :: key in children ==> key.0 != parent
  {
    var all, added, list := children + NewChildren(parent, results), NewChildren(parent, results), ChildList(k, results);
    forall i | 0 <= i < |list| ensures (parent, list[i].ordinal) in all && all[(parent, list[i].ordinal)] == results[i] {
      assert (parent, i) in added;
    }
    if forall key :: key in children ==> key.0 != parent {
      forall key | key in all && key.0 == parent ensures exists i :: 0 <= i < |list| && list[i].ordinal == key.1 {
        assert key in added && key.1 < |results|;
        assert list[key.1].ordinal == key.1;
      }
    }
    if key :| key in children && key.0 == parent {
      assert key in all;
      assert forall i :: 0 <= i < |list| ==> list[i].ordinal == i;
      assert key == (parent, key.1);
    }
  }

  /** Children are only ever filed under a published parent. */
  predicate ChildrenParented(t: Tables)
  {
    forall key :: key in t.children ==> Stored(t, key.0)
  }

  predicate Childless(t: Tables, parent: string)
  {
    forall key :: key in t.children ==> key.0 != parent
  }

  /** The announcement of a batch matches the tables exactly when no row was filed under the parent before. */
  lemma BatchFits(k: Codec, t: Tables, approval: string, r: SigningResult, results: seq<SigningResult>, derived: seq<string>)
    requires PublishBatch(t, approval, r, results, derived).Ok? && t.operations[r.operation].result.None?
    ensures t.operations[r.operation].receipt.Some?
    ensures Fit(k, PublishBatch(t, approval, r, results, derived).value,
                BatchEvent(k, approval, r, results, t.operations[r.operation].receipt.value))
       <==> Childless(t, r.operation)
  {
    CorrelatedNamesOrdinary();
    NamesDiffer();
    NewChildrenListed(k, t.children, r.operation, results);
  }

  lemma FitConcat(k: Codec, t: Tables, a: seq<Event>, b: seq<Event>)
    requires AllFit(k, t, a) && AllFit(k, t, b)
    ensures AllFit(k, t, a + b)
  {
  }

  lemma {:induction false} FenceFits(k: Codec, t: Tables, b: Tables, ids: set<string>)
    requires forall id :: id in ids ==> id in t.approvals
    ensures AllFit(k, b, FenceEvents(k, t, ids))
  {
    if ids != {} {
      var id :| id in ids
        && FenceEvents(k, t, ids)
           == (if Pending(t.approvals[id].state) then [TransitionEvent(k, id, Failed)] else [])
              + FenceEvents(k, t, ids - {id});
      CorrelatedNamesOrdinary();
      FenceFits(k, t, b, ids - {id});
      var first := if Pending(t.approvals[id].state) then [TransitionEvent(k, id, Failed)] else [];
      FitConcat(k, b, first, FenceEvents(k, t, ids - {id}));
    }
  }

  lemma AdmitFits(k: Codec, t: Tables, q: StopRequest, b: Tables)
    requires AdmitStop(t, q).Ok?
    ensures AllFit(k, b, Events(k, t, AdmitKeyStop(q)))
  {
    if q.operation !in t.operations {
      ShortNamesOrdinary();
      FenceFits(k, t, b, BoundApprovals(t, q.wallet, q.keyRef));
    }
  }

  lemma NotesFit(k: Codec, t: Tables, step: Step, b: Tables)
    requires Try(t, step).Ok?
    requires step.Prepare? || step.Stop? || step.Retire? || step.CompleteKeyStop? || step.Tombstones? || step.Reconcile? || step.Advance?
          || step.Install? || step.MoveOperation? || step.Spend? || step.Finalize? || step.Observe? || step.Repair? || step.Log?
    ensures AllFit(k, b, Events(k, t, step))
  {
    ShortNamesOrdinary();
    RevocationNamesOrdinary();
    ClockNamesOrdinary();
    CorrelatedNamesOrdinary();
  }

  /** A batch that is about to be announced has no stray child rows. */
  predicate BatchClean(t: Tables, step: Step)
  {
    step.PublishMany? && !Stored(t, step.result.operation) ==> Childless(t, step.result.operation)
  }

  /** Every event a committed step writes is correlated with the tables it leaves. */
  lemma EventsFit(k: Codec, t: Tables, step: Step)
    requires Try(t, step).Ok? && BatchClean(t, step)
    ensures AllFit(k, Next(t, step), Events(k, t, step))
  {
    match step
    case Activate(q) => ActivateIsRecord(t, q); if t.approvals[q.id].activationOp.None? { ActivatedFits(k, t, q); }
    case AdmitKeyStop(q) => AdmitFits(k, t, q, Next(t, step));
    case Attempt(q) => if q.operation !in t.operations { ReceivedFits(k, t, q); }
    case Publish(a, r) => if t.operations[r.operation].result.None? { PublishedFits(k, t, a, r); }
    case PublishMany(a, r, rs, d) => if t.operations[r.operation].result.None? { BatchFits(k, t, a, r, rs, d); }
    case _ => NotesFit(k, t, step, Next(t, step));
  }
}
