/**
  Short runs that show where a reviewed window does not mean what it seems to:
  building blocks for reachable tables with one approval and its renewal.
*/
module Scenarios {
  import opened Wrappers
  import opened Accounting
  import opened Budget
  import opened Tables

  const ROOT := "root"
  const RENEWAL := "renewal"

  function TermsWith(limits: ApprovalLimits, renewalOf: Option<string>): Terms
  {
    Terms("wallet", "key", Exact, limits, 0, 0, U64_MAX, renewalOf, "")
  }

  function ApprovalWith(
    row: nat, limits: ApprovalLimits, renewalOf: Option<string>, state: ApprovalState, activation: Option<string>): Approval
  {
    Approval(row, TermsWith(limits, renewalOf), "", None, state, activation, activation)
  }

  function Awaiting(row: nat, limits: ApprovalLimits, renewalOf: Option<string>): Approval
  {
    ApprovalWith(row, limits, renewalOf, AwaitingCeremony, None)
  }

  function RootIn(limits: ApprovalLimits, state: ApprovalState): Approval
  {
    ApprovalWith(0, limits, None, state, Some("first"))
  }

  function RenewalIn(limits: ApprovalLimits): Approval
  {
    ApprovalWith(1, limits, Some(ROOT), Active, Some("second"))
  }

  /** A wallet whose epoch is reconciled, and nothing revoked. */
  predicate Open(t: Tables)
  {
    t.tombstones == map[] && t.epochs == map["wallet" := Epoch(0, true)]
  }

  lemma Start() returns (t: Tables)
    ensures Reachable(t) && t == EMPTY.(epochs := map["wallet" := Epoch(0, true)])
  {
    assert Run(EMPTY, []) == EMPTY;
    StepReaches(EMPTY, Install("wallet"));
    t := EMPTY.(epochs := map["wallet" := Epoch(0, true)]);
    assert Next(EMPTY, Install("wallet")) == t;
  }

  lemma Tick(t: Tables, ms: U64) returns (b: Tables)
    requires Reachable(t) && t.clock.None?
    ensures Reachable(b) && b == t.(clock := Some(Clock(ms, Healthy)))
  {
    var step := Observe(Clock(ms, Healthy));
    StepReaches(t, step);
    b := Next(t, step);
  }

  lemma PrepareOne(t: Tables, id: string, limits: ApprovalLimits, renewalOf: Option<string>) returns (b: Tables)
    requires Reachable(t) && Open(t) && ValidLimits(limits) && id !in t.approvals
    requires renewalOf.Some? ==>
      renewalOf.value in t.approvals && t.approvals[renewalOf.value].state == Active
      && t.approvals[renewalOf.value].terms.wallet == "wallet"
    ensures Reachable(b)
    ensures b == t.(approvals := t.approvals[id := Awaiting(t.rows, limits, renewalOf)], rows := t.rows + 1)
  {
    var q := PrepareRequest(id, TermsWith(limits, renewalOf), "", None, true, true, true, true);
    assert PrepareApproval(t, q).Ok?;
    StepReaches(t, Prepare(q));
    b := PrepareApproval(t, q).value;
  }

  lemma ActivateOne(t: Tables, id: string, operation: string, next: map<string, Approval>) returns (b: Tables)
    requires Reachable(t) && Open(t) && id in t.approvals
    requires t.approvals[id].terms.wallet == "wallet" && t.approvals[id].terms.epoch == 0
    requires ActivateRecord(t, id, operation, operation) == Ok(t.(approvals := next))
    ensures Reachable(b) && b == t.(approvals := next)
  {
    var q := ActivateRequest(id, operation, operation, SignerReceipt, true, true, true);
    b := t.(approvals := next);
    assert ActivateApproval(t, q) == Ok(b);
    StepReaches(t, Activate(q));
  }

  /** One active approval. */
  lemma Root(t: Tables, limits: ApprovalLimits) returns (b: Tables)
    requires Reachable(t) && Open(t) && t.approvals == map[] && t.rows == 0 && ValidLimits(limits)
    ensures Reachable(b) && b == t.(approvals := map[ROOT := RootIn(limits, Active)], rows := 1)
  {
    var p := PrepareOne(t, ROOT, limits, None);
    var next := map[ROOT := RootIn(limits, Active)];
    assert p.approvals[ROOT := RootIn(limits, Active)] == next;
    assert ActivateRecord(p, ROOT, "first", "first") == Ok(p.(approvals := next));
    b := ActivateOne(p, ROOT, "first", next);
  }

  /** Its renewal, which revokes it. */
  lemma Renewed(t: Tables, limits: ApprovalLimits, renewed: ApprovalLimits) returns (b: Tables)
    requires Reachable(t) && Open(t) && t.approvals == map[ROOT := RootIn(limits, Active)] && t.rows == 1
    requires ValidLimits(renewed)
    ensures Reachable(b)
    ensures b == t.(approvals := map[ROOT := RootIn(limits, Revoked), RENEWAL := RenewalIn(renewed)], rows := 2)
  {
    NamesDiffer();
    var p := PrepareOne(t, RENEWAL, renewed, Some(ROOT));
    var next := map[ROOT := RootIn(limits, Revoked), RENEWAL := RenewalIn(renewed)];
    assert p.approvals[ROOT := RootIn(limits, Revoked)][RENEWAL := RenewalIn(renewed)] == next;
    SecondActivation(p, limits, renewed);
    b := ActivateOne(p, RENEWAL, "second", next);
  }

  lemma NamesDiffer()
    ensures ROOT != RENEWAL && "first" != "second"
  {
    assert |ROOT| == 4 && |RENEWAL| == 7 && |"first"| == 5 && |"second"| == 6;
  }

  lemma SecondActivation(t: Tables, limits: ApprovalLimits, renewed: ApprovalLimits)
    requires t.approvals == map[ROOT := RootIn(limits, Active), RENEWAL := Awaiting(1, renewed, Some(ROOT))]
    ensures ActivateRecord(t, RENEWAL, "second", "second")
         == Ok(t.(approvals := t.approvals[ROOT := RootIn(limits, Revoked)][RENEWAL := RenewalIn(renewed)]))
  {
    NamesDiffer();
    var revoked := t.approvals[ROOT := RootIn(limits, Revoked)];
    assert RevokePredecessor(t.approvals, Some(ROOT)) == Ok(revoked);
    forall o | o in revoked ensures revoked[o].activationOp != Some("second") {
      assert o == ROOT || o == RENEWAL;
    }
  }

  /** The renewal's lineage is both approvals. */
  lemma RenewedLineage(approvals: map<string, Approval>, limits: ApprovalLimits, renewed: ApprovalLimits)
    requires approvals == map[ROOT := RootIn(limits, Revoked), RENEWAL := RenewalIn(renewed)]
    ensures Lineage(approvals, RENEWAL) == {ROOT, RENEWAL}
  {
    NamesDiffer();
    assert LineageFrom(approvals, ROOT, {} + {RENEWAL}) == {ROOT};
  }

  function Spending(id: string, operation: string, at: U64, claim: Claim): AuthorizeRequest
  {
    AuthorizeRequest(id, operation, "", 1, at, claim, true, true, true, true, true)
  }

  function Charging(id: string, operation: string, at: U64, values: map<string, nat>): ReservationRequest
  {
    ReservationRequest(id, operation, "", 1, at, values)
  }

  /** What a charge of the given claim must pass. */
  predicate Chargeable(t: Tables, id: string, operation: string, at: U64, claim: Claim, values: map<string, nat>)
  {
    && Open(t)
    && id in t.approvals && t.approvals[id].state == Active
    && t.approvals[id].terms == TermsWith(t.approvals[id].terms.limits, t.approvals[id].terms.renewalOf)
    && ClockCheck(t.clock, at, TrustedTimeRequired(LimitsOf(t.approvals[id].terms.limits))).Ok?
    && Find(t.reservations, id, operation) == |t.reservations|
    && DeclaredValues(t.approvals[id].terms.limits.values, claim) == Ok(values)
    && Verdict(t.reservations, Lineage(t.approvals, id), Charging(id, operation, at, values),
               LimitsOf(t.approvals[id].terms.limits)).Ok?
  }

  lemma ChargeableIsCharged(t: Tables, id: string, operation: string, at: U64, claim: Claim, values: map<string, nat>)
    requires Chargeable(t, id, operation, at, claim, values)
    ensures Authorize(t, Spending(id, operation, at, claim))
         == Ok(t.(reservations := t.reservations + [RowOf(Charging(id, operation, at, values))]))
  {
    var q := Spending(id, operation, at, claim);
    assert Gate(t, q) == Ok(t.approvals[id].terms.limits);
    assert ChargeOf(t.approvals[id].terms.limits, q) == Ok(Charging(id, operation, at, values));
  }

  /** A charge that the clock and every limit admit. */
  lemma ChargeOnce(t: Tables, id: string, operation: string, at: U64, claim: Claim, values: map<string, nat>) returns (b: Tables)
    requires Reachable(t) && Chargeable(t, id, operation, at, claim, values)
    ensures Reachable(b)
    ensures b == t.(reservations := t.reservations + [RowOf(Charging(id, operation, at, values))])
  {
    ChargeableIsCharged(t, id, operation, at, claim, values);
    StepReaches(t, Spend(Spending(id, operation, at, claim)));
    b := t.(reservations := t.reservations + [RowOf(Charging(id, operation, at, values))]);
  }
}
