/** First admission freezes what an operation identifier stands for. */
module Identity {
  import opened Wrappers
  import opened Accounting
  import opened Tables
  import opened History
  import opened Limits

  // ---------------------------------------------------------- signing attempts

  /** Accepted attempts under one operation identifier agree on identity, shape, binding and receipt. */
  lemma AttemptsAgree(t: Tables, first: AttemptRequest, more: seq<Step>, again: AttemptRequest)
    requires BeginAttempt(t, first).Ok? && first.operation == again.operation
    requires BeginAttempt(Run(BeginAttempt(t, first).value, more), again).Ok?
    ensures again.digest == first.digest && again.isBatch == first.isBatch
    ensures again.binding == first.binding && again.receipt == first.receipt
  {
    var b := BeginAttempt(t, first).value;
    AdmittedRow(t, first);
    RunExtends(b, more);
    assert OperationExtends(b.operations[first.operation], Run(b, more).operations[first.operation]);
    AdmittedRow(Run(b, more), again);
  }

  /** An accepted attempt leaves an operation row that carries exactly its identity. */
  lemma AdmittedRow(t: Tables, q: AttemptRequest)
    requires BeginAttempt(t, q).Ok?
    ensures var b := BeginAttempt(t, q).value;
      && q.operation in b.operations
      && b.operations[q.operation].digest == q.digest && b.operations[q.operation].isBatch == q.isBatch
      && b.operations[q.operation].binding == q.binding && b.operations[q.operation].receipt == Some(q.receipt)
    ensures q.operation in t.operations ==> BeginAttempt(t, q).value.operations == t.operations
  {
  }

  /** A sign request as the JSON object its binding is taken over. */
  type Request = map<string, string>

  const RETRY_FIELDS: set<string> :=
    {"attempt_id", "attempt_digest", "issuer_boot_epoch", "issued_at_ms", "not_before_ms", "expires_at_ms"}

  const ATTEMPT_BINDING_DOMAIN := "bloom-broker-attempt-binding/v1"

  /** The request without the six fields a retry may change. */
  function Stable(r: Request): Request
  {
    r - RETRY_FIELDS
  }

  /** The preimage of `attempt_retry_binding_digest`; `jcs` is the canonical JSON text. */
  function BindingPreimage(jcs: Request -> string, r: Request): string
  {
    ATTEMPT_BINDING_DOMAIN + jcs(Stable(r))
  }

  /**
    Any two accepted attempts of one operation agree on every field but the six
    retry fields, or their two binding preimages are a collision of the hash.
  */
  lemma RetriesAgree(
    hash: string -> string, jcs: Request -> string,
    t: Tables, first: AttemptRequest, r1: Request, more: seq<Step>, again: AttemptRequest, r2: Request)
    requires forall a: Request, b: Request :: jcs(a) == jcs(b) ==> a == b
    requires BeginAttempt(t, first).Ok? && first.operation == again.operation
    requires BeginAttempt(Run(BeginAttempt(t, first).value, more), again).Ok?
    requires first.binding == hash(BindingPreimage(jcs, r1)) && again.binding == hash(BindingPreimage(jcs, r2))
    ensures (forall f :: f !in RETRY_FIELDS ==>
               (f in r1 <==> f in r2) && (f in r1 ==> r1[f] == r2[f]))
         || (BindingPreimage(jcs, r1) != BindingPreimage(jcs, r2)
             && hash(BindingPreimage(jcs, r1)) == hash(BindingPreimage(jcs, r2)))
  {
    AttemptsAgree(t, first, more, again);
    if BindingPreimage(jcs, r1) == BindingPreimage(jcs, r2) {
      var n := |ATTEMPT_BINDING_DOMAIN|;
      assert BindingPreimage(jcs, r1)[n..] == jcs(Stable(r1));
      assert BindingPreimage(jcs, r2)[n..] == jcs(Stable(r2));
      assert Stable(r1) == Stable(r2);
      forall f | f !in RETRY_FIELDS ensures (f in r1 <==> f in r2) && (f in r1 ==> r1[f] == r2[f]) {
        assert f in Stable(r1) <==> f in r1;
        assert f in Stable(r2) <==> f in r2;
      }
    }
  }

  // ------------------------------------------------------------- reservations

  lemma {:induction false} FindUnique(rows: seq<Reservation>, i: nat)
    requires KeysUnique(rows) && i < |rows|
    ensures Find(rows, rows[i].approval, rows[i].operation) == i
  {
    assert forall k :: 0 <= k < i ==> rows[k].approval != rows[i].approval || rows[k].operation != rows[i].operation;
  }

  /** The limits a stored approval was reviewed with. */
  function LimitsFor(t: Tables, id: string): Budget.ApprovalLimits
    requires id in t.approvals
  {
    t.approvals[id].terms.limits
  }

  /** A committed charge has exactly one row, which carries what the request's claim declares. */
  lemma ChargeRecorded(t: Tables, q: AuthorizeRequest)
    requires Authorize(t, q).Ok?
    ensures q.approval in t.approvals && ChargeOf(LimitsFor(t, q.approval), q).Ok?
    ensures var rows := Authorize(t, q).value.reservations;
      var i := Find(rows, q.approval, q.operation);
      i < |rows| && rows[i].state == Reserved && Matches(rows[i], ChargeOf(LimitsFor(t, q.approval), q).value)
    ensures Find(t.reservations, q.approval, q.operation) < |t.reservations| ==> Authorize(t, q).value == t
  {
    AuthorizeIsReserve(t, q);
    SpendAdmits(t, q);
    if Authorize(t, q).value != t {
      AppendedIsFound(t.reservations, RowOf(ChargeOf(LimitsFor(t, q.approval), q).value));
    }
  }

  lemma AppendedIsFound(rows: seq<Reservation>, r: Reservation)
    requires forall j :: 0 <= j < |rows| ==> rows[j].approval != r.approval || rows[j].operation != r.operation
    ensures Find(rows + [r], r.approval, r.operation) == |rows|
  {
    var all := rows + [r];
    assert all[|rows|] == r && forall k :: 0 <= k < |rows| ==> all[k] == rows[k];
  }

  lemma FoundStays(a: seq<Reservation>, b: seq<Reservation>, approval: string, operation: string)
    requires ReservationsExtend(a, b) && KeysUnique(b) && Find(a, approval, operation) < |a|
    ensures var i := Find(a, approval, operation);
      b[i] == a[i].(state := b[i].state) && Find(b, approval, operation) == i
  {
    var i := Find(a, approval, operation);
    assert ReservationExtends(a[i], b[i]);
    FindUnique(b, i);
  }

  /**
    A repeated reservation is charged once: any later accepted authorization of
    the same approval and operation carries the same amounts and writes nothing,
    so the one row keeps the time of the first.
  */
  lemma ChargedOnce(t: Tables, first: AuthorizeRequest, more: seq<Step>, later: Tables, again: AuthorizeRequest)
    requires Reachable(t) && Authorize(t, first).Ok?
    requires later == Run(Authorize(t, first).value, more)
    requires again.approval == first.approval && again.operation == first.operation
    ensures KeysUnique(later.reservations)
    ensures var i := Find(Authorize(t, first).value.reservations, first.approval, first.operation);
      && i < |Authorize(t, first).value.reservations| <= |later.reservations|
      && later.reservations[i] == Authorize(t, first).value.reservations[i].(state := later.reservations[i].state)
      && Find(later.reservations, first.approval, first.operation) == i
    ensures Authorize(later, again).Ok? ==>
      && Authorize(later, again).value == later
      && again.digest == first.digest
      && again.signatures == first.signatures
      && first.approval in t.approvals
      && Budget.DeclaredValues(LimitsFor(t, first.approval).values, again.claim)
         == Budget.DeclaredValues(LimitsFor(t, first.approval).values, first.claim)
  {
    var b := Authorize(t, first).value;
    ChargeRecorded(t, first);
    ChargedContinues(t, first, more, later);
    FoundStays(b.reservations, later.reservations, first.approval, first.operation);
    if Authorize(later, again).Ok? {
      ChargeRecorded(later, again);
      SameDeclared(LimitsFor(t, first.approval), first, again,
                   later.reservations[Find(later.reservations, first.approval, first.operation)]);
    }
  }

  lemma ChargedContinues(t: Tables, q: AuthorizeRequest, more: seq<Step>, later: Tables)
    requires Reachable(t) && Authorize(t, q).Ok? && later == Run(Authorize(t, q).value, more)
    ensures KeysUnique(later.reservations)
    ensures ReservationsExtend(Authorize(t, q).value.reservations, later.reservations)
    ensures q.approval in t.approvals && q.approval in later.approvals
    ensures later.approvals[q.approval].terms == t.approvals[q.approval].terms
  {
    LedgerReachable(t);
    SpendKeepsLedger(t, q);
    SpendKeepsRenewals(t, q);
    LedgerRun(Authorize(t, q).value, more);
    RunExtends(Authorize(t, q).value, more);
    AuthorizeIsReserve(t, q);
    assert ApprovalExtends(Authorize(t, q).value.approvals[q.approval], later.approvals[q.approval]);
  }

  /** Two requests that match one row declare the same. */
  lemma SameDeclared(limits: Budget.ApprovalLimits, first: AuthorizeRequest, again: AuthorizeRequest, row: Reservation)
    requires ChargeOf(limits, first).Ok? && Matches(row, ChargeOf(limits, first).value)
    requires ChargeOf(limits, again).Ok? && Matches(row, ChargeOf(limits, again).value)
    ensures again.digest == first.digest && again.signatures == first.signatures
    ensures Budget.DeclaredValues(limits.values, again.claim) == Budget.DeclaredValues(limits.values, first.claim)
  {
  }

  // ---------------------------------------------------------------- provenance

  /** The row stands for the request: what its claim declares, under the limits its approval was reviewed with. */
  predicate ChargedFor(t: Tables, i: nat, q: AuthorizeRequest)
    requires i < |t.reservations|
  {
    && q.approval in t.approvals
    && ChargeOf(LimitsFor(t, q.approval), q).Ok?
    && t.reservations[i] == RowOf(ChargeOf(LimitsFor(t, q.approval), q).value).(state := t.reservations[i].state)
  }

  lemma ChargedForStays(t: Tables, b: Tables, i: nat, q: AuthorizeRequest)
    requires Extends(t, b) && i < |t.reservations| && ChargedFor(t, i, q)
    ensures ChargedFor(b, i, q)
  {
    assert ApprovalExtends(t.approvals[q.approval], b.approvals[q.approval]);
    assert ReservationExtends(t.reservations[i], b.reservations[i]);
  }

  /** A row that was not there before is the charge of the step that added it. */
  lemma NewRowIsCharged(t: Tables, step: Step, i: nat)
    requires |t.reservations| <= i < |Next(t, step).reservations|
    ensures step.Spend? && ChargedFor(Next(t, step), i, step.spend)
  {
    if step.Spend? {
      if Try(t, step).Ok? {
        SpendAdmits(t, step.spend);
      }
    } else {
      OnlySpendAddsRows(t, step);
    }
  }

  /**
    Every row of every reachable ledger is the charge of one accepted
    authorization of the run, and its values are, asset by asset, exactly the sums
    that authorization's claim declares.
  */
  lemma {:induction false} EveryChargeWasDeclared(steps: seq<Step>, i: nat) returns (j: nat)
    requires i < |Run(EMPTY, steps).reservations|
    ensures j < |steps| && steps[j].Spend? && ChargedFor(Run(EMPTY, steps), i, steps[j].spend)
    ensures Budget.Tallies(Run(EMPTY, steps).reservations[i].values, Budget.DeclaredBy(steps[j].spend.claim))
    decreases |steps|
  {
    var n := |steps| - 1;
    var t := Run(EMPTY, steps[..n]);
    if i < |t.reservations| {
      j := EveryChargeWasDeclared(steps[..n], i);
      StepExtends(t, steps[n]);
      ChargedForStays(t, Run(EMPTY, steps), i, steps[j].spend);
    } else {
      j := n;
      NewRowIsCharged(t, steps[n], i);
    }
    var q := steps[j].spend;
    Budget.DeclaredValuesMean(LimitsFor(Run(EMPTY, steps), q.approval).values, q.claim);
  }
}
