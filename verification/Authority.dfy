/**
  Where authority and charges come from. Every row of a reachable ledger was
  admitted by one step of the run, whose approval was then usable at the row's
  instant; every active approval was activated by one step, when its wallet's
  epoch was reconciled and its own; and a wallet whose epoch is not reconciled
  gives no authority at all.
*/
module Authority {
  import opened Wrappers
  import opened Accounting
  import opened Budget
  import opened Tables
  import opened History
  import opened Acceptance
  import Limits
  import Identity
  import Renewals
  import Revocation
  import Stops

  // ----------------------------------------------------------------- charges

  /** What stood when a row was charged: usable authority, a clock that admits it, room within every limit. */
  ghost predicate ChargedUnder(t: Tables, r: Reservation)
  {
    && Usable(t, r.approval, r.at)
    && ClockAdmits(t, r.at, LimitsOf(t.approvals[r.approval].terms.limits))
    && WithinLimits(t.reservations, Lineage(t.approvals, r.approval),
                    ReservationRequest(r.approval, r.operation, r.digest, r.signatures, r.at, r.values),
                    LimitsOf(t.approvals[r.approval].terms.limits))
  }

  lemma SpendChargesUnder(t: Tables, q: AuthorizeRequest)
    requires Authorize(t, q).Ok? && Authorize(t, q).value != t
    ensures |Authorize(t, q).value.reservations| == |t.reservations| + 1
    ensures ChargedUnder(t, Authorize(t, q).value.reservations[|t.reservations|])
    ensures q.requestMatches && q.policyMatches && q.claimMatches && q.approvedClaim && q.identityMatches
  {
    AuthorizeExact(t, q);
    AuthorizeIsReserve(t, q);
    var limits := t.approvals[q.approval].terms.limits;
    ReserveExact(t, ChargeOf(limits, q).value, LimitsOf(limits));
  }

  /** From any tables, a new row is charged by an authorization and under usable authority. */
  lemma NewChargeMeans(t: Tables, step: Step, i: nat)
    requires |t.reservations| <= i < |Next(t, step).reservations|
    ensures i == |t.reservations| && step.Spend? && Try(t, step).Ok?
    ensures ChargedUnder(t, Next(t, step).reservations[i])
    ensures var q := step.spend;
      q.requestMatches && q.policyMatches && q.claimMatches && q.approvedClaim && q.identityMatches
  {
    Identity.NewRowIsCharged(t, step, i);
    SpendChargesUnder(t, step.spend);
  }

  lemma ChargedUnderSettled(t: Tables, r: Reservation, s: Reservation)
    requires ChargedUnder(t, r) && s == r.(state := s.state)
    ensures ChargedUnder(t, s)
  {
  }

  /** An approval stored in both with the same reviewed terms. */
  predicate SameTerms(a: Tables, b: Tables, id: string)
  {
    id in a.approvals && id in b.approvals && b.approvals[id].terms == a.approvals[id].terms
  }

  lemma TermsStay(a: Tables, b: Tables, step: Step, id: string)
    requires SameTerms(a, b, id)
    ensures SameTerms(a, Next(b, step), id)
  {
    StepExtends(b, step);
    assert ApprovalExtends(b.approvals[id], Next(b, step).approvals[id]);
  }

  /**
    Every row of every reachable ledger was added by one step of the run, and in
    the tables before that step its approval was stored, untombstoned, active,
    within its validity at the row's instant and of its wallet's reconciled epoch,
    the clock admitted the instant, and the charge fitted every limit. The terms
    are still the ones it was charged under.
  */
  lemma {:induction false} EveryChargeWasAuthorized(steps: seq<Step>, i: nat) returns (j: nat)
    requires i < |Run(EMPTY, steps).reservations|
    ensures j < |steps| && steps[j].Spend? && i == |Run(EMPTY, steps[..j]).reservations|
    ensures ChargedUnder(Run(EMPTY, steps[..j]), Run(EMPTY, steps).reservations[i])
    ensures SameTerms(Run(EMPTY, steps[..j]), Run(EMPTY, steps), Run(EMPTY, steps).reservations[i].approval)
    decreases |steps|
  {
    var n := |steps| - 1;
    var t := Run(EMPTY, steps[..n]);
    if i < |t.reservations| {
      j := EveryChargeWasAuthorized(steps[..n], i);
      assert steps[..n][..j] == steps[..j];
      StepExtends(t, steps[n]);
      assert ReservationExtends(t.reservations[i], Run(EMPTY, steps).reservations[i]);
      ChargedUnderSettled(Run(EMPTY, steps[..j]), t.reservations[i], Run(EMPTY, steps).reservations[i]);
      TermsStay(Run(EMPTY, steps[..j]), t, steps[n], t.reservations[i].approval);
    } else {
      j := n;
      NewChargeMeans(t, steps[n], i);
      TermsStay(t, t, steps[n], Run(EMPTY, steps).reservations[i].approval);
    }
  }

  /** In every reachable state every charge lies within the validity of its approval's terms. */
  lemma ChargesWithinValidity(t: Tables, i: nat)
    requires Reachable(t) && i < |t.reservations|
    ensures var r := t.reservations[i];
      && r.approval in t.approvals
      && t.approvals[r.approval].terms.notBeforeMs <= r.at <= t.approvals[r.approval].terms.expiresAtMs
  {
    var steps :| Run(EMPTY, steps) == t;
    var _ := EveryChargeWasAuthorized(steps, i);
  }

  /**
    A charge of an approval with sliding windows, from any tables: the persisted
    clock stands exactly at the row's instant and its condition is neither
    untrusted nor frozen by a rollback.
  */
  lemma WindowedChargesNeedTrust(t: Tables, step: Step, c: Limits.Cap)
    requires |Next(t, step).reservations| > |t.reservations|
    ensures var r := Next(t, step).reservations[|t.reservations|];
      && r.approval in t.approvals
      && (Limits.Imposes(t.approvals[r.approval].terms.limits, c) ==>
            && t.clock.Some? && t.clock.value.effectiveMs == r.at
            && t.clock.value.condition != Untrusted && t.clock.value.condition != RollbackFrozen)
  {
    NewChargeMeans(t, step, |t.reservations|);
    var limits := t.approvals[Next(t, step).reservations[|t.reservations|].approval].terms.limits;
    if Limits.Imposes(limits, c) {
      Limits.WindowsNeedTrustedTime(limits, c);
    }
  }

  // -------------------------------------------------------------- activations

  /** What stood when an approval was activated. */
  predicate ActivatedUnder(t: Tables, q: ActivateRequest)
  {
    && q.id in t.approvals && t.approvals[q.id].state == AwaitingCeremony
    && q.id !in t.tombstones
    && Current(t, t.approvals[q.id].terms)
    && Replaceable(t, t.approvals[q.id].terms.renewalOf)
    && q.authentic && q.policyEnabled && q.bindingMatches
    && (q.path == CeremonyGrant && t.approvals[q.id].terms.selector == Petal ==>
          (t.approvals[q.id].terms.wallet, t.approvals[q.id].terms.keyRef) !in t.stops)
  }

  lemma ActivateUnder(t: Tables, q: ActivateRequest, id: string)
    requires ActivateApproval(t, q).Ok? && id in t.approvals && t.approvals[id].state != Active
    requires id in ActivateApproval(t, q).value.approvals && ActivateApproval(t, q).value.approvals[id].state == Active
    ensures q.id == id && ActivatedUnder(t, q)
    ensures var a := ActivateApproval(t, q).value.approvals[id];
      a.activationOp == Some(q.operation) && a.grant == Some(q.grant)
  {
    ActivateExact(t, q);
    ActivateIsRecord(t, q);
  }

  /**
    From any tables, an approval becomes active by one kind of step only, and only
    when it awaited its ceremony, carries no tombstone, and its wallet's epoch is
    reconciled and equal to its own.
  */
  lemma ActivationMeans(t: Tables, step: Step, id: string)
    requires NotActive(t, id)
    requires id in Next(t, step).approvals && Next(t, step).approvals[id].state == Active
    ensures step.Activate? && step.activate.id == id && Try(t, step).Ok? && ActivatedUnder(t, step.activate)
    ensures Next(t, step).approvals[id].activationOp == Some(step.activate.operation)
  {
    if step.Activate? {
      ActivateUnder(t, step.activate, id);
    } else {
      OthersDoNotActivate(t, step, id);
      assert false;
    }
  }

  predicate NotActive(t: Tables, id: string)
  {
    id in t.approvals && t.approvals[id].state != Active
  }

  lemma PrepareDoesNotActivate(t: Tables, q: PrepareRequest, id: string)
    requires NotActive(t, id) && PrepareApproval(t, q).Ok?
    ensures NotActive(PrepareApproval(t, q).value, id)
  {
  }

  lemma StopDoesNotActivate(t: Tables, x: string, id: string)
    requires NotActive(t, id) && StopApproval(t, x).Ok?
    ensures NotActive(StopApproval(t, x).value, id)
  {
  }

  lemma RetireDoesNotActivate(t: Tables, x: string, into: ApprovalState, id: string)
    requires NotActive(t, id) && Retiring(into) && TransitionApproval(t, x, into).Ok?
    ensures NotActive(TransitionApproval(t, x, into).value, id)
  {
  }

  lemma AdmitDoesNotActivate(t: Tables, q: StopRequest, id: string)
    requires NotActive(t, id) && AdmitStop(t, q).Ok?
    ensures NotActive(AdmitStop(t, q).value, id)
  {
  }

  lemma OthersDoNotActivate(t: Tables, step: Step, id: string)
    requires NotActive(t, id) && !step.Activate?
    ensures NotActive(Next(t, step), id)
  {
    Frame(t, step);
    if Try(t, step).Ok? {
      match step
      case Stop(x) => StopDoesNotActivate(t, x, id);
      case Retire(x, into) => RetireDoesNotActivate(t, x, into, id);
      case Prepare(q) => PrepareDoesNotActivate(t, q, id);
      case AdmitKeyStop(q) => AdmitDoesNotActivate(t, q, id);
      case _ =>
    }
  }

  /** Every active approval was activated by one step of the run, under exactly these conditions. */
  lemma {:induction false} EveryActivationWasCurrent(steps: seq<Step>, id: string) returns (j: nat)
    requires id in Run(EMPTY, steps).approvals && Run(EMPTY, steps).approvals[id].state == Active
    ensures j < |steps| && steps[j].Activate? && steps[j].activate.id == id
    ensures ActivatedUnder(Run(EMPTY, steps[..j]), steps[j].activate)
    ensures Run(EMPTY, steps).approvals[id].activationOp == Some(steps[j].activate.operation)
    decreases |steps|
  {
    var n := |steps| - 1;
    var t := Run(EMPTY, steps[..n]);
    if id !in t.approvals {
      Stops.FreshIsNotActive(t, steps[n], id);
      assert false;
    }
    StepExtends(t, steps[n]);
    assert ApprovalExtends(t.approvals[id], Run(EMPTY, steps).approvals[id]);
    if t.approvals[id].state == Active {
      j := EveryActivationWasCurrent(steps[..n], id);
      assert steps[..n][..j] == steps[..j];
    } else {
      j := n;
      ActivationMeans(t, steps[n], id);
    }
  }

  // ------------------------------------------------------------ what is stored

  /** Stored terms passed review: their limits are well formed and they renew only within their wallet. */
  predicate Reviewed(t: Tables)
  {
    forall id :: id in t.approvals ==> ReviewedTerms(t.approvals, t.approvals[id].terms)
  }

  predicate ReviewedTerms(approvals: map<string, Approval>, terms: Terms)
  {
    && ValidLimits(terms.limits)
    && (terms.renewalOf.Some? ==>
          terms.renewalOf.value in approvals && approvals[terms.renewalOf.value].terms.wallet == terms.wallet)
  }

  lemma ReviewedCarries(t: Tables, b: Tables, terms: Terms)
    requires ApprovalsExtend(t.approvals, b.approvals) && ReviewedTerms(t.approvals, terms)
    ensures ReviewedTerms(b.approvals, terms)
  {
    if terms.renewalOf.Some? {
      var p := terms.renewalOf.value;
      assert ApprovalExtends(t.approvals[p], b.approvals[p]);
    }
  }

  lemma PreparedIsReviewed(t: Tables, q: PrepareRequest)
    requires PrepareApproval(t, q).Ok? && q.id !in t.approvals
    ensures PrepareApproval(t, q).value.approvals == t.approvals[q.id := PrepareApproval(t, q).value.approvals[q.id]]
    ensures PrepareApproval(t, q).value.approvals[q.id].terms == q.terms && ReviewedTerms(t.approvals, q.terms)
  {
  }

  lemma ReviewedStep(t: Tables, step: Step)
    requires Reviewed(t)
    ensures Reviewed(Next(t, step))
  {
    var b := Next(t, step);
    StepExtends(t, step);
    if step.Prepare? && Try(t, step).Ok? && step.prepare.id !in t.approvals {
      PreparedIsReviewed(t, step.prepare);
    } else if !step.Prepare? {
      Revocation.OnlyPrepareAdds(t, step);
    }
    forall id | id in b.approvals ensures ReviewedTerms(b.approvals, b.approvals[id].terms) {
      if id in t.approvals {
        assert ApprovalExtends(t.approvals[id], b.approvals[id]);
      }
      ReviewedCarries(t, b, b.approvals[id].terms);
    }
  }

  lemma {:induction false} ReviewedRun(t: Tables, steps: seq<Step>)
    requires Reviewed(t)
    ensures Reviewed(Run(t, steps))
  {
    if steps != [] {
      ReviewedRun(t, steps[..|steps| - 1]);
      ReviewedStep(Run(t, steps[..|steps| - 1]), steps[|steps| - 1]);
    }
  }

  lemma {:induction false} AncestorsShareWallet(t: Tables, id: string, a: string)
    requires Reviewed(t) && Renewals.Ordered(t.approvals) && id in t.approvals && a in Lineage(t.approvals, id)
    ensures a in t.approvals && t.approvals[a].terms.wallet == t.approvals[id].terms.wallet
    decreases t.approvals[id].row
  {
    Renewals.LineageUnfolds(t.approvals, id);
    if a != id {
      AncestorsShareWallet(t, t.approvals[id].terms.renewalOf.value, a);
    }
  }

  /** In every reachable state the limits of every approval are well formed, and its whole lineage is of one wallet. */
  lemma LineageStaysInWallet(t: Tables, id: string, a: string)
    requires Reachable(t) && id in t.approvals && a in Lineage(t.approvals, id)
    ensures a in t.approvals && t.approvals[a].terms.wallet == t.approvals[id].terms.wallet
    ensures ValidLimits(t.approvals[a].terms.limits)
  {
    var steps :| Run(EMPTY, steps) == t;
    ReviewedRun(EMPTY, steps);
    Renewals.RenewalReachable(t);
    AncestorsShareWallet(t, id, a);
    assert ReviewedTerms(t.approvals, t.approvals[a].terms);
  }

  // -------------------------------------------------------- unreconciled wallets

  /** The wallet's epoch is stored and not known to be the Signer's. */
  predicate Frozen(t: Tables, wallet: string)
  {
    wallet in t.epochs && !t.epochs[wallet].reconciled
  }

  lemma FrozenStep(t: Tables, step: Step, wallet: string)
    requires Frozen(t, wallet) && !(step.Reconcile? && step.wallet == wallet)
    ensures Frozen(Next(t, step), wallet)
  {
    Frame(t, step);
  }

  /**
    A wallet whose epoch was advanced locally gives no authority until the Signer
    has been asked: in every continuation without a reconciliation of that wallet
    nothing of it is prepared, activated or charged.
  */
  lemma {:induction false} FrozenUntilReconciled(t: Tables, more: seq<Step>, wallet: string)
    requires Frozen(t, wallet)
    requires forall k :: 0 <= k < |more| ==> !(more[k].Reconcile? && more[k].wallet == wallet)
    ensures Frozen(Run(t, more), wallet)
  {
    if more != [] {
      var last := |more| - 1;
      FrozenUntilReconciled(t, more[..last], wallet);
      FrozenStep(Run(t, more[..last]), more[last], wallet);
    }
  }

  lemma FrozenRefuses(t: Tables, wallet: string)
    requires Frozen(t, wallet)
    ensures forall q: AuthorizeRequest :: q.approval in t.approvals && t.approvals[q.approval].terms.wallet == wallet ==>
      Authorize(t, q).Err?
    ensures forall q: ActivateRequest :: q.id in t.approvals && t.approvals[q.id].terms.wallet == wallet ==>
      ActivateApproval(t, q).Err?
    ensures forall q: PrepareRequest :: q.terms.wallet == wallet && q.id !in t.approvals ==> PrepareApproval(t, q).Err?
  {
  }

  lemma AdvancedWalletGivesNothing(t: Tables, wallet: string, expected: U64, next: U64, more: seq<Step>)
    requires AdvanceEpoch(t, wallet, expected, next).Ok?
    requires forall k :: 0 <= k < |more| ==> !(more[k].Reconcile? && more[k].wallet == wallet)
    ensures var later := Run(AdvanceEpoch(t, wallet, expected, next).value, more);
      && (forall q: AuthorizeRequest :: q.approval in later.approvals && later.approvals[q.approval].terms.wallet == wallet ==>
            Authorize(later, q).Err?)
      && (forall q: ActivateRequest :: q.id in later.approvals && later.approvals[q.id].terms.wallet == wallet ==>
            ActivateApproval(later, q).Err?)
      && (forall q: PrepareRequest :: q.terms.wallet == wallet && q.id !in later.approvals ==> PrepareApproval(later, q).Err?)
  {
    AdvanceExact(t, wallet, expected, next);
    FrozenUntilReconciled(AdvanceEpoch(t, wallet, expected, next).value, more, wallet);
    FrozenRefuses(Run(AdvanceEpoch(t, wallet, expected, next).value, more), wallet);
  }
}
