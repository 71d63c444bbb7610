/**
  Signer tombstones and wallet epochs. Every durable write of a reconciliation
  is its own step, so a crash may fall between any two of them; authority that a
  tombstone or a newer epoch has ended is never charged again all the same.
*/
module Revocation {
  import opened Accounting
  import opened Tables
  import opened History
  import Limits

  /** Ended by a Signer tombstone, or left behind by the wallet epoch. */
  predicate Ended(t: Tables, id: string)
  {
    || id in t.tombstones
    || (id in t.approvals && t.approvals[id].terms.epoch < EpochOf(t, t.approvals[id].terms.wallet).value)
  }

  predicate Live(s: ApprovalState)
  {
    StopState(s).Some?
  }

  lemma EndedExtends(t: Tables, b: Tables, id: string)
    requires Extends(t, b) && Ended(t, id)
    ensures Ended(b, id)
  {
    if id !in t.tombstones {
      assert ApprovalExtends(t.approvals[id], b.approvals[id]);
    }
  }

  /** The authorization gate refuses ended authority. */
  lemma EndedIsRefused(t: Tables, q: AuthorizeRequest)
    requires Ended(t, q.approval)
    ensures Authorize(t, q).Err?
  {
  }

  /** The charges of an approval, in ledger order. */
  function ChargesOf(rows: seq<Reservation>, id: string): seq<nat>
  {
    if rows == [] then []
    else if rows[|rows| - 1].approval == id then ChargesOf(rows[..|rows| - 1], id) + [|rows| - 1]
    else ChargesOf(rows[..|rows| - 1], id)
  }

  lemma {:induction false} SameOwnersSameCharges(a: seq<Reservation>, b: seq<Reservation>, id: string)
    requires |a| == |b| && forall i :: 0 <= i < |a| ==> a[i].approval == b[i].approval
    ensures ChargesOf(a, id) == ChargesOf(b, id)
  {
    if a != [] {
      SameOwnersSameCharges(a[..|a| - 1], b[..|b| - 1], id);
    }
  }

  lemma EndedStep(t: Tables, step: Step, id: string)
    requires Ended(t, id)
    ensures ChargesOf(Next(t, step).reservations, id) == ChargesOf(t.reservations, id)
  {
    if step.Spend? {
      if Try(t, step).Ok? { EndedSpend(t, step.spend, id); }
    } else {
      StepExtends(t, step);
      Limits.OnlySpendAddsRows(t, step);
      SettledChargesStay(t.reservations, Next(t, step).reservations, id);
    }
  }

  lemma SettledChargesStay(a: seq<Reservation>, b: seq<Reservation>, id: string)
    requires |a| == |b| && ReservationsExtend(a, b)
    ensures ChargesOf(b, id) == ChargesOf(a, id)
  {
    forall i | 0 <= i < |a| ensures b[i].approval == a[i].approval {
      assert ReservationExtends(a[i], b[i]);
    }
    SameOwnersSameCharges(b, a, id);
  }

  lemma EndedSpend(t: Tables, q: AuthorizeRequest, id: string)
    requires Ended(t, id) && Authorize(t, q).Ok?
    ensures ChargesOf(Authorize(t, q).value.reservations, id) == ChargesOf(t.reservations, id)
  {
    if q.approval == id {
      EndedIsRefused(t, q);
    } else {
      AuthorizeIsReserve(t, q);
      var b := Authorize(t, q).value;
      var limits := t.approvals[q.approval].terms.limits;
      ReserveExtends(t, ChargeOf(limits, q).value, Budget.LimitsOf(limits));
      if b != t {
        assert b.reservations[..|t.reservations|] == t.reservations;
      }
    }
  }

  /**
    At every crash point and in every continuation: the tombstones only grow, the
    wallet epoch never decreases, and an approval that a tombstone or a newer
    epoch has ended is refused by every later authorization and never charged.
  */
  lemma {:induction false} EndedForever(t: Tables, more: seq<Step>, id: string)
    requires Ended(t, id)
    ensures Ended(Run(t, more), id)
    ensures forall q: AuthorizeRequest :: q.approval == id ==> Authorize(Run(t, more), q).Err?
    ensures ChargesOf(Run(t, more).reservations, id) == ChargesOf(t.reservations, id)
  {
    RunExtends(t, more);
    EndedExtends(t, Run(t, more), id);
    forall q: AuthorizeRequest | q.approval == id ensures Authorize(Run(t, more), q).Err? {
      EndedIsRefused(Run(t, more), q);
    }
    if more != [] {
      var last := |more| - 1;
      EndedForever(t, more[..last], id);
      EndedStep(Run(t, more[..last]), more[last], id);
    }
  }

  lemma RevocationGrows(t: Tables, more: seq<Step>)
    ensures forall id :: id in t.tombstones ==>
      id in Run(t, more).tombstones && Run(t, more).tombstones[id] == t.tombstones[id]
    ensures forall wallet :: EpochOf(t, wallet).value <= EpochOf(Run(t, more), wallet).value
  {
    RunExtends(t, more);
  }

  // ------------------------------------------------------------------ epochs

  /** No stored approval is ahead of its wallet's epoch. */
  predicate EpochsBound(t: Tables)
  {
    forall id :: id in t.approvals ==> t.approvals[id].terms.epoch <= EpochOf(t, t.approvals[id].terms.wallet).value
  }

  lemma PrepareBound(t: Tables, q: PrepareRequest)
    requires EpochsBound(t) && PrepareApproval(t, q).Ok?
    ensures EpochsBound(PrepareApproval(t, q).value)
  {
  }

  lemma EpochsCarry(t: Tables, b: Tables)
    requires EpochsBound(t) && Extends(t, b) && b.approvals.Keys == t.approvals.Keys
    ensures EpochsBound(b)
  {
    forall id | id in b.approvals
      ensures b.approvals[id].terms.epoch <= EpochOf(b, b.approvals[id].terms.wallet).value
    {
      assert ApprovalExtends(t.approvals[id], b.approvals[id]);
    }
  }

  lemma EpochStep(t: Tables, step: Step)
    requires EpochsBound(t)
    ensures EpochsBound(Next(t, step))
  {
    if step.Prepare? {
      if Try(t, step).Ok? { PrepareBound(t, step.prepare); }
    } else {
      StepExtends(t, step);
      OnlyPrepareAdds(t, step);
      EpochsCarry(t, Next(t, step));
    }
  }

  lemma OnlyPrepareAdds(t: Tables, step: Step)
    requires !step.Prepare?
    ensures Next(t, step).approvals.Keys == t.approvals.Keys
  {
    Frame(t, step);
    if step.Activate? && Try(t, step).Ok? {
      ActivateIsRecord(t, step.activate);
    }
  }

  lemma {:induction false} EpochRun(t: Tables, steps: seq<Step>)
    requires EpochsBound(t)
    ensures EpochsBound(Run(t, steps))
  {
    if steps != [] {
      EpochRun(t, steps[..|steps| - 1]);
      EpochStep(Run(t, steps[..|steps| - 1]), steps[|steps| - 1]);
    }
  }

  lemma EpochReachable(t: Tables)
    requires Reachable(t)
    ensures EpochsBound(t)
  {
    var steps :| Run(EMPTY, steps) == t;
    EpochRun(EMPTY, steps);
  }

  /** Every live approval of the wallet carries exactly this epoch. */
  predicate WalletCurrent(t: Tables, wallet: string, epoch: nat)
  {
    forall id :: id in t.approvals && t.approvals[id].terms.wallet == wallet && Live(t.approvals[id].state) ==>
      t.approvals[id].terms.epoch == epoch
  }
}
