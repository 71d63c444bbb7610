/**
  The one-way switch. A lock that cannot verify the log disables mutations, and
  nothing that happens to the connection afterwards enables them again.
*/
module Degradation {
  import opened Wrappers
  import opened Correlation
  import opened TailCache

  /**
    What the two lookups answer while the cached tail stands for what it says:
    exactly what full verification would, whether or not they ran it. A lock also
    needs mutations enabled, and disables them when the log does not verify.
  */
  lemma LookupsExact(k: Codec, b: Broker)
    requires TailInv(k, b)
    ensures LockForMutation(k, b).1
         == if !b.degraded && Verified(k, b.trusted, b.current, b.db) then Some(HeadOf(b.db.chain)) else None
    ensures LockForMutation(k, b).0.degraded <==> b.degraded || !Verified(k, b.trusted, b.current, b.db)
    ensures CheckpointCommittedHead(k, b).1
         == if Verified(k, b.trusted, b.current, b.db) then Some(HeadOf(b.db.chain)) else None
    ensures CheckpointCommittedHead(k, b).0.degraded == b.degraded
  {
  }

  /** A refused lock leaves the Broker degraded and its database untouched, a granted one leaves it enabled. */
  lemma RefusedLockLatches(k: Codec, b: Broker)
    ensures LockForMutation(k, b).0.degraded <==> LockForMutation(k, b).1.None?
    ensures LockForMutation(k, b).0.db == b.db
  {
  }

  lemma DegradedStep(k: Codec, b: Broker, a: Action)
    requires b.degraded
    ensures Act(k, b, a).degraded
  {
  }

  /** Degradation is for ever: after any actions, other writers' included, every lock is refused. */
  lemma {:induction false} DegradedForever(k: Codec, b: Broker, actions: seq<Action>)
    requires b.degraded
    ensures var later := ActAll(k, b, actions);
      later.degraded && LockForMutation(k, later) == (later, None)
  {
    if actions != [] {
      var last := |actions| - 1;
      DegradedForever(k, b, actions[..last]);
      DegradedStep(k, ActAll(k, b, actions[..last]), actions[last]);
    }
  }

  lemma {:induction false} ActConcat(k: Codec, b: Broker, xs: seq<Action>, ys: seq<Action>)
    ensures ActAll(k, b, xs + ys) == ActAll(k, ActAll(k, b, xs), ys)
  {
    if ys == [] {
      assert xs + ys == xs;
    } else {
      ActConcat(k, b, xs, ys[..|ys| - 1]);
      assert (xs + ys)[..|xs + ys| - 1] == xs + ys[..|ys| - 1];
    }
  }

  /** Whatever came before and whatever comes after, a lock that was refused once is refused at every later moment. */
  lemma RefusedOnceRefusedForever(k: Codec, start: Broker, before: seq<Action>, after: seq<Action>)
    requires LockForMutation(k, ActAll(k, start, before)).1.None?
    ensures var later := ActAll(k, start, before + [Lock] + after);
      later.degraded && LockForMutation(k, later).1.None?
  {
    var b := ActAll(k, start, before + [Lock]);
    assert (before + [Lock])[..|before|] == before;
    RefusedLockLatches(k, ActAll(k, start, before));
    ActConcat(k, start, before + [Lock], after);
    DegradedForever(k, b, after);
  }

  // ----------------------------------------------------- guarded mutations

  /** A mutation as every caller runs it: locked before, checkpointed after. */
  ghost function Guarded(k: Codec, b: Broker, a: Action): Broker
  {
    if a.Own? || a.RotateKey? then
      var (locked, head) := LockForMutation(k, b);
      if head.None? then locked else CheckpointCommittedHead(k, Act(k, locked, a)).0
    else Act(k, b, a)
  }

  ghost function GuardedAll(k: Codec, b: Broker, actions: seq<Action>): Broker
  {
    if actions == [] then b else Guarded(k, GuardedAll(k, b, actions[..|actions| - 1]), actions[|actions| - 1])
  }

  /** A guarded action is at most three actions of the connection, so whatever holds of all runs holds of guarded ones. */
  lemma GuardedIsActions(k: Codec, b: Broker, a: Action) returns (actions: seq<Action>)
    ensures Guarded(k, b, a) == ActAll(k, b, actions)
    ensures forall i :: 0 <= i < |actions| ==> actions[i] == a || !actions[i].Foreign?
  {
    var locked := ActAll(k, b, [Lock]);
    assert [Lock][..0] == [];
    assert ActAll(k, b, []) == b;
    assert locked == LockForMutation(k, b).0;
    if !(a.Own? || a.RotateKey?) {
      actions := [a];
      assert [a][..0] == [];
    } else if LockForMutation(k, b).1.None? {
      actions := [Lock];
    } else {
      actions := [Lock, a, Checkpoint];
      assert actions[..2] == [Lock, a] && [Lock, a][..1] == [Lock];
      assert ActAll(k, b, [Lock, a]) == Act(k, locked, a);
    }
  }

  /** A degraded Broker writes nothing: no own transaction or rotation changes the database, whoever else writes it. */
  lemma {:induction false} DegradedWritesNothing(k: Codec, b: Broker, actions: seq<Action>)
    requires b.degraded
    ensures GuardedAll(k, b, actions).degraded
    ensures forall i :: 0 <= i < |actions| && !actions[i].Foreign? ==>
      GuardedAll(k, b, actions[..i + 1]).db == GuardedAll(k, b, actions[..i]).db
  {
    if actions != [] {
      var last := |actions| - 1;
      DegradedWritesNothing(k, b, actions[..last]);
      forall i | 0 <= i < |actions| && !actions[i].Foreign?
        ensures GuardedAll(k, b, actions[..i + 1]).db == GuardedAll(k, b, actions[..i]).db
      {
        if i < last {
          assert actions[..last][..i + 1] == actions[..i + 1] && actions[..last][..i] == actions[..i];
        } else {
          assert actions[..i + 1] == actions;
        }
      }
    }
  }
}
