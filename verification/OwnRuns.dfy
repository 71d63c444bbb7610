/**
  A Broker that shares its database with nobody: verification never degrades it,
  and its checkpoints are ever longer prefixes of one log. And what a foreign
  rewrite of unverified columns can do to the cache.
*/
module OwnRuns {
  import opened Wrappers
  import opened Budget
  import opened Tables
  import opened AuditChain
  import opened Correlation
  import opened TailCache

  predicate OwnOnly(actions: seq<Action>)
  {
    forall i :: 0 <= i < |actions| ==> !actions[i].Foreign?
  }

  /** Nothing has gone wrong, and the log verifies against the live tables. */
  ghost predicate Sane(k: Codec, b: Broker)
  {
    CacheInv(k, b) && !b.degraded && Verified(k, b.trusted, b.current, b.db)
  }

  lemma SaneStep(k: Codec, b: Broker, a: Action)
    requires Sound(k.crypto) && Sane(k, b) && !a.Foreign?
    ensures Sane(k, Act(k, b, a))
  {
    ActKeepsCache(k, b, a);
    match a
    case Own(step, _) =>
      if Transact(k, b.current, b.db, step).Some? { TransactVerified(k, b.trusted, b.current, b.db, step); }
    case RotateKey(newKey, _) =>
      VerifiedIsNumbered(k.crypto, b.trusted, b.current, b.db.chain);
      if newKey != b.current && |b.db.chain| < I64_MAX { RotationVerified(k, b.trusted, b.current, b.db, newKey); }
    case _ =>
  }

  lemma {:induction false} SaneRun(k: Codec, b: Broker, actions: seq<Action>)
    requires Sound(k.crypto) && Sane(k, b) && OwnOnly(actions)
    ensures Sane(k, ActAll(k, b, actions))
  {
    if actions != [] {
      var last := |actions| - 1;
      SaneRun(k, b, actions[..last]);
      SaneStep(k, ActAll(k, b, actions[..last]), actions[last]);
    }
  }

  /** A Broker with empty tables and an empty log. */
  function Opened(key: string): Broker
  {
    Broker(Database(EMPTY, []), key, {key}, 0, 0, None, false, [])
  }

  lemma OpenedIsSane(k: Codec, key: string)
    ensures Sane(k, Opened(key))
  {
  }

  /**
    Every entry a Broker ever wrote still matches its tables: after any run of its
    own transactions, rotations, lookups and checkpoints, the whole log verifies,
    mutations were never disabled, and neither a lookup nor a checkpoint fails.
  */
  lemma OwnStepsNeverDegrade(k: Codec, key: string, actions: seq<Action>)
    requires Sound(k.crypto) && OwnOnly(actions)
    ensures var b := ActAll(k, Opened(key), actions);
      && !b.degraded
      && Verified(k, b.trusted, b.current, b.db)
      && LockForMutation(k, b).1.Some?
      && CheckpointCommittedHead(k, b).1.Some?
  {
    OpenedIsSane(k, key);
    SaneRun(k, Opened(key), actions);
  }

  // -------------------------------------------------------------- checkpoints

  /** Own actions only ever extend the log. */
  lemma LogGrows(k: Codec, b: Broker, a: Action)
    requires !a.Foreign?
    ensures b.db.chain <= Act(k, b, a).db.chain
  {
    match a
    case Own(step, _) =>
      if Transact(k, b.current, b.db, step).Some? {
        AppendAllLength(k.crypto, b.db.chain, b.current, Events(k, b.db.tables, step));
      }
    case _ =>
  }

  /** A checkpoint is the head of the log as it stood. */
  predicate PrefixHead(h: Head, chain: seq<Entry>)
  {
    h.sequence <= |chain| && h == HeadOf(chain[..h.sequence])
  }

  predicate CheckpointsOrdered(b: Broker)
  {
    && (forall i :: 0 <= i < |b.checkpoints| ==> PrefixHead(b.checkpoints[i], b.db.chain))
    && (forall i, j :: 0 <= i < j < |b.checkpoints| ==> b.checkpoints[i].sequence <= b.checkpoints[j].sequence)
  }

  lemma PrefixHeadStays(h: Head, a: seq<Entry>, b: seq<Entry>)
    requires PrefixHead(h, a) && a <= b
    ensures PrefixHead(h, b)
  {
    assert b[..h.sequence] == a[..h.sequence];
  }

  lemma HeadCountsEntries(k: Codec, b: Broker)
    requires Verified(k, b.trusted, b.current, b.db)
    ensures HeadOf(b.db.chain).sequence == |b.db.chain| && PrefixHead(HeadOf(b.db.chain), b.db.chain)
  {
    VerifiedChains(k.crypto, b.trusted, b.current, b.db.chain);
    assert b.db.chain[..|b.db.chain|] == b.db.chain;
    if b.db.chain != [] {
      var last := |b.db.chain| - 1;
      assert EntryOk(k.crypto, b.trusted, b.db.chain[last], last, HeadHash(b.db.chain[..last]));
    }
  }

  lemma CheckpointsCarry(b: Broker, next: Broker)
    requires CheckpointsOrdered(b) && b.db.chain <= next.db.chain && next.checkpoints == b.checkpoints
    ensures CheckpointsOrdered(next)
  {
    forall i | 0 <= i < |b.checkpoints| ensures PrefixHead(b.checkpoints[i], next.db.chain) {
      PrefixHeadStays(b.checkpoints[i], b.db.chain, next.db.chain);
    }
  }

  lemma CheckpointAdds(k: Codec, b: Broker)
    requires Sane(k, b) && CheckpointsOrdered(b)
    ensures CheckpointsOrdered(CheckpointCommittedHead(k, b).0)
  {
    HeadCountsEntries(k, b);
    var next := CheckpointCommittedHead(k, b).0;
    assert next.db == b.db && next.checkpoints == b.checkpoints + [HeadOf(b.db.chain)];
  }

  lemma CheckpointStep(k: Codec, b: Broker, a: Action)
    requires Sound(k.crypto) && Sane(k, b) && CheckpointsOrdered(b) && !a.Foreign?
    ensures CheckpointsOrdered(Act(k, b, a))
  {
    if a.Checkpoint? {
      CheckpointAdds(k, b);
    } else {
      LogGrows(k, b, a);
      CheckpointsCarry(b, Act(k, b, a));
    }
  }

  lemma {:induction false} CheckpointRun(k: Codec, b: Broker, actions: seq<Action>)
    requires Sound(k.crypto) && Sane(k, b) && CheckpointsOrdered(b) && OwnOnly(actions)
    ensures CheckpointsOrdered(ActAll(k, b, actions))
  {
    if actions != [] {
      var last := |actions| - 1;
      CheckpointRun(k, b, actions[..last]);
      SaneRun(k, b, actions[..last]);
      CheckpointStep(k, ActAll(k, b, actions[..last]), actions[last]);
    }
  }

  /**
    Without foreign writers the checkpointed sequences never go backwards, and
    every checkpoint ever made is the head of a prefix of the log as it is now.
  */
  lemma CheckpointsNeverGoBack(k: Codec, key: string, actions: seq<Action>)
    requires Sound(k.crypto) && OwnOnly(actions)
    ensures CheckpointsOrdered(ActAll(k, Opened(key), actions))
  {
    OpenedIsSane(k, key);
    CheckpointRun(k, Opened(key), actions);
  }

  // ------------------------------------------------ an inconsistent rewrite

  const NO_LIMITS := ApprovalLimits(1, 1, [], [], [])
  const SOME_TERMS := Terms("w", "key", Exact, NO_LIMITS, 0, 0, 1, None, "")
  const PREPARATION := PrepareRequest("a", SOME_TERMS, "", None, true, true, true, true)

  function Activation(operation: string, grant: string): ActivateRequest
  {
    ActivateRequest("a", operation, grant, SignerReceipt, true, true, true)
  }

  /** One activated approval. */
  function Granted(grant: string): Tables
  {
    EMPTY.(approvals := map["a" := Approval(0, SOME_TERMS, "", None, Active, Some("first"), Some(grant))],
           rows := 1, epochs := map["w" := Epoch(0, true)])
  }

  /** Put back to its ceremony with its activation identifier cleared, and everything else, the grant included, left in place. */
  function Cleared(t: Tables): Tables
    requires "a" in t.approvals
  {
    t.(approvals := t.approvals["a" := t.approvals["a"].(state := AwaitingCeremony, activationOp := None)])
  }

  lemma OwnCommits(k: Codec, b: Broker, step: Step, next: Tables, events: seq<Event>)
    requires Try(b.db.tables, step) == Ok(next) && Events(k, b.db.tables, step) == events
    requires NextSequence(b.db.chain) + |events| <= I64_MAX + 1
    ensures var after := Act(k, b, Own(step, 0));
      && after.db == Database(next, AppendAll(k.crypto, b.db.chain, b.current, events))
      && after.(db := b.db, totalChanges := b.totalChanges) == b
  {
    TransactIs(k, b.current, b.db, step, next, events);
    CommitWritesDatabase(k, b, step);
  }

  lemma TransactIs(k: Codec, key: string, db: Database, step: Step, next: Tables, events: seq<Event>)
    requires Try(db.tables, step) == Ok(next) && Events(k, db.tables, step) == events
    requires NextSequence(db.chain) + |events| <= I64_MAX + 1
    ensures Transact(k, key, db, step) == Some(Database(next, AppendAll(k.crypto, db.chain, key, events)))
  {
    assert Next(db.tables, step) == next;
  }

  lemma CommitWritesDatabase(k: Codec, b: Broker, step: Step)
    requires Transact(k, b.current, b.db, step).Some?
    ensures var after := Act(k, b, Own(step, 0));
      && after.db == Transact(k, b.current, b.db, step).value
      && after.(db := b.db, totalChanges := b.totalChanges) == b
  {
  }

  lemma InstallOpens(k: Codec, b: Broker)
    requires b.db == Database(EMPTY, [])
    ensures var after := Act(k, b, Own(Install("w"), 0));
      && after.db.tables == EMPTY.(epochs := map["w" := Epoch(0, true)])
      && |after.db.chain| == 1 && after.db.chain[0].sequence == 0
      && after.(db := b.db, totalChanges := b.totalChanges) == b
  {
    var t := EMPTY.(epochs := map["w" := Epoch(0, true)]);
    assert InstallPolicy(EMPTY, "w") == Ok(t);
    OwnCommits(k, b, Install("w"), t, Note("policy.installed"));
    AppendOne(k.crypto, [], b.current, Event("policy.installed", PLAIN));
  }

  lemma PrepareCommits(k: Codec, b: Broker)
    requires b.db.tables == EMPTY.(epochs := map["w" := Epoch(0, true)])
    requires |b.db.chain| == 1 && b.db.chain[0].sequence == 0
    ensures var after := Act(k, b, Own(Prepare(PREPARATION), 0));
      && after.db.tables == b.db.tables.(approvals := map["a" := Approval(0, SOME_TERMS, "", None, AwaitingCeremony, None, None)], rows := 1)
      && |after.db.chain| == 2 && after.db.chain[1].sequence == 1
      && after.(db := b.db, totalChanges := b.totalChanges) == b
  {
    var t := b.db.tables.(approvals := map["a" := Approval(0, SOME_TERMS, "", None, AwaitingCeremony, None, None)], rows := 1);
    assert PrepareApproval(b.db.tables, PREPARATION) == Ok(t);
    OwnCommits(k, b, Prepare(PREPARATION), t, Note("approval.prepared"));
    AppendOne(k.crypto, b.db.chain, b.current, Event("approval.prepared", PLAIN));
  }

  lemma ActivateCommits(k: Codec, b: Broker, grant: string)
    requires Sound(k.crypto)
    requires b.db.tables == Granted(grant).(approvals := map["a" := Approval(0, SOME_TERMS, "", None, AwaitingCeremony, None, None)])
    requires |b.db.chain| == 2 && b.db.chain[1].sequence == 1
    ensures var after := Act(k, b, Own(Activate(Activation("first", grant)), 0));
      && after.db.tables == Granted(grant)
      && |after.db.chain| == 3 && after.db.chain[2].sequence == 2
      && AnnouncesActivation(k, after.db.chain[2], "a")
      && k.crypto.parse(after.db.chain[2].payload).value.activationReceiptDigest == Some(k.crypto.sha(grant))
      && after.(db := b.db, totalChanges := b.totalChanges) == b
  {
    var q := Activation("first", grant);
    assert ActivateRecord(b.db.tables, "a", "first", grant).Ok?;
    assert b.db.tables.approvals["a" := Granted(grant).approvals["a"]] == Granted(grant).approvals;
    assert ActivateApproval(b.db.tables, q) == Ok(Granted(grant));
    OwnCommits(k, b, Activate(q), Granted(grant), [ActivatedEvent(k, q)]);
    AppendOne(k.crypto, b.db.chain, b.current, ActivatedEvent(k, q));
  }

  lemma OneAction(k: Codec, b: Broker, actions: seq<Action>, a: Action)
    ensures ActAll(k, b, actions + [a]) == Act(k, ActAll(k, b, actions), a)
  {
    assert (actions + [a])[..|actions|] == actions;
  }

  lemma OneMoreOwn(k: Codec, b: Broker, actions: seq<Action>, step: Step) returns (more: seq<Action>)
    requires OwnOnly(actions)
    ensures OwnOnly(more) && ActAll(k, b, more) == Act(k, ActAll(k, b, actions), Own(step, 0))
  {
    more := actions + [Own(step, 0)];
    OneAction(k, b, actions, Own(step, 0));
  }

  /** The approval is activated, and the log announces it. */
  predicate HasActivated(k: Codec, b: Broker, grant: string)
  {
    && b.db.tables == Granted(grant) && |b.db.chain| == 3 && b.db.chain[2].sequence == 2
    && AnnouncesActivation(k, b.db.chain[2], "a")
    && k.crypto.parse(b.db.chain[2].payload).value.activationReceiptDigest == Some(k.crypto.sha(grant))
  }

  lemma ThreeCommits(k: Codec, b: Broker, grant: string)
    requires Sound(k.crypto) && b.db == Database(EMPTY, [])
    ensures var after := Act(k, Act(k, Act(k, b, Own(Install("w"), 0)), Own(Prepare(PREPARATION), 0)),
                             Own(Activate(Activation("first", grant)), 0));
      HasActivated(k, after, grant) && after.tail == b.tail && after.degraded == b.degraded
  {
    InstallOpens(k, b);
    var c := Act(k, b, Own(Install("w"), 0));
    PrepareCommits(k, c);
    ActivateCommits(k, Act(k, c, Own(Prepare(PREPARATION), 0)), grant);
  }

  /** A Broker of its own that has activated one approval. */
  lemma ActivatedRun(k: Codec, key: string, grant: string) returns (actions: seq<Action>)
    requires Sound(k.crypto)
    ensures OwnOnly(actions)
    ensures var b := ActAll(k, Opened(key), actions);
      HasActivated(k, b, grant) && b.tail.None? && !b.degraded
  {
    var none: seq<Action> := [];
    var one := OneMoreOwn(k, Opened(key), none, Install("w"));
    var two := OneMoreOwn(k, Opened(key), one, Prepare(PREPARATION));
    actions := OneMoreOwn(k, Opened(key), two, Activate(Activation("first", grant)));
    ThreeCommits(k, Opened(key), grant);
  }

  /** Correlation looks at grants, operations and children, never at an activation identifier or a state. */
  lemma ClearingCorrelates(k: Codec, t: Tables, chain: seq<Entry>)
    requires "a" in t.approvals && AllCorrelated(k, t, chain)
    ensures AllCorrelated(k, Cleared(t), chain)
  {
    forall i | 0 <= i < |chain| ensures EntryCorrelated(k, Cleared(t), chain[i]) {
      assert EntryCorrelated(k, t, chain[i]);
    }
  }

  lemma SecondActivationCommits(k: Codec, key: string, grant: string, chain: seq<Entry>, second: string)
    requires |chain| == 3 && chain[2].sequence == 2
    ensures Transact(k, key, Database(Cleared(Granted(grant)), chain), Activate(Activation("second", second))).Some?
  {
    var t, q := Cleared(Granted(grant)), Activation("second", second);
    assert ActivateRecord(t, "a", "second", second).Ok?;
    assert ActivateApproval(t, q).Ok?;
    assert Events(k, t, Activate(q)) == [ActivatedEvent(k, q)];
  }

  /** Another writer leaves a database; the Broker looks it up and activates. */
  ghost function AfterRewrite(k: Codec, b: Broker, db: Database, q: ActivateRequest): Broker
  {
    Act(k, Act(k, Act(k, b, Foreign(db, 0)), Lock), Own(Activate(q), 0))
  }

  /** The log is checkpointed although it does not verify. */
  predicate Deceived(k: Codec, b: Broker)
  {
    CheckpointCommittedHead(k, b).1.Some? && !Verified(k, b.trusted, b.current, b.db)
  }

  /** From a verified, freshly looked-up database, a dirty activation is checkpointed without verifying. */
  lemma DirtyIsCheckpointed(k: Codec, b: Broker, q: ActivateRequest)
    requires !b.degraded && b.tail.None? && Verified(k, b.trusted, b.current, b.db)
    requires Transact(k, b.current, b.db, Activate(q)).Some? && !ActivationClean(k, b.db, Activate(q))
    ensures Deceived(k, Act(k, Act(k, b, Lock), Own(Activate(q), 0)))
  {
    assert Act(k, b, Lock) == Refresh(b);
    DirtyActivationFails(k, b.current, b.db, q);
  }

  /** The rewrite and what follows it, from a Broker that has just activated the approval. */
  lemma ClearedThenActivated(k: Codec, b: Broker, first: string, second: string)
    requires Sound(k.crypto) && k.crypto.sha(first) != k.crypto.sha(second)
    requires b.tail.None? && !b.degraded && Verified(k, b.trusted, b.current, b.db)
    requires HasActivated(k, b, first)
    ensures Deceived(k, AfterRewrite(k, b, Database(Cleared(b.db.tables), b.db.chain), Activation("second", second)))
  {
    var db, q := Database(Cleared(b.db.tables), b.db.chain), Activation("second", second);
    ClearingCorrelates(k, b.db.tables, b.db.chain);
    SecondActivationCommits(k, b.current, first, b.db.chain, second);
    SecondIsDirty(k, db, first, second);
    ForeignThenDirty(k, b, db, q);
  }

  lemma ForeignThenDirty(k: Codec, b: Broker, db: Database, q: ActivateRequest)
    requires !b.degraded && b.tail.None? && Verified(k, b.trusted, b.current, db)
    requires Transact(k, b.current, db, Activate(q)).Some? && !ActivationClean(k, db, Activate(q))
    ensures Deceived(k, AfterRewrite(k, b, db, q))
  {
    var c := b.(db := db, dataVersion := b.dataVersion + 1);
    assert Act(k, b, Foreign(db, 0)) == c;
    DirtyIsCheckpointed(k, c, q);
  }

  lemma SecondIsDirty(k: Codec, db: Database, first: string, second: string)
    requires k.crypto.sha(first) != k.crypto.sha(second) && |db.chain| == 3
    requires db.tables == Cleared(Granted(first)) && AnnouncesActivation(k, db.chain[2], "a")
    requires k.crypto.parse(db.chain[2].payload).value.activationReceiptDigest == Some(k.crypto.sha(first))
    ensures !ActivationClean(k, db, Activate(Activation("second", second)))
  {
  }

  /**
    Why the exact condition is needed. After an own activation another writer puts
    the approval back to its ceremony and clears its activation identifier, the
    grant and the whole log untouched: everything still verifies. A second activation with other grant bytes is then
    locked, committed and checkpointed, and the log no longer verifies.
  */
  lemma InconsistentRewriteEscapes(k: Codec, key: string, first: string, second: string)
    returns (own: seq<Action>, rewritten: Database, rest: seq<Action>)
    requires Sound(k.crypto) && k.crypto.sha(first) != k.crypto.sha(second)
    ensures OwnOnly(own) && OwnOnly(rest)
    ensures var before := ActAll(k, Opened(key), own).db;
      "a" in before.tables.approvals && rewritten == Database(Cleared(before.tables), before.chain)
    ensures Deceived(k, ActAll(k, Opened(key), own + [Foreign(rewritten, 0)] + rest))
  {
    own := ActivatedRun(k, key, first);
    OwnStepsNeverDegrade(k, key, own);
    var b := ActAll(k, Opened(key), own);
    rewritten := Database(Cleared(b.db.tables), b.db.chain);
    ClearedThenActivated(k, b, first, second);
    rest := RewriteActions(k, Opened(key), own, rewritten, Activation("second", second));
  }

  lemma RewriteActions(k: Codec, b: Broker, own: seq<Action>, db: Database, q: ActivateRequest) returns (rest: seq<Action>)
    ensures OwnOnly(rest)
    ensures ActAll(k, b, own + [Foreign(db, 0)] + rest) == AfterRewrite(k, ActAll(k, b, own), db, q)
  {
    rest := [Lock, Own(Activate(q), 0)];
    ThreeMore(k, b, own, Foreign(db, 0), Lock, Own(Activate(q), 0));
  }

  lemma ThreeMore(k: Codec, b: Broker, actions: seq<Action>, x: Action, y: Action, z: Action)
    ensures ActAll(k, b, actions + [x] + [y, z]) == Act(k, Act(k, Act(k, ActAll(k, b, actions), x), y), z)
  {
    assert actions + [x] + [y, z] == actions + [x] + [y] + [z];
    OneAction(k, b, actions, x);
    OneAction(k, b, actions + [x], y);
    OneAction(k, b, actions + [x] + [y], z);
  }
}
