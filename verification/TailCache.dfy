/**
  The verified-tail cache over one database connection. A lookup whose data
  version and change counter match skips verification; a checkpoint whose data
  version matches trusts the Broker's own writes since. Both agree with full
  verification over any interleaving with other database writers.
*/
module TailCache {
  import opened Wrappers
  import opened Tables
  import opened History
  import opened AuditChain
  import opened Correlation
  import Renewals

  datatype Database = Database(tables: Tables, chain: seq<Entry>)

  predicate EntryCorrelated(k: Codec, t: Tables, e: Entry)
  {
    k.crypto.parse(e.payload).Some? && Correlated(k, t, e.event, k.crypto.parse(e.payload).value)
  }

  predicate AllCorrelated(k: Codec, t: Tables, chain: seq<Entry>)
  {
    forall i :: 0 <= i < |chain| ==> EntryCorrelated(k, t, chain[i])
  }

  /** Full verification: the chain and its correlation with the live tables. */
  predicate Verified(k: Codec, trusted: set<string>, current: string, db: Database)
  {
    Verifies(k.crypto, trusted, current, db.chain) && AllCorrelated(k, db.tables, db.chain)
  }

  datatype Head = Head(sequence: nat, hash: string)

  /** `audit_head`: the entry count and the last hash. */
  function HeadOf(chain: seq<Entry>): Head
  {
    Head(NextSequence(chain), HeadHash(chain))
  }

  // -------------------------------------------------------- own transactions

  function AppendAll(c: Crypto, chain: seq<Entry>, key: string, events: seq<Event>): seq<Entry>
    decreases |events|
  {
    if events == [] then chain
    else AppendAll(c, chain + [NewEntry(c, chain, key, events[0].name, events[0].payload)], key, events[1..])
  }

  lemma {:induction false} AppendAllLength(c: Crypto, chain: seq<Entry>, key: string, events: seq<Event>)
    ensures |AppendAll(c, chain, key, events)| == |chain| + |events|
    ensures chain <= AppendAll(c, chain, key, events)
    decreases |events|
  {
    if events != [] {
      AppendAllLength(c, chain + [NewEntry(c, chain, key, events[0].name, events[0].payload)], key, events[1..]);
    }
  }

  lemma AppendOne(c: Crypto, chain: seq<Entry>, key: string, e: Event)
    ensures AppendAll(c, chain, key, [e]) == chain + [NewEntry(c, chain, key, e.name, e.payload)]
  {
    assert [e][1..] == [];
  }

  /** A commit: the tables move and the events are appended, or nothing happens. */
  ghost function Transact(k: Codec, key: string, db: Database, step: Step): Option<Database>
  {
    if Try(db.tables, step).Err? || NextSequence(db.chain) + |Events(k, db.tables, step)| > I64_MAX + 1 then None
    else Some(Database(Next(db.tables, step), AppendAll(k.crypto, db.chain, key, Events(k, db.tables, step))))
  }

  lemma {:induction false} AppendAllVerified(
    k: Codec, trusted: set<string>, current: string, t: Tables, chain: seq<Entry>, events: seq<Event>)
    requires Sound(k.crypto) && current in trusted
    requires Verified(k, trusted, current, Database(t, chain))
    requires AllFit(k, t, events) && |chain| + |events| <= I64_MAX + 1
    ensures Verified(k, trusted, current, Database(t, AppendAll(k.crypto, chain, current, events)))
    decreases |events|
  {
    if events != [] {
      var e := events[0];
      assert Fit(k, t, e);
      var next := chain + [NewEntry(k.crypto, chain, current, e.name, e.payload)];
      AppendVerifies(k.crypto, trusted, current, chain, e.name, e.payload);
      assert AllCorrelated(k, t, next) by {
        assert EntryCorrelated(k, t, NewEntry(k.crypto, chain, current, e.name, e.payload));
      }
      assert forall i :: 0 <= i < |events[1..]| ==> events[1..][i] == events[i + 1];
      AppendAllVerified(k, trusted, current, t, next, events[1..]);
    }
  }

  // --------------------------------------- when a transaction stays verifiable

  /** A logged announcement that an approval was activated. */
  predicate AnnouncesActivation(k: Codec, e: Entry, id: string)
  {
    && k.crypto.parse(e.payload).Some?
    && Announces(e.event, k.crypto.parse(e.payload).value)
    && k.crypto.parse(e.payload).value.approvalId == Some(id)
  }

  /** An activation about to be written contradicts no activation of that approval already in the log. */
  predicate ActivationClean(k: Codec, db: Database, step: Step)
  {
    step.Activate? && step.activate.id in db.tables.approvals && db.tables.approvals[step.activate.id].activationOp.None? ==>
      forall i :: 0 <= i < |db.chain| && AnnouncesActivation(k, db.chain[i], step.activate.id) ==>
        k.crypto.parse(db.chain[i].payload).value.activationReceiptDigest == Some(k.crypto.sha(step.activate.grant))
  }

  /** Both activation columns kept, and none in new rows. */
  predicate KeepsGrants(a: map<string, Approval>, b: map<string, Approval>)
  {
    && (forall id :: id in a ==> id in b && b[id].grant == a[id].grant && b[id].activationOp == a[id].activationOp)
    && (forall id :: id in b && id !in a ==> b[id].grant.None?)
  }

  lemma PrepareKeepsGrants(t: Tables, q: PrepareRequest)
    requires PrepareApproval(t, q).Ok?
    ensures KeepsGrants(t.approvals, PrepareApproval(t, q).value.approvals)
  {
  }

  lemma AdmitKeepsGrants(t: Tables, q: StopRequest)
    requires AdmitStop(t, q).Ok?
    ensures KeepsGrants(t.approvals, AdmitStop(t, q).value.approvals)
  {
  }

  lemma StopKeepsGrants(t: Tables, id: string)
    ensures StopApproval(t, id).Ok? && KeepsGrants(t.approvals, StopApproval(t, id).value.approvals)
  {
    Renewals.StopWrites(t, id);
  }

  lemma RetireKeepsGrants(t: Tables, id: string, into: ApprovalState)
    requires Retiring(into) && TransitionApproval(t, id, into).Ok?
    ensures KeepsGrants(t.approvals, TransitionApproval(t, id, into).value.approvals)
  {
    Renewals.TransitionWrites(t, id, into);
  }

  /** Only an activation writes a grant, */
  lemma OthersKeepGrants(t: Tables, step: Step)
    requires !step.Activate?
    ensures KeepsGrants(t.approvals, Next(t, step).approvals)
  {
    if WritesApprovals(step) {
      if Try(t, step).Ok? {
        match step
        case Prepare(q) => PrepareKeepsGrants(t, q);
        case Stop(id) => StopKeepsGrants(t, id);
        case Retire(id, into) => RetireKeepsGrants(t, id, into);
        case AdmitKeyStop(q) => AdmitKeepsGrants(t, q);
      }
    } else {
      Frame(t, step);
    }
  }

  /** and only its own. */
  lemma ActivateKeepsGrants(t: Tables, q: ActivateRequest, id: string)
    requires ActivateApproval(t, q).Ok? && id in t.approvals
    requires id != q.id || t.approvals[id].activationOp.Some?
    ensures var b := ActivateApproval(t, q).value;
      id in b.approvals && b.approvals[id].grant == t.approvals[id].grant && b.approvals[id].activationOp == t.approvals[id].activationOp
  {
    ActivateIsRecord(t, q);
    Renewals.ActivateWrites(t, q.id, q.operation, q.grant);
  }

  lemma GrantsElsewhereKept(t: Tables, step: Step, id: string)
    requires id in t.approvals
    requires !(step.Activate? && step.activate.id == id && t.approvals[id].activationOp.None?)
    ensures id in Next(t, step).approvals && Next(t, step).approvals[id].grant == t.approvals[id].grant
  {
    if !step.Activate? {
      OthersKeepGrants(t, step);
    } else if Try(t, step).Ok? {
      ActivateKeepsGrants(t, step.activate, id);
    }
  }

  lemma ActivationWritesGrant(t: Tables, q: ActivateRequest)
    requires ActivateApproval(t, q).Ok? && t.approvals[q.id].activationOp.None?
    ensures var b := ActivateApproval(t, q).value; q.id in b.approvals && b.approvals[q.id].grant == Some(q.grant)
  {
    ActivateIsRecord(t, q);
  }

  lemma OldEntryStays(k: Codec, db: Database, step: Step, i: nat)
    requires i < |db.chain| && EntryCorrelated(k, db.tables, db.chain[i])
    requires Try(db.tables, step).Ok? && ActivationClean(k, db, step)
    ensures EntryCorrelated(k, Next(db.tables, step), db.chain[i])
  {
    var t, b, e := db.tables, Next(db.tables, step), db.chain[i];
    var p := k.crypto.parse(e.payload).value;
    StepExtends(t, step);
    NamesDiffer();
    if Announces(e.event, p) {
      var id := p.approvalId.value;
      if step.Activate? && step.activate.id == id && t.approvals[id].activationOp.None? {
        ActivationWritesGrant(t, step.activate);
        assert AnnouncesActivation(k, e, id);
      } else {
        GrantsElsewhereKept(t, step, id);
        CorrelatedStays(k, t, b, e.event, p);
      }
    } else {
      CorrelatedStays(k, t, b, e.event, p);
    }
  }

  lemma OldEntriesStay(k: Codec, db: Database, step: Step)
    requires AllCorrelated(k, db.tables, db.chain) && Try(db.tables, step).Ok? && ActivationClean(k, db, step)
    ensures AllCorrelated(k, Next(db.tables, step), db.chain)
  {
    forall i | 0 <= i < |db.chain| ensures EntryCorrelated(k, Next(db.tables, step), db.chain[i]) {
      OldEntryStays(k, db, step, i);
    }
  }

  lemma CleanVerifies(k: Codec, trusted: set<string>, current: string, db: Database, step: Step)
    requires Sound(k.crypto) && current in trusted && Verified(k, trusted, current, db)
    requires Transact(k, current, db, step).Some?
    requires ActivationClean(k, db, step) && BatchClean(db.tables, step)
    ensures Verified(k, trusted, current, Transact(k, current, db, step).value)
  {
    OldEntriesStay(k, db, step);
    EventsFit(k, db.tables, step);
    VerifiedIsNumbered(k.crypto, trusted, current, db.chain);
    AppendAllVerified(k, trusted, current, Next(db.tables, step), db.chain, Events(k, db.tables, step));
  }

  lemma DirtyActivationFails(k: Codec, current: string, db: Database, q: ActivateRequest)
    requires Transact(k, current, db, Activate(q)).Some? && !ActivationClean(k, db, Activate(q))
    ensures var after := Transact(k, current, db, Activate(q)).value; !AllCorrelated(k, after.tables, after.chain)
  {
    var after := Transact(k, current, db, Activate(q)).value;
    ActivationWritesGrant(db.tables, q);
    AppendAllLength(k.crypto, db.chain, current, Events(k, db.tables, Activate(q)));
    var i :| 0 <= i < |db.chain| && AnnouncesActivation(k, db.chain[i], q.id)
      && k.crypto.parse(db.chain[i].payload).value.activationReceiptDigest != Some(k.crypto.sha(q.grant));
    NamesDiffer();
    assert after.chain[i] == db.chain[i];
    assert !EntryCorrelated(k, after.tables, after.chain[i]);
  }

  lemma UnfitEntry(k: Codec, t: Tables, chain: seq<Entry>, key: string, e: Event)
    requires Sound(k.crypto) && Ordinary(e.name) && !Fit(k, t, e)
    ensures !AllCorrelated(k, t, chain + [NewEntry(k.crypto, chain, key, e.name, e.payload)])
  {
    var entry := NewEntry(k.crypto, chain, key, e.name, e.payload);
    assert !EntryCorrelated(k, t, entry);
    assert (chain + [entry])[|chain|] == entry;
  }

  lemma BatchTransaction(k: Codec, current: string, db: Database, step: Step)
    requires step.PublishMany? && Transact(k, current, db, step).Some? && !Stored(db.tables, step.result.operation)
    ensures PublishBatch(db.tables, step.approval, step.result, step.results, step.derived).Ok?
    ensures step.result.operation in db.tables.operations
    ensures db.tables.operations[step.result.operation].receipt.Some?
    ensures Events(k, db.tables, step)
         == [BatchEvent(k, step.approval, step.result, step.results, db.tables.operations[step.result.operation].receipt.value)]
    ensures Transact(k, current, db, step).value.tables
         == PublishBatch(db.tables, step.approval, step.result, step.results, step.derived).value
  {
  }

  lemma DirtyBatchFails(k: Codec, current: string, db: Database, step: Step)
    requires Sound(k.crypto) && step.PublishMany?
    requires Transact(k, current, db, step).Some? && !BatchClean(db.tables, step)
    ensures var after := Transact(k, current, db, step).value; !AllCorrelated(k, after.tables, after.chain)
  {
    var t := db.tables;
    BatchTransaction(k, current, db, step);
    BatchFits(k, t, step.approval, step.result, step.results, step.derived);
    CorrelatedNamesOrdinary();
    var e := BatchEvent(k, step.approval, step.result, step.results, t.operations[step.result.operation].receipt.value);
    AppendOne(k.crypto, db.chain, current, e);
    UnfitEntry(k, Transact(k, current, db, step).value.tables, db.chain, current, e);
  }

  /**
    Exactly when an own transaction keeps a verified database verified: the grant
    it writes agrees with every activation of that approval already logged, and
    the batch it announces had no child rows before. Every other transaction
    always does.
  */
  lemma TransactionExact(k: Codec, trusted: set<string>, current: string, db: Database, step: Step)
    requires Sound(k.crypto) && current in trusted && Verified(k, trusted, current, db)
    requires Transact(k, current, db, step).Some?
    ensures Verified(k, trusted, current, Transact(k, current, db, step).value)
       <==> ActivationClean(k, db, step) && BatchClean(db.tables, step)
  {
    if ActivationClean(k, db, step) && BatchClean(db.tables, step) {
      CleanVerifies(k, trusted, current, db, step);
    } else if !ActivationClean(k, db, step) {
      DirtyActivationFails(k, current, db, step.activate);
    } else {
      DirtyBatchFails(k, current, db, step);
    }
  }

  // -------------------------------------------------------- the Broker's own

  /** The columns verification does not look at, as every transaction of the Broker leaves them. */
  predicate Consistent(t: Tables)
  {
    GrantsFiled(t) && ChildrenParented(t)
  }

  lemma ActivateFilesGrants(t: Tables, q: ActivateRequest)
    requires GrantsFiled(t) && ActivateApproval(t, q).Ok?
    ensures GrantsFiled(ActivateApproval(t, q).value)
  {
    ActivateIsRecord(t, q);
    Renewals.ActivateWrites(t, q.id, q.operation, q.grant);
  }

  lemma GrantsFiledStep(t: Tables, step: Step)
    requires GrantsFiled(t)
    ensures GrantsFiled(Next(t, step))
  {
    if !step.Activate? {
      OthersKeepGrants(t, step);
    } else if Try(t, step).Ok? {
      ActivateFilesGrants(t, step.activate);
    }
  }

  lemma ChildrenParentedStep(t: Tables, step: Step)
    requires ChildrenParented(t)
    ensures ChildrenParented(Next(t, step))
  {
    var b := Next(t, step);
    Frame(t, step);
    StepExtends(t, step);
    forall key | key in b.children ensures Stored(b, key.0) {
      if key in t.children {
        assert OperationExtends(t.operations[key.0], b.operations[key.0]);
      }
    }
  }

  lemma ConsistentStep(t: Tables, step: Step)
    requires Consistent(t)
    ensures Consistent(Next(t, step))
  {
    GrantsFiledStep(t, step);
    ChildrenParentedStep(t, step);
  }

  /** Consistent columns make every transaction clean. */
  lemma ConsistentIsClean(k: Codec, db: Database, step: Step)
    requires Consistent(db.tables) && AllCorrelated(k, db.tables, db.chain)
    ensures ActivationClean(k, db, step) && BatchClean(db.tables, step)
  {
    NamesDiffer();
    if step.Activate? {
      forall i | 0 <= i < |db.chain| && AnnouncesActivation(k, db.chain[i], step.activate.id)
        ensures step.activate.id in db.tables.approvals && db.tables.approvals[step.activate.id].activationOp.Some?
      {
        assert EntryCorrelated(k, db.tables, db.chain[i]);
      }
    }
  }

  /** Every own transaction keeps the database verifiable. */
  lemma TransactVerified(k: Codec, trusted: set<string>, current: string, db: Database, step: Step)
    requires Sound(k.crypto) && current in trusted
    requires Verified(k, trusted, current, db) && Consistent(db.tables)
    requires Transact(k, current, db, step).Some?
    ensures Verified(k, trusted, current, Transact(k, current, db, step).value)
  {
    ConsistentIsClean(k, db, step);
    CleanVerifies(k, trusted, current, db, step);
  }

  /** So does a key rotation, under the new key. */
  lemma RotationVerified(k: Codec, trusted: set<string>, current: string, db: Database, newKey: string)
    requires Sound(k.crypto) && current in trusted && Verified(k, trusted, current, db)
    requires newKey != current && |db.chain| < I64_MAX
    ensures Verified(k, trusted + {newKey}, newKey, db.(chain := Rotate(k.crypto, db.chain, current, newKey)))
  {
    RotateVerifies(k.crypto, trusted, current, db.chain, newKey);
    var chain := Rotate(k.crypto, db.chain, current, newKey);
    forall i | 0 <= i < |chain| ensures EntryCorrelated(k, db.tables, chain[i]) {
      if i < |db.chain| {
        assert chain[i] == db.chain[i];
        assert EntryCorrelated(k, db.tables, db.chain[i]);
      }
    }
  }

  // --------------------------------------------------------------- the broker

  datatype Tail = Tail(sequence: nat, hash: string, dataVersion: nat, totalChanges: nat)

  /** One Broker process: its connection, its signer, its cache and what it checkpointed. */
  datatype Broker = Broker(
    db: Database,
    current: string,
    trusted: set<string>,
    dataVersion: nat,
    totalChanges: nat,
    tail: Option<Tail>,
    degraded: bool,
    checkpoints: seq<Head>)

  /** `refresh_verified_audit_tail`. */
  function Refresh(b: Broker): Broker
  {
    var h := HeadOf(b.db.chain);
    b.(tail := Some(Tail(h.sequence, h.hash, b.dataVersion, b.totalChanges)))
  }

  predicate Fresh(b: Broker)
  {
    b.tail.Some? && b.tail.value.dataVersion == b.dataVersion && b.tail.value.totalChanges == b.totalChanges
  }

  /** `cached_audit_head`: the head it answers and the broker it leaves, or refusal. */
  function CachedHead(k: Codec, b: Broker): Option<(Broker, Head)>
  {
    if Fresh(b) then Some((b, Head(b.tail.value.sequence, b.tail.value.hash)))
    else if Verified(k, b.trusted, b.current, b.db) then Some((Refresh(b), HeadOf(b.db.chain)))
    else None
  }

  /** `lock_for_mutation`. */
  function LockForMutation(k: Codec, b: Broker): (Broker, Option<Head>)
  {
    if b.degraded then (b, None)
    else match CachedHead(k, b)
         case None => (b.(degraded := true), None)
         case Some((next, head)) => (next, Some(head))
  }

  /** `checkpoint_committed_head`. */
  function CheckpointCommittedHead(k: Codec, b: Broker): (Broker, Option<Head>)
  {
    if b.tail.Some? && b.tail.value.dataVersion == b.dataVersion then
      var head := HeadOf(b.db.chain);
      (Refresh(b).(checkpoints := b.checkpoints + [head]), Some(head))
    else match CachedHead(k, b)
         case None => (b, None)
         case Some((next, head)) => (next.(checkpoints := b.checkpoints + [head]), Some(head))
  }

  /**
    What can happen to the connection. `Foreign` is any other writer: it may leave
    any database, and it changes the data version. `changes` counts row changes
    beyond the first, rolled-back ones included.
  */
  datatype Action =
    | Lock
    | Own(step: Step, changes: nat)
    | RotateKey(newKey: string, changes: nat)
    | Checkpoint
    | Foreign(db: Database, versions: nat)

  /** `rotate_audit_key` up to its checkpoint; the replacement key must differ. */
  function Rotated(k: Codec, b: Broker, newKey: string, changes: nat): Broker
  {
    if newKey == b.current || NextSequence(b.db.chain) >= I64_MAX then b
    else b.(db := b.db.(chain := Rotate(k.crypto, b.db.chain, b.current, newKey)),
            current := newKey, trusted := b.trusted + {newKey}, totalChanges := b.totalChanges + changes + 1)
  }

  ghost function Act(k: Codec, b: Broker, a: Action): Broker
  {
    match a
    case Lock => LockForMutation(k, b).0
    case Own(step, changes) =>
      var r := Transact(k, b.current, b.db, step);
      if r.None? then b.(totalChanges := b.totalChanges + changes)
      else b.(db := r.value, totalChanges := b.totalChanges + changes + (if r.value == b.db then 0 else 1))
    case RotateKey(newKey, changes) =>
      Rotated(k, b, newKey, changes)
    case Checkpoint => CheckpointCommittedHead(k, b).0
    case Foreign(db, versions) => b.(db := db, dataVersion := b.dataVersion + versions + 1)
  }

  ghost function ActAll(k: Codec, b: Broker, actions: seq<Action>): Broker
  {
    if actions == [] then b else Act(k, ActAll(k, b, actions[..|actions| - 1]), actions[|actions| - 1])
  }

  /** A foreign writer leaves the unverified columns as the Broker writes them. */
  predicate Mannered(actions: seq<Action>)
  {
    forall i :: 0 <= i < |actions| && actions[i].Foreign? ==> Consistent(actions[i].db.tables)
  }

  /** A checkpoint would trust the Broker's own writes since the last verification. */
  predicate Trusts(b: Broker)
  {
    b.tail.Some? && b.tail.value.dataVersion == b.dataVersion
  }

  /** What the cached tail stands for, whatever other writers have done. */
  ghost predicate TailInv(k: Codec, b: Broker)
  {
    && b.current in b.trusted
    && (b.tail.Some? ==>
          && b.tail.value.dataVersion <= b.dataVersion
          && b.tail.value.totalChanges <= b.totalChanges
          && (Trusts(b) ==> Verified(k, b.trusted, b.current, b.db))
          && (Fresh(b) ==> Head(b.tail.value.sequence, b.tail.value.hash) == HeadOf(b.db.chain)))
  }

  ghost predicate CacheInv(k: Codec, b: Broker)
  {
    TailInv(k, b) && Consistent(b.db.tables)
  }

  // ------------------------------------------------------------- exactness

  /** A lock or checkpoint that succeeds now stands for a verified log and its true head. */
  ghost predicate Faithful(k: Codec, b: Broker)
  {
    && (LockForMutation(k, b).1.Some? ==>
          Verified(k, b.trusted, b.current, b.db) && LockForMutation(k, b).1.value == HeadOf(b.db.chain))
    && (CheckpointCommittedHead(k, b).1.Some? ==>
          Verified(k, b.trusted, b.current, b.db) && CheckpointCommittedHead(k, b).1.value == HeadOf(b.db.chain))
  }

  /** An own transaction committed under a trusted tail writes a grant and a batch the log can bear. */
  ghost predicate CleanCommit(k: Codec, b: Broker, a: Action)
  {
    a.Own? && Trusts(b) && Transact(k, b.current, b.db, a.step).Some? ==>
      ActivationClean(k, b.db, a.step) && BatchClean(b.db.tables, a.step)
  }

  ghost predicate CleanCommits(k: Codec, start: Broker, actions: seq<Action>)
  {
    forall i :: 0 <= i < |actions| ==> CleanCommit(k, ActAll(k, start, actions[..i]), actions[i])
  }

  lemma TailIsFaithful(k: Codec, b: Broker)
    requires TailInv(k, b)
    ensures Faithful(k, b)
  {
  }

  lemma CleanOwnKeepsTail(k: Codec, b: Broker, step: Step, changes: nat)
    requires Sound(k.crypto) && TailInv(k, b) && CleanCommit(k, b, Own(step, changes))
    ensures TailInv(k, Act(k, b, Own(step, changes)))
  {
    if Trusts(b) && Transact(k, b.current, b.db, step).Some? {
      CleanVerifies(k, b.trusted, b.current, b.db, step);
    }
  }

  lemma RotateKeepsTail(k: Codec, b: Broker, newKey: string, changes: nat)
    requires Sound(k.crypto) && TailInv(k, b)
    ensures TailInv(k, Rotated(k, b, newKey, changes))
  {
    if newKey != b.current && NextSequence(b.db.chain) < I64_MAX && Trusts(b) {
      VerifiedIsNumbered(k.crypto, b.trusted, b.current, b.db.chain);
      RotationVerified(k, b.trusted, b.current, b.db, newKey);
    }
  }

  lemma CleanStep(k: Codec, b: Broker, a: Action)
    requires Sound(k.crypto) && TailInv(k, b) && CleanCommit(k, b, a)
    ensures TailInv(k, Act(k, b, a))
  {
    match a
    case Own(step, changes) => CleanOwnKeepsTail(k, b, step, changes);
    case RotateKey(newKey, changes) => RotateKeepsTail(k, b, newKey, changes);
    case _ =>
  }

  lemma {:induction false} CleanRun(k: Codec, start: Broker, actions: seq<Action>, n: nat)
    requires Sound(k.crypto) && start.current in start.trusted && start.tail.None?
    requires CleanCommits(k, start, actions) && n <= |actions|
    ensures TailInv(k, ActAll(k, start, actions[..n]))
  {
    if n > 0 {
      CleanRun(k, start, actions, n - 1);
      assert actions[..n][..n - 1] == actions[..n - 1];
      CleanStep(k, ActAll(k, start, actions[..n - 1]), actions[n - 1]);
    }
  }

  lemma {:induction false} CurrentStaysTrusted(k: Codec, start: Broker, actions: seq<Action>)
    requires start.current in start.trusted
    ensures ActAll(k, start, actions).current in ActAll(k, start, actions).trusted
  {
    if actions != [] {
      CurrentStaysTrusted(k, start, actions[..|actions| - 1]);
    }
  }

  /** An unclean commit is checkpointed, and the log it leaves does not verify. */
  lemma UncleanStep(k: Codec, b: Broker, a: Action)
    requires Sound(k.crypto) && b.current in b.trusted && !CleanCommit(k, b, a)
    ensures !Faithful(k, b) || !Faithful(k, Act(k, b, a))
  {
    if Faithful(k, b) {
      assert CheckpointCommittedHead(k, b).1.Some?;
      TransactionExact(k, b.trusted, b.current, b.db, a.step);
      assert CheckpointCommittedHead(k, Act(k, b, a)).1.Some?;
    }
  }

  /**
    Exactly when the cache refines full verification. Over any interleaving with
    other writers, which may leave any database whatever: every success of
    `lock_for_mutation` or `checkpoint_committed_head` along the way stands for a
    chain that verifies against the live tables and for its true head, if and only
    if every own transaction committed under a trusted tail writes a grant that
    agrees with the activations already logged and a batch without stray children.
  */
  lemma CacheExact(k: Codec, start: Broker, actions: seq<Action>)
    requires Sound(k.crypto) && start.current in start.trusted && start.tail.None?
    ensures CleanCommits(k, start, actions)
       <==> forall n :: 0 <= n <= |actions| ==> Faithful(k, ActAll(k, start, actions[..n]))
  {
    if CleanCommits(k, start, actions) {
      forall n | 0 <= n <= |actions| ensures Faithful(k, ActAll(k, start, actions[..n])) {
        CleanPrefixIsFaithful(k, start, actions, n);
      }
    } else {
      var i :| 0 <= i < |actions| && !CleanCommit(k, ActAll(k, start, actions[..i]), actions[i]);
      UncleanPrefix(k, start, actions, i);
    }
  }

  lemma CleanPrefixIsFaithful(k: Codec, start: Broker, actions: seq<Action>, n: nat)
    requires Sound(k.crypto) && start.current in start.trusted && start.tail.None?
    requires CleanCommits(k, start, actions) && n <= |actions|
    ensures Faithful(k, ActAll(k, start, actions[..n]))
  {
    CleanRun(k, start, actions, n);
    TailIsFaithful(k, ActAll(k, start, actions[..n]));
  }

  lemma UncleanPrefix(k: Codec, start: Broker, actions: seq<Action>, i: nat)
    requires Sound(k.crypto) && start.current in start.trusted && i < |actions|
    requires !CleanCommit(k, ActAll(k, start, actions[..i]), actions[i])
    ensures !Faithful(k, ActAll(k, start, actions[..i])) || !Faithful(k, ActAll(k, start, actions[..i + 1]))
  {
    CurrentStaysTrusted(k, start, actions[..i]);
    UncleanStep(k, ActAll(k, start, actions[..i]), actions[i]);
    assert actions[..i + 1][..i] == actions[..i];
  }

  // ------------------------------------------------------- mannered writers

  /** Consistent columns leave nothing unclean to commit. */
  lemma ConsistentCommitIsClean(k: Codec, b: Broker, a: Action)
    requires CacheInv(k, b)
    ensures CleanCommit(k, b, a)
  {
    if a.Own? && Trusts(b) && Transact(k, b.current, b.db, a.step).Some? {
      ConsistentIsClean(k, b.db, a.step);
    }
  }

  lemma ColumnsStayConsistent(k: Codec, b: Broker, a: Action)
    requires Consistent(b.db.tables) && (a.Foreign? ==> Consistent(a.db.tables))
    ensures Consistent(Act(k, b, a).db.tables)
  {
    if a.Own? {
      ConsistentStep(b.db.tables, a.step);
    }
  }

  lemma ActKeepsCache(k: Codec, b: Broker, a: Action)
    requires Sound(k.crypto) && CacheInv(k, b)
    requires a.Foreign? ==> Consistent(a.db.tables)
    ensures CacheInv(k, Act(k, b, a))
  {
    ConsistentCommitIsClean(k, b, a);
    CleanStep(k, b, a);
    ColumnsStayConsistent(k, b, a);
  }

  lemma {:induction false} CacheHolds(k: Codec, b: Broker, actions: seq<Action>)
    requires Sound(k.crypto) && CacheInv(k, b) && Mannered(actions)
    ensures CacheInv(k, ActAll(k, b, actions))
  {
    if actions != [] {
      var last := |actions| - 1;
      CacheHolds(k, b, actions[..last]);
      assert actions[last].Foreign? ==> Consistent(actions[last].db.tables);
      ActKeepsCache(k, ActAll(k, b, actions[..last]), actions[last]);
    }
  }

  /**
    A corollary a deployment can check: while foreign writers leave the columns
    verification does not look at as the Broker writes them, whenever
    `lock_for_mutation` or `checkpoint_committed_head` succeeds, the whole chain
    verifies against the live tables at that moment and the head is the true head.
  */
  lemma CacheRefinesVerification(k: Codec, start: Broker, actions: seq<Action>)
    requires Sound(k.crypto) && start.current in start.trusted && Consistent(start.db.tables) && start.tail.None?
    requires Mannered(actions)
    ensures Faithful(k, ActAll(k, start, actions))
  {
    CacheHolds(k, start, actions);
  }
}
