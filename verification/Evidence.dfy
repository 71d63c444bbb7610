/**
  What the log is evidence of. Two verified databases with the same log hold the
  same receipts, results, children and grants wherever the log names them, and a
  Broker's own log names every one of them; so whoever replaces such a row under
  the Broker's head must exhibit a collision.
*/
module Evidence {
  import opened Wrappers
  import opened Tables
  import opened History
  import opened AuditChain
  import opened Correlation
  import opened TailCache
  import opened OwnRuns
  import opened Tamper
  import Publication
  import Renewals

  // ------------------------------------------------------------ collisions

  predicate ShaCollision(k: Codec, a: string, b: string)
  {
    a != b && k.crypto.sha(a) == k.crypto.sha(b)
  }

  predicate ReceiptCollision(k: Codec, a: Receipt, b: Receipt)
  {
    a != b && k.receiptDigest(a) == k.receiptDigest(b)
  }

  /** Two results with one text, or two texts with one hash. */
  predicate ResultCollision(k: Codec, a: SigningResult, b: SigningResult)
  {
    a != b && (k.resultText(a) == k.resultText(b) || ShaCollision(k, k.resultText(a), k.resultText(b)))
  }

  // --------------------------------------------------------------- subjects

  /** What a correlated entry speaks about. */
  datatype Subject =
    | ReceiptOf(operation: string)
    | ResultOf(operation: string)
    | ChildrenOf(operation: string)
    | GrantOf(approval: string)

  predicate Names(name: string, p: Payload, s: Subject)
  {
    && p.schemaV1
    && match s
       case ReceiptOf(o) => name == RECEIVED && p.own.operationId == Some(o)
       case ResultOf(o) =>
         || (name == PUBLISHED && p.own.operationId == Some(o))
         || (name == BATCH_PUBLISHED && p.parent.operationId == Some(o))
       case ChildrenOf(o) => name == BATCH_PUBLISHED && p.parent.operationId == Some(o)
       case GrantOf(id) => Announces(name, p) && p.approvalId == Some(id)
  }

  predicate EntryNames(k: Codec, e: Entry, s: Subject)
  {
    k.crypto.parse(e.payload).Some? && Names(e.event, k.crypto.parse(e.payload).value, s)
  }

  ghost predicate LogNames(k: Codec, chain: seq<Entry>, s: Subject)
  {
    exists i :: 0 <= i < |chain| && EntryNames(k, chain[i], s)
  }

  predicate Holds(t: Tables, s: Subject)
  {
    match s
    case ReceiptOf(o) => o in t.operations && t.operations[o].kind == Signing
    case ResultOf(o) => Stored(t, o)
    case ChildrenOf(o) => exists key :: key in t.children && key.0 == o
    case GrantOf(id) => id in t.approvals && t.approvals[id].grant.Some?
  }

  // -------------------------------------------------------------- agreement

  predicate SameReceipts(k: Codec, a: Tables, b: Tables, o: string)
  {
    && o in a.operations && a.operations[o].receipt.Some? && o in b.operations && b.operations[o].receipt.Some?
    && var r, s := a.operations[o].receipt.value, b.operations[o].receipt.value;
       r == s || ReceiptCollision(k, r, s)
  }

  /** Digest and both receipt digests agree outright; the rest agrees or collides. */
  predicate AgreeingResults(k: Codec, r: SigningResult, s: SigningResult)
  {
    && r.digest == s.digest && r.signerReceipt == s.signerReceipt && r.brokerReceipt == s.brokerReceipt
    && (r == s || ResultCollision(k, r, s))
  }

  predicate SameResults(k: Codec, a: Tables, b: Tables, o: string)
  {
    && Stored(a, o) && Stored(b, o)
    && AgreeingResults(k, a.operations[o].result.value, b.operations[o].result.value)
  }

  /** The same ordinals, and at each the same child. */
  ghost predicate SameChildren(
    k: Codec, a: map<(string, nat), SigningResult>, b: map<(string, nat), SigningResult>, parent: string)
  {
    && (forall n: nat :: (parent, n) in a <==> (parent, n) in b)
    && (forall n: nat :: (parent, n) in a && (parent, n) in b ==>
          && a[(parent, n)].operation == b[(parent, n)].operation
          && AgreeingResults(k, a[(parent, n)], b[(parent, n)]))
  }

  predicate SameGrants(k: Codec, a: Tables, b: Tables, id: string)
  {
    && id in a.approvals && a.approvals[id].grant.Some? && id in b.approvals && b.approvals[id].grant.Some?
    && var g, h := a.approvals[id].grant.value, b.approvals[id].grant.value;
       g == h || ShaCollision(k, g, h)
  }

  ghost predicate Agree(k: Codec, a: Tables, b: Tables, s: Subject)
  {
    match s
    case ReceiptOf(o) =>
      && SameReceipts(k, a, b, o)
      && a.operations[o].receipt.value.operationDigest == b.operations[o].receipt.value.operationDigest
    case ResultOf(o) => SameReceipts(k, a, b, o) && SameResults(k, a, b, o)
    case ChildrenOf(o) => SameChildren(k, a.children, b.children, o)
    case GrantOf(id) => SameGrants(k, a, b, id)
  }

  lemma ListedAgree(
    k: Codec, a: map<(string, nat), SigningResult>, b: map<(string, nat), SigningResult>, parent: string, list: seq<ChildDigest>)
    requires ListsChildren(k, a, parent, list) && ListsChildren(k, b, parent, list)
    ensures SameChildren(k, a, b, parent)
  {
    forall n: nat | (parent, n) in a || (parent, n) in b
      ensures (parent, n) in a && (parent, n) in b
      ensures a[(parent, n)].operation == b[(parent, n)].operation && AgreeingResults(k, a[(parent, n)], b[(parent, n)])
    {
      var key := (parent, n);
      assert exists i :: 0 <= i < |list| && list[i].ordinal == key.1;
      var i :| 0 <= i < |list| && list[i].ordinal == n;
      assert list[i] == ChildOf(k, n, a[key]) && list[i] == ChildOf(k, n, b[key]);
    }
  }

  /** One entry that matches two sets of tables makes them agree on what it names. */
  lemma CorrelatedAgree(k: Codec, a: Tables, b: Tables, name: string, p: Payload, s: Subject)
    requires Correlated(k, a, name, p) && Correlated(k, b, name, p) && Names(name, p, s)
    ensures Agree(k, a, b, s)
  {
    NamesDiffer();
    if s.ChildrenOf? {
      ListedAgree(k, a.children, b.children, s.operation, p.children.value);
    }
  }

  /**
    Two databases with the same log, both verified, possibly under different keys:
    they hold the same receipt, result, children or grant wherever an entry names
    one, or the two values are a collision of their digest.
  */
  lemma VerifiedDatabasesAgree(
    k: Codec, t1: set<string>, k1: string, a: Database, t2: set<string>, k2: string, b: Database, s: Subject)
    requires Verified(k, t1, k1, a) && Verified(k, t2, k2, b) && SameLog(a.chain, b.chain)
    requires LogNames(k, a.chain, s)
    ensures Agree(k, a.tables, b.tables, s)
  {
    var i :| 0 <= i < |a.chain| && EntryNames(k, a.chain[i], s);
    assert SameContent(a.chain[i], b.chain[i]);
    assert EntryCorrelated(k, a.tables, a.chain[i]) && EntryCorrelated(k, b.tables, b.chain[i]);
    CorrelatedAgree(k, a.tables, b.tables, a.chain[i].event, k.crypto.parse(a.chain[i].payload).value, s);
  }

  // ----------------------------------------------------- the log is complete

  ghost predicate Logged(k: Codec, db: Database)
  {
    forall s :: Holds(db.tables, s) ==> LogNames(k, db.chain, s)
  }

  /** Every appended event is an entry of the new log. */
  lemma {:induction false} AppendedIsLogged(c: Crypto, chain: seq<Entry>, key: string, events: seq<Event>, i: nat)
    requires i < |events|
    ensures |AppendAll(c, chain, key, events)| == |chain| + |events|
    ensures var e := AppendAll(c, chain, key, events)[|chain| + i];
      e.event == events[i].name && e.payload == c.text(events[i].payload)
    decreases |events|
  {
    var entry := NewEntry(c, chain, key, events[0].name, events[0].payload);
    AppendAllLength(c, chain, key, events);
    AppendAllLength(c, chain + [entry], key, events[1..]);
    if i > 0 {
      AppendedIsLogged(c, chain + [entry], key, events[1..], i - 1);
    } else {
      assert (chain + [entry])[|chain|] == entry;
    }
  }

  lemma NamedStays(k: Codec, a: seq<Entry>, b: seq<Entry>, s: Subject)
    requires a <= b && LogNames(k, a, s)
    ensures LogNames(k, b, s)
  {
    var i :| 0 <= i < |a| && EntryNames(k, a[i], s);
    assert b[i] == a[i];
  }

  lemma EventIsNamed(k: Codec, chain: seq<Entry>, key: string, events: seq<Event>, i: nat, s: Subject)
    requires Sound(k.crypto) && i < |events| && Names(events[i].name, events[i].payload, s)
    ensures LogNames(k, AppendAll(k.crypto, chain, key, events), s)
  {
    AppendedIsLogged(k.crypto, chain, key, events, i);
    assert EntryNames(k, AppendAll(k.crypto, chain, key, events)[|chain| + i], s);
  }

  /** A step that brings something new to hold names it in its one event. */
  ghost predicate Announced(k: Codec, t: Tables, step: Step, s: Subject)
    requires Try(t, step).Ok?
  {
    var events := Events(k, t, step);
    |events| == 1 && Names(events[0].name, events[0].payload, s)
  }

  /** No signing operation is there that was not there before. */
  predicate ReceivesNone(t: Tables, b: Tables, o: string)
  {
    o !in t.operations && o in b.operations ==> b.operations[o].kind == KeyRevocation
  }

  lemma StopsReceiveNone(t: Tables, step: Step, o: string)
    requires step.AdmitKeyStop? || step.CompleteKeyStop? || step.MoveOperation?
    ensures ReceivesNone(t, Next(t, step), o)
  {
    if step.AdmitKeyStop? && Try(t, step).Ok? {
      AdmitReceivesNone(t, step.stop, o);
    }
  }

  lemma AdmitReceivesNone(t: Tables, q: StopRequest, o: string)
    requires AdmitStop(t, q).Ok?
    ensures ReceivesNone(t, AdmitStop(t, q).value, o)
  {
  }

  lemma PublicationsReceiveNone(t: Tables, step: Step, o: string)
    requires step.Publish? || step.PublishMany?
    ensures ReceivesNone(t, Next(t, step), o)
  {
  }

  lemma AttemptReceives(t: Tables, q: AttemptRequest, o: string)
    requires BeginAttempt(t, q).Ok? && !ReceivesNone(t, BeginAttempt(t, q).value, o)
    ensures q.operation == o
  {
  }

  lemma OnlyAttemptReceives(t: Tables, step: Step, o: string)
    requires !Holds(t, ReceiptOf(o)) && Holds(Next(t, step), ReceiptOf(o))
    ensures step.Attempt? && step.attempt.operation == o && o !in t.operations
  {
    StepExtends(t, step);
    assert o in t.operations ==> OperationExtends(t.operations[o], Next(t, step).operations[o]);
    if step.Attempt? {
      if Try(t, step).Ok? { AttemptReceives(t, step.attempt, o); }
    } else if step.Publish? || step.PublishMany? {
      PublicationsReceiveNone(t, step, o);
    } else if WritesOperations(step) {
      StopsReceiveNone(t, step, o);
    } else {
      Frame(t, step);
    }
  }

  lemma NewReceiptAnnounced(k: Codec, t: Tables, step: Step, o: string)
    requires Try(t, step).Ok? && !Holds(t, ReceiptOf(o)) && Holds(Next(t, step), ReceiptOf(o))
    ensures Announced(k, t, step, ReceiptOf(o))
  {
    OnlyAttemptReceives(t, step, o);
  }

  lemma NewResultAnnounced(k: Codec, t: Tables, step: Step, o: string)
    requires Try(t, step).Ok? && !Stored(t, o) && Stored(Next(t, step), o)
    ensures Announced(k, t, step, ResultOf(o))
  {
    Publication.NewResult(t, step, o);
  }

  lemma NewChildrenAnnounced(k: Codec, t: Tables, step: Step, o: string)
    requires Try(t, step).Ok? && !Holds(t, ChildrenOf(o)) && Holds(Next(t, step), ChildrenOf(o))
    ensures Announced(k, t, step, ChildrenOf(o))
  {
    Frame(t, step);
    assert step.PublishMany?;
  }

  lemma NewGrantIsActivated(t: Tables, q: ActivateRequest, id: string)
    requires ActivateApproval(t, q).Ok? && GrantsFiled(t)
    requires !Holds(t, GrantOf(id)) && Holds(ActivateApproval(t, q).value, GrantOf(id))
    ensures q.id == id && id in t.approvals && t.approvals[id].activationOp.None?
  {
    ActivateIsRecord(t, q);
    Renewals.ActivateWrites(t, q.id, q.operation, q.grant);
  }

  lemma NewGrantAnnounced(k: Codec, t: Tables, step: Step, id: string)
    requires Try(t, step).Ok? && GrantsFiled(t) && !Holds(t, GrantOf(id)) && Holds(Next(t, step), GrantOf(id))
    ensures Announced(k, t, step, GrantOf(id))
  {
    if step.Activate? {
      NewGrantIsActivated(t, step.activate, id);
    } else {
      OthersKeepGrants(t, step);
    }
  }

  lemma NewIsAnnounced(k: Codec, t: Tables, step: Step, s: Subject)
    requires Try(t, step).Ok? && GrantsFiled(t) && !Holds(t, s) && Holds(Next(t, step), s)
    ensures Announced(k, t, step, s)
  {
    match s
    case ReceiptOf(o) => NewReceiptAnnounced(k, t, step, o);
    case ResultOf(o) => NewResultAnnounced(k, t, step, o);
    case ChildrenOf(o) => NewChildrenAnnounced(k, t, step, o);
    case GrantOf(id) => NewGrantAnnounced(k, t, step, id);
  }

  lemma TransactLogged(k: Codec, key: string, db: Database, step: Step)
    requires Sound(k.crypto) && Logged(k, db) && GrantsFiled(db.tables) && Transact(k, key, db, step).Some?
    ensures Logged(k, Transact(k, key, db, step).value)
  {
    var after, events := Transact(k, key, db, step).value, Events(k, db.tables, step);
    AppendAllLength(k.crypto, db.chain, key, events);
    forall s | Holds(after.tables, s) ensures LogNames(k, after.chain, s) {
      if Holds(db.tables, s) {
        NamedStays(k, db.chain, after.chain, s);
      } else {
        NewIsAnnounced(k, db.tables, step, s);
        EventIsNamed(k, db.chain, key, events, 0, s);
      }
    }
  }

  lemma LoggedGrows(k: Codec, db: Database, chain: seq<Entry>)
    requires Logged(k, db) && db.chain <= chain
    ensures Logged(k, db.(chain := chain))
  {
    forall s | Holds(db.tables, s) ensures LogNames(k, chain, s) {
      NamedStays(k, db.chain, chain, s);
    }
  }

  lemma LoggedStep(k: Codec, b: Broker, a: Action)
    requires Sound(k.crypto) && Logged(k, b.db) && GrantsFiled(b.db.tables) && !a.Foreign?
    ensures Logged(k, Act(k, b, a).db)
  {
    match a
    case Own(step, _) =>
      if Transact(k, b.current, b.db, step).Some? { TransactLogged(k, b.current, b.db, step); }
    case RotateKey(newKey, changes) => LoggedGrows(k, b.db, Rotated(k, b, newKey, changes).db.chain);
    case _ =>
  }

  /** Whatever a Broker of its own holds, its log names. */
  lemma {:induction false} OwnLogIsComplete(k: Codec, key: string, actions: seq<Action>)
    requires Sound(k.crypto) && OwnOnly(actions)
    ensures Logged(k, ActAll(k, Opened(key), actions).db)
  {
    if actions != [] {
      var last := |actions| - 1;
      OwnLogIsComplete(k, key, actions[..last]);
      OpenedIsSane(k, key);
      SaneRun(k, Opened(key), actions[..last]);
      LoggedStep(k, ActAll(k, Opened(key), actions[..last]), actions[last]);
    }
  }

  /**
    No silent replacement. Take a Broker that has only run by itself and any other
    database that verifies, under whatever keys, with the same head: for every
    receipt, result, child list and grant the Broker holds the other database holds
    the same, or the two values, or two entries of the two logs, are a collision.
  */
  lemma ReplacementsAreEvident(
    k: Codec, key: string, actions: seq<Action>, trusted: set<string>, current: string, other: Database, s: Subject)
    requires Sound(k.crypto) && OwnOnly(actions)
    requires Verified(k, trusted, current, other) && AllSeparable(other.chain)
    requires var own := ActAll(k, Opened(key), actions).db;
      HeadOf(other.chain) == HeadOf(own.chain) && Holds(own.tables, s)
    ensures var own := ActAll(k, Opened(key), actions).db;
      Collide(k.crypto, own.chain, other.chain) || Agree(k, own.tables, other.tables, s)
  {
    var b := ActAll(k, Opened(key), actions);
    OwnStepsNeverDegrade(k, key, actions);
    OwnLogSeparable(k, key, actions);
    OwnLogIsComplete(k, key, actions);
    EvidenceOf(k, b.trusted, b.current, b.db, trusted, current, other, s);
  }

  lemma EvidenceOf(
    k: Codec, t1: set<string>, k1: string, a: Database, t2: set<string>, k2: string, b: Database, s: Subject)
    requires Verified(k, t1, k1, a) && Verified(k, t2, k2, b) && AllSeparable(a.chain) && AllSeparable(b.chain)
    requires HeadOf(b.chain) == HeadOf(a.chain) && LogNames(k, a.chain, s)
    ensures Collide(k.crypto, a.chain, b.chain) || Agree(k, a.tables, b.tables, s)
  {
    assert a.chain != [] && b.chain != [];
    SameHeadSameLog(k.crypto, t1, k1, a.chain, t2, k2, b.chain);
    if !Collide(k.crypto, a.chain, b.chain) {
      VerifiedDatabasesAgree(k, t1, k1, a, t2, k2, b, s);
    }
  }
}
