/**
  One Broker connection with its verified-tail cache, as the journal runs it: the
  verifying loop with its running variables, and the methods that lock, append,
  rotate and checkpoint by updating the connection in place.
*/
module AuditLog {
  import opened Wrappers
  import opened Tables
  import opened AuditChain
  import opened Correlation
  import opened TailCache

  /** The checks of one row, in the order the loop makes them. */
  method CheckEntry(c: Crypto, trusted: set<string>, e: Entry, sequence: nat, previous: string) returns (ok: bool)
    ensures ok <==> EntryOk(c, trusted, e, sequence, previous)
  {
    if e.sequence > I64_MAX || !IsDigest(e.previous) || !IsDigest(e.hash) {
      return false;
    }
    if e.sequence != sequence || e.previous != previous {
      return false;
    }
    var hash := EntryHash(c, e.sequence, e.event, e.payload, e.previous);
    if hash != e.hash || !Accepts(c, trusted, e.key, SignatureMessage(hash), e.signature) {
      return false;
    }
    return c.parse(e.payload).Some?;
  }

  /** A scan that stops at some row never gets past it. */
  lemma {:induction false} ScanStops(c: Crypto, trusted: set<string>, chain: seq<Entry>, n: nat)
    requires n <= |chain| && ScanAll(c, trusted, chain[..n]).None?
    ensures ScanAll(c, trusted, chain).None?
    decreases |chain|
  {
    if n < |chain| {
      var front := chain[..|chain| - 1];
      assert front[..n] == chain[..n];
      ScanStops(c, trusted, front, n);
    } else {
      assert chain[..n] == chain;
    }
  }

  lemma ScanOneMore(c: Crypto, trusted: set<string>, chain: seq<Entry>, i: nat, s: Scan)
    requires i < |chain| && ScanAll(c, trusted, chain[..i]) == Some(s)
    ensures ScanAll(c, trusted, chain[..i + 1]) == ScanEntry(c, trusted, s, chain[i])
    ensures ScanEntry(c, trusted, s, chain[i]).None? ==> ScanAll(c, trusted, chain).None?
  {
    assert chain[..i + 1][..i] == chain[..i];
    if ScanEntry(c, trusted, s, chain[i]).None? {
      ScanStops(c, trusted, chain, i + 1);
    }
  }

  /** One turn of the loop over its running variables. */
  method AdvanceScan(c: Crypto, trusted: set<string>, s: Scan, e: Entry) returns (r: Option<Scan>)
    ensures r == ScanEntry(c, trusted, s, e)
  {
    var ok := CheckEntry(c, trusted, e, s.sequence, s.previous);
    var expected := if s.key.Some? then s.key.value else e.key;
    if !ok || e.key != expected {
      return None;
    }
    if s.pending.Some? && e.event != COMPLETED {
      return None;
    }
    var pending := s.pending;
    if e.event == ROTATED {
      if !RotationOk(c, trusted, e) {
        return None;
      }
      expected := NewKey(c, e);
      pending := Some(Rotation(e.key, expected, e.hash));
    } else if e.event == COMPLETED {
      if pending.None? || !CompletionOk(c, e, pending.value) {
        return None;
      }
      pending := None;
    }
    return Some(Scan(s.sequence + 1, e.hash, Some(expected), pending));
  }

  /** `verify_audit_correlation`: dispatch on the event, then compare with the live rows. */
  method CheckCorrelation(k: Codec, t: Tables, e: Entry) returns (ok: bool)
    ensures ok <==> EntryCorrelated(k, t, e)
  {
    NamesDiffer();
    var parsed := k.crypto.parse(e.payload);
    if parsed.None? {
      return false;
    }
    var p := parsed.value;
    if !p.schemaV1 {
      return true;
    }
    if e.event == RECEIVED || e.event == PUBLISHED || e.event == BATCH_PUBLISHED {
      var members := if e.event == BATCH_PUBLISHED then p.parent else p.own;
      if members.operationId.None? || members.operationId.value !in t.operations {
        return false;
      }
      var o := t.operations[members.operationId.value];
      if o.receipt.None? || p.validationReceiptDigest != Some(k.receiptDigest(o.receipt.value)) {
        return false;
      }
      if e.event == RECEIVED {
        return members.operationDigest == Some(o.receipt.value.operationDigest);
      }
      if o.result.None? || !SameResult(k, members, o.result.value) {
        return false;
      }
      if e.event == PUBLISHED {
        return true;
      }
      return p.children.Some? && ListsChildren(k, t.children, members.operationId.value, p.children.value);
    }
    if e.event == APPROVAL_TRANSITION && p.to == Some(ACTIVE) {
      if p.approvalId.None? || p.approvalId.value !in t.approvals {
        return false;
      }
      var grant := t.approvals[p.approvalId.value].grant;
      return grant.Some? && p.activationReceiptDigest == Some(k.crypto.sha(grant.value));
    }
    return true;
  }

  /** Both checks of one row; the running variables move only if both pass. */
  method VerifyRow(k: Codec, trusted: set<string>, t: Tables, s: Scan, e: Entry) returns (r: Option<Scan>)
    ensures r == if EntryCorrelated(k, t, e) then ScanEntry(k.crypto, trusted, s, e) else None
  {
    r := AdvanceScan(k.crypto, trusted, s, e);
    if r.Some? {
      var ok := CheckCorrelation(k, t, e);
      if !ok {
        r := None;
      }
    }
  }

  /** The rows read so far all passed both checks. */
  ghost predicate PassedTo(k: Codec, trusted: set<string>, db: Database, i: nat, s: Scan)
    requires i <= |db.chain|
  {
    ScanAll(k.crypto, trusted, db.chain[..i]) == Some(s) && AllCorrelated(k, db.tables, db.chain[..i])
  }

  lemma PassedOneMore(k: Codec, trusted: set<string>, db: Database, i: nat, s: Scan)
    requires i < |db.chain| && PassedTo(k, trusted, db, i, s)
    ensures EntryCorrelated(k, db.tables, db.chain[i]) && ScanEntry(k.crypto, trusted, s, db.chain[i]).Some? ==>
      PassedTo(k, trusted, db, i + 1, ScanEntry(k.crypto, trusted, s, db.chain[i]).value)
    ensures !EntryCorrelated(k, db.tables, db.chain[i]) || ScanEntry(k.crypto, trusted, s, db.chain[i]).None? ==>
      forall current :: !Verified(k, trusted, current, db)
  {
    ScanOneMore(k.crypto, trusted, db.chain, i, s);
    if EntryCorrelated(k, db.tables, db.chain[i]) {
      var rows := db.chain[..i + 1];
      forall j | 0 <= j < |rows| ensures EntryCorrelated(k, db.tables, rows[j]) {
        if j < i {
          assert EntryCorrelated(k, db.tables, db.chain[..i][j]);
        }
      }
    }
  }

  /** `verify_audit_chain_connection`: one pass over the rows. */
  method VerifyAuditChain(k: Codec, trusted: set<string>, current: string, db: Database) returns (ok: bool)
    ensures ok <==> Verified(k, trusted, current, db)
  {
    var scan := START;
    for i := 0 to |db.chain|
      invariant PassedTo(k, trusted, db, i, scan)
    {
      PassedOneMore(k, trusted, db, i, scan);
      var next := VerifyRow(k, trusted, db.tables, scan, db.chain[i]);
      if next.None? {
        return false;
      }
      scan := next.value;
    }
    assert db.chain[..|db.chain|] == db.chain;
    return scan.pending.None? && (scan.key.None? || scan.key.value == current);
  }

  class Connection {
    var tables: Tables
    var chain: seq<Entry>
    var current: string
    var trusted: set<string>
    var dataVersion: nat
    var totalChanges: nat
    var tail: Option<Tail>
    var degraded: bool
    var checkpoints: seq<Head>

    /** The connection as the value the cache theorems speak about. */
    function State(): Broker
      reads this
    {
      Broker(Database(tables, chain), current, trusted, dataVersion, totalChanges, tail, degraded, checkpoints)
    }

    /** The cached tail stands for what it says. */
    ghost predicate Valid(k: Codec)
      reads this
    {
      Sound(k.crypto) && TailInv(k, State())
    }

    /** What a successful lock or checkpoint stands for. */
    ghost predicate Stands(k: Codec, h: Head)
      reads this
    {
      Verified(k, trusted, current, Database(tables, chain)) && h == HeadOf(chain)
    }

    /** Opened on a database nobody has verified yet. */
    constructor (t: Tables, entries: seq<Entry>, key: string, version: nat)
      ensures State() == Broker(Database(t, entries), key, {key}, version, 0, None, false, [])
    {
      tables, chain, current, trusted := t, entries, key, {key};
      dataVersion, totalChanges, tail, degraded, checkpoints := version, 0, None, false, [];
    }

    /** `audit_head`. */
    method AuditHead() returns (h: Head)
      ensures h == HeadOf(chain)
    {
      if chain == [] {
        return Head(0, ZERO);
      }
      var last := chain[|chain| - 1];
      return Head(last.sequence + 1, last.hash);
    }

    /** `refresh_verified_audit_tail`. */
    method RefreshTail() returns (h: Head)
      modifies this`tail
      ensures State() == Refresh(old(State())) && h == HeadOf(chain)
    {
      h := AuditHead();
      tail := Some(Tail(h.sequence, h.hash, dataVersion, totalChanges));
    }

    /** `cached_audit_head`: the cached head while nothing has changed, full verification otherwise. */
    method CachedAuditHead(k: Codec) returns (h: Option<Head>)
      modifies this`tail
      ensures match CachedHead(k, old(State()))
        case None => h == None && State() == old(State())
        case Some((next, head)) => h == Some(head) && State() == next
    {
      if tail.Some? && tail.value.dataVersion == dataVersion && tail.value.totalChanges == totalChanges {
        return Some(Head(tail.value.sequence, tail.value.hash));
      }
      var ok := VerifyAuditChain(k, trusted, current, Database(tables, chain));
      if !ok {
        return None;
      }
      var head := RefreshTail();
      return Some(head);
    }

    /** `lock_for_mutation`: a failed verification latches degradation. */
    method Lock(k: Codec) returns (h: Option<Head>)
      modifies this`tail, this`degraded
      ensures (State(), h) == LockForMutation(k, old(State()))
      ensures degraded <==> h.None?
      ensures old(degraded) ==> h.None?
      ensures old(Valid(k)) ==> Valid(k) && (h.Some? ==> Stands(k, h.value))
      ensures old(Valid(k)) && h.None? ==> old(degraded) || !Verified(k, trusted, current, Database(tables, chain))
    {
      if degraded {
        return None;
      }
      h := CachedAuditHead(k);
      if h.None? {
        degraded := true;
      }
    }

    /** `checkpoint_committed_head` after a commit. */
    method Checkpoint(k: Codec) returns (h: Option<Head>)
      modifies this`tail, this`checkpoints
      ensures (State(), h) == CheckpointCommittedHead(k, old(State()))
      ensures old(Valid(k)) ==> Valid(k) && (h.Some? ==> Stands(k, h.value))
      ensures old(Valid(k)) && h.None? ==> !Verified(k, trusted, current, Database(tables, chain))
    {
      if tail.Some? && tail.value.dataVersion == dataVersion {
        var head := RefreshTail();
        h := Some(head);
      } else {
        h := CachedAuditHead(k);
      }
      if h.Some? {
        checkpoints := checkpoints + [h.value];
      }
    }

    /** `append_audit`: the next row continues the last one, unless its sequence is out of range. */
    method AppendAudit(c: Crypto, key: string, event: string, payload: Payload) returns (ok: bool)
      modifies this`chain
      ensures ok <==> NextSequence(old(chain)) <= I64_MAX
      ensures chain == if ok then old(chain) + [NewEntry(c, old(chain), key, event, payload)] else old(chain)
    {
      var head := AuditHead();
      if head.sequence > I64_MAX {
        return false;
      }
      var text := c.text(payload);
      var hash := EntryHash(c, head.sequence, event, text, head.hash);
      var signature := c.sign(key, SignatureMessage(hash));
      chain := chain + [Entry(head.sequence, event, text, head.hash, hash, key, signature)];
      return true;
    }

    /** The two rows of a rotation, both or neither: the old key announces, the new key completes. */
    method AppendRotation(c: Crypto, newKey: string) returns (ok: bool)
      modifies this`chain
      ensures ok <==> NextSequence(old(chain)) < I64_MAX
      ensures chain == if ok then Rotate(c, old(chain), current, newKey) else old(chain)
    {
      var before := chain;
      var prior := AuditHead();
      var confirmation := c.sign(newKey, RotationMessage(current, newKey, prior.hash));
      ok := AppendAudit(c, current, ROTATED,
                        PLAIN.(oldKeyId := Some(current), newKeyId := Some(newKey), priorHead := Some(prior.hash),
                               newKeyConfirmation := Some(confirmation)));
      if ok {
        var final := AuditHead();
        ok := AppendAudit(c, newKey, COMPLETED,
                          PLAIN.(oldKeyId := Some(current), newKeyId := Some(newKey), finalOldHead := Some(final.hash)));
      }
      if !ok {
        chain := before;
      }
    }

    /** `rotate_audit_key` between lock and checkpoint. */
    method RotateKey(k: Codec, newKey: string) returns (ok: bool)
      modifies this`chain, this`current, this`trusted, this`totalChanges
      ensures ok <==> newKey != old(current) && NextSequence(old(chain)) < I64_MAX
      ensures State() == Rotated(k, old(State()), newKey, 1)
      ensures old(Valid(k)) ==> Valid(k)
    {
      if Valid(k) {
        RotateKeepsTail(k, State(), newKey, 1);
      }
      ok := InstallKey(k, newKey);
    }

    /** The rotation rows, then the replacement signer. */
    method InstallKey(k: Codec, newKey: string) returns (ok: bool)
      modifies this`chain, this`current, this`trusted, this`totalChanges
      ensures ok <==> newKey != old(current) && NextSequence(old(chain)) < I64_MAX
      ensures State() == Rotated(k, old(State()), newKey, 1)
    {
      if newKey == current {
        return false;
      }
      ok := AppendRotation(k.crypto, newKey);
      if ok {
        current, trusted, totalChanges := newKey, trusted + {newKey}, totalChanges + 2;
      }
    }
  }
}
