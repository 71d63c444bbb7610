/**
  The hash-linked, signed audit log: what one entry commits to, the row-by-row
  verifier with its key-rotation automaton, and the two ways the log grows.
*/
module AuditChain {
  import opened Wrappers

  /** The children array of a batch publication event. */
  datatype ChildDigest = ChildDigest(
    ordinal: nat, operation: string, digest: string, result: string, signerReceipt: string, brokerReceipt: string)

  /** The five members that describe one signing result in an event. */
  datatype ResultMembers = ResultMembers(
    operationId: Option<string>,
    operationDigest: Option<string>,
    resultDigest: Option<string>,
    signerReceiptDigest: Option<string>,
    brokerReceiptDigest: Option<string>)

  const NO_RESULT := ResultMembers(None, None, None, None, None)

  /**
    An event payload: the members the verifier reads, and everything else as text.
    `own` holds `operation_id` and its companions, `parent` the members whose names
    start with `parent_`.
  */
  datatype Payload = Payload(
    schemaV1: bool,
    to: Option<string>,
    approvalId: Option<string>,
    own: ResultMembers,
    parent: ResultMembers,
    validationReceiptDigest: Option<string>,
    children: Option<seq<ChildDigest>>,
    activationReceiptDigest: Option<string>,
    oldKeyId: Option<string>,
    newKeyId: Option<string>,
    priorHead: Option<string>,
    newKeyConfirmation: Option<string>,
    finalOldHead: Option<string>,
    rest: string)

  const PLAIN := Payload(false, None, None, NO_RESULT, NO_RESULT, None, None, None, None, None, None, None, None, "")

  /**
    The foreign calls of the log. Nothing is assumed of `sha` but the shape of its
    output; signatures verify what they signed; canonical JSON of a payload is an
    object and parses back.
  */
  datatype Crypto = Crypto(
    sha: string -> string,
    sign: (string, string) -> string,
    verify: (string, string, string) -> bool,
    text: Payload -> string,
    parse: string -> Option<Payload>)

  ghost predicate Sound(c: Crypto)
  {
    && (forall m :: IsDigest(c.sha(m)))
    && (forall k, m :: c.verify(k, m, c.sign(k, m)))
    && (forall p :: c.parse(c.text(p)) == Some(p))
    && (forall p :: c.text(p) != "" && c.text(p)[0] == '{')
  }

  predicate IsHex(ch: char)
  {
    '0' <= ch <= '9' || 'a' <= ch <= 'f'
  }

  /** `Digest32::new`. */
  predicate IsDigest(s: string)
  {
    |s| == 64 && forall i :: 0 <= i < |s| ==> IsHex(s[i])
  }

  const ZERO: string := Repeat('0', 64)

  const AUDIT_DOMAIN := "bloom-broker-audit/v1"
  const SIGNATURE_DOMAIN := "bloom-broker-audit-signature/v1"
  const ROTATION_DOMAIN := "bloom-broker-audit-key-rotation/v1"
  const ROTATED := "audit.key_rotated"
  const COMPLETED := "audit.key_rotation_completed"

  datatype Entry = Entry(
    sequence: nat,
    event: string,
    payload: string,
    previous: string,
    hash: string,
    key: string,
    signature: string)

  /** `to_be_bytes`: the low `k` bytes, most significant first. */
  function BigEndian(n: nat, k: nat): (s: string)
    ensures |s| == k
  {
    if k == 0 then "" else BigEndian(n / 256, k - 1) + [(n % 256) as char]
  }

  function Preimage(sequence: nat, event: string, payload: string, previous: string): string
  {
    AUDIT_DOMAIN + BigEndian(sequence, 8) + previous + event + payload
  }

  /** `compute_audit_hash`. */
  function EntryHash(c: Crypto, sequence: nat, event: string, payload: string, previous: string): string
  {
    c.sha(Preimage(sequence, event, payload, previous))
  }

  function SignatureMessage(hash: string): string
  {
    SIGNATURE_DOMAIN + hash
  }

  function RotationMessage(oldKey: string, newKey: string, priorHead: string): string
  {
    ROTATION_DOMAIN + oldKey + newKey + priorHead
  }

  /** Some registered signer accepts the signature. */
  predicate Accepts(c: Crypto, trusted: set<string>, key: string, message: string, signature: string)
  {
    key in trusted && c.verify(key, message, signature)
  }

  // ------------------------------------------------------------- entry checks

  /** What the verifier checks of an entry without looking at its neighbours' events. */
  predicate EntryOk(c: Crypto, trusted: set<string>, e: Entry, sequence: nat, previous: string)
  {
    && e.sequence == sequence <= I64_MAX
    && IsDigest(e.previous) && IsDigest(e.hash)
    && e.previous == previous
    && EntryHash(c, e.sequence, e.event, e.payload, e.previous) == e.hash
    && Accepts(c, trusted, e.key, SignatureMessage(e.hash), e.signature)
    && c.parse(e.payload).Some?
  }

  /** A rotated entry names its own key and head, and proves possession of a different new key. */
  predicate RotationOk(c: Crypto, trusted: set<string>, e: Entry)
    requires c.parse(e.payload).Some?
  {
    var p := c.parse(e.payload).value;
    && p.oldKeyId == Some(e.key)
    && p.priorHead == Some(e.previous)
    && p.newKeyId.Some? && p.newKeyId.value != e.key
    && p.newKeyConfirmation.Some?
    && Accepts(c, trusted, p.newKeyId.value,
               RotationMessage(e.key, p.newKeyId.value, e.previous), p.newKeyConfirmation.value)
  }

  function NewKey(c: Crypto, e: Entry): string
  {
    match c.parse(e.payload)
    case Some(p) => (match p.newKeyId case Some(k) => k case None => "")
    case None => ""
  }

  /** The rotation a completed entry must complete. */
  datatype Rotation = Rotation(oldKey: string, newKey: string, head: string)

  predicate CompletionOk(c: Crypto, e: Entry, r: Rotation)
    requires c.parse(e.payload).Some?
  {
    var p := c.parse(e.payload).value;
    && p.oldKeyId == Some(r.oldKey)
    && p.newKeyId == Some(r.newKey)
    && r.newKey == e.key
    && r.oldKey != r.newKey
    && p.finalOldHead == Some(r.head)
    && r.head == e.previous
  }

  // -------------------------------------------------------------- the verifier

  /** The verifier's running variables between two rows. */
  datatype Scan = Scan(sequence: nat, previous: string, key: Option<string>, pending: Option<Rotation>)

  const START := Scan(0, ZERO, None, None)

  /** One row of the verifying loop, without its correlation check. */
  function ScanEntry(c: Crypto, trusted: set<string>, s: Scan, e: Entry): Option<Scan>
  {
    var expected := if s.key.None? then e.key else s.key.value;
    if !EntryOk(c, trusted, e, s.sequence, s.previous) || e.key != expected
       || (s.pending.Some? && e.event != COMPLETED) then None
    else if e.event == ROTATED then
      if !RotationOk(c, trusted, e) then None
      else Some(Scan(s.sequence + 1, e.hash, Some(NewKey(c, e)), Some(Rotation(e.key, NewKey(c, e), e.hash))))
    else if e.event == COMPLETED then
      if s.pending.None? || !CompletionOk(c, e, s.pending.value) then None
      else Some(Scan(s.sequence + 1, e.hash, Some(expected), None))
    else Some(Scan(s.sequence + 1, e.hash, Some(expected), s.pending))
  }

  function ScanAll(c: Crypto, trusted: set<string>, chain: seq<Entry>): Option<Scan>
  {
    if chain == [] then Some(START)
    else match ScanAll(c, trusted, chain[..|chain| - 1])
         case None => None
         case Some(s) => ScanEntry(c, trusted, s, chain[|chain| - 1])
  }

  predicate Closed(s: Scan, current: string)
  {
    s.pending.None? && (s.key.Some? ==> s.key.value == current)
  }

  /** `verify_audit_chain_connection` up to the correlation of rows with tables. */
  predicate Verifies(c: Crypto, trusted: set<string>, current: string, chain: seq<Entry>)
  {
    var s := ScanAll(c, trusted, chain);
    s.Some? && Closed(s.value, current)
  }

  // ------------------------------------------------ the chains it accepts

  function HeadHash(chain: seq<Entry>): string
  {
    if chain == [] then ZERO else chain[|chain| - 1].hash
  }

  predicate IsRotated(e: Entry) { e.event == ROTATED }

  predicate IsCompleted(e: Entry) { e.event == COMPLETED }

  /** The key that must sign whatever follows an entry. */
  function KeyAfter(c: Crypto, e: Entry): string
  {
    if IsRotated(e) then NewKey(c, e) else e.key
  }

  predicate EntriesOk(c: Crypto, trusted: set<string>, chain: seq<Entry>)
  {
    forall i :: 0 <= i < |chain| ==>
      && EntryOk(c, trusted, chain[i], i, HeadHash(chain[..i]))
      && (IsRotated(chain[i]) ==> RotationOk(c, trusted, chain[i]))
  }

  /** Rotated and completed entries come in adjacent pairs. */
  predicate Paired(c: Crypto, chain: seq<Entry>)
  {
    && (chain != [] ==> !IsCompleted(chain[0]))
    && (forall i :: 0 < i < |chain| ==>
          && (IsRotated(chain[i - 1]) <==> IsCompleted(chain[i]))
          && chain[i].key == KeyAfter(c, chain[i - 1]))
  }

  predicate Completions(c: Crypto, chain: seq<Entry>)
  {
    forall i :: 0 < i < |chain| && IsCompleted(chain[i]) ==>
      c.parse(chain[i].payload).Some?
      && CompletionOk(c, chain[i], Rotation(chain[i - 1].key, NewKey(c, chain[i - 1]), chain[i - 1].hash))
  }

  /** The same chains said without running anything. */
  predicate WellFormed(c: Crypto, trusted: set<string>, chain: seq<Entry>)
  {
    EntriesOk(c, trusted, chain) && Paired(c, chain) && Completions(c, chain)
  }

  /** Where the scan of a well-formed chain stands. */
  function Standing(c: Crypto, chain: seq<Entry>): Scan
  {
    if chain == [] then START
    else
      var e := chain[|chain| - 1];
      Scan(|chain|, e.hash, Some(KeyAfter(c, e)),
           if IsRotated(e) then Some(Rotation(e.key, NewKey(c, e), e.hash)) else None)
  }

  lemma EventsDiffer()
    ensures ROTATED != COMPLETED
  {
    assert |ROTATED| == 17 && |COMPLETED| == 28;
  }

  lemma EntriesOneMore(c: Crypto, trusted: set<string>, chain: seq<Entry>, e: Entry)
    ensures EntriesOk(c, trusted, chain + [e]) <==>
      && EntriesOk(c, trusted, chain)
      && EntryOk(c, trusted, e, |chain|, HeadHash(chain))
      && (IsRotated(e) ==> RotationOk(c, trusted, e))
  {
    var n, all := |chain|, chain + [e];
    assert all[n] == e && all[..n] == chain;
    forall i | 0 <= i < n ensures all[i] == chain[i] && all[..i] == chain[..i] {}
    if EntriesOk(c, trusted, all) {
      assert EntryOk(c, trusted, all[n], n, HeadHash(all[..n]));
      forall i | 0 <= i < n
        ensures EntryOk(c, trusted, chain[i], i, HeadHash(chain[..i]))
        ensures IsRotated(chain[i]) ==> RotationOk(c, trusted, chain[i])
      {
        assert EntryOk(c, trusted, all[i], i, HeadHash(all[..i]));
      }
    }
  }

  /** How an entry may follow the last one. */
  predicate Follows(c: Crypto, chain: seq<Entry>, e: Entry)
  {
    if chain == [] then !IsCompleted(e)
    else
      var last := chain[|chain| - 1];
      (IsRotated(last) <==> IsCompleted(e)) && e.key == KeyAfter(c, last)
  }

  lemma PairedOneMore(c: Crypto, chain: seq<Entry>, e: Entry)
    ensures Paired(c, chain + [e]) <==> Paired(c, chain) && Follows(c, chain, e)
  {
    var n, all := |chain|, chain + [e];
    assert all[n] == e;
    assert forall i :: 0 <= i < n ==> all[i] == chain[i];
    if n > 0 && Paired(c, all) {
      assert all[n].key == KeyAfter(c, all[n - 1]);
    }
  }

  /** A completed entry completes the entry before it. */
  predicate Completes(c: Crypto, chain: seq<Entry>, e: Entry)
  {
    chain != [] && IsCompleted(e) ==>
      var last := chain[|chain| - 1];
      c.parse(e.payload).Some? && CompletionOk(c, e, Rotation(last.key, NewKey(c, last), last.hash))
  }

  lemma CompletionsOneMore(c: Crypto, chain: seq<Entry>, e: Entry)
    ensures Completions(c, chain + [e]) <==> Completions(c, chain) && Completes(c, chain, e)
  {
    var n, all := |chain|, chain + [e];
    assert all[n] == e;
    assert forall i :: 0 <= i < n ==> all[i] == chain[i];
  }

  lemma ShorterChain(c: Crypto, trusted: set<string>, chain: seq<Entry>, e: Entry)
    ensures WellFormed(c, trusted, chain + [e]) <==>
      && WellFormed(c, trusted, chain)
      && EntryOk(c, trusted, e, |chain|, HeadHash(chain))
      && (IsRotated(e) ==> RotationOk(c, trusted, e))
      && Follows(c, chain, e)
      && Completes(c, chain, e)
  {
    EntriesOneMore(c, trusted, chain, e);
    PairedOneMore(c, chain, e);
    CompletionsOneMore(c, chain, e);
  }

  /** One row of the loop, from where a chain stands, checks exactly how the row may follow the chain. */
  lemma OneMoreEntry(c: Crypto, trusted: set<string>, front: seq<Entry>, e: Entry)
    ensures var r := ScanEntry(c, trusted, Standing(c, front), e);
      && (r.Some? <==>
            && EntryOk(c, trusted, e, |front|, HeadHash(front))
            && (IsRotated(e) ==> RotationOk(c, trusted, e))
            && Follows(c, front, e)
            && Completes(c, front, e))
      && (r.Some? ==> r.value == Standing(c, front + [e]))
  {
    EventsDiffer();
    assert (front + [e])[|front|] == e;
    var s := Standing(c, front);
    assert s.sequence == |front| && s.previous == HeadHash(front);
    assert s.pending.Some? <==> front != [] && IsRotated(front[|front| - 1]);
    if EntryOk(c, trusted, e, |front|, HeadHash(front)) {
      if IsRotated(e) {
      } else if IsCompleted(e) {
      } else {
      }
    }
  }

  lemma ScanFollows(c: Crypto, trusted: set<string>, front: seq<Entry>, e: Entry)
    ensures WellFormed(c, trusted, front + [e])
       <==> WellFormed(c, trusted, front) && ScanEntry(c, trusted, Standing(c, front), e).Some?
    ensures ScanEntry(c, trusted, Standing(c, front), e).Some? ==>
      ScanEntry(c, trusted, Standing(c, front), e).value == Standing(c, front + [e])
  {
    ShorterChain(c, trusted, front, e);
    OneMoreEntry(c, trusted, front, e);
  }

  /** The scan accepts a prefix exactly when it is well formed, and then stands where its last entry says. */
  lemma {:induction false} ScanMeansWellFormed(c: Crypto, trusted: set<string>, chain: seq<Entry>)
    ensures ScanAll(c, trusted, chain).Some? <==> WellFormed(c, trusted, chain)
    ensures ScanAll(c, trusted, chain).Some? ==> ScanAll(c, trusted, chain).value == Standing(c, chain)
  {
    if chain != [] {
      var front, e := chain[..|chain| - 1], chain[|chain| - 1];
      assert chain == front + [e];
      ScanMeansWellFormed(c, trusted, front);
      ScanFollows(c, trusted, front, e);
    }
  }

  /**
    An accepted chain, said declaratively: every entry links, hashes and verifies;
    a key only changes between a rotated entry and the completed entry right after
    it; and the last key is the current one.
  */
  lemma VerifiedChains(c: Crypto, trusted: set<string>, current: string, chain: seq<Entry>)
    ensures Verifies(c, trusted, current, chain) <==>
      && WellFormed(c, trusted, chain)
      && (chain != [] ==> !IsRotated(chain[|chain| - 1]) && chain[|chain| - 1].key == current)
  {
    ScanMeansWellFormed(c, trusted, chain);
  }

  /** Every entry of an accepted chain carries a trusted key's signature over the hash of its number, predecessor and content. */
  lemma AcceptedEntriesAreSigned(c: Crypto, trusted: set<string>, current: string, chain: seq<Entry>, i: nat)
    requires Verifies(c, trusted, current, chain) && i < |chain|
    ensures chain[i].key in trusted
    ensures c.verify(chain[i].key, SIGNATURE_DOMAIN + chain[i].hash, chain[i].signature)
    ensures chain[i].sequence == i && chain[i].previous == if i == 0 then ZERO else chain[i - 1].hash
    ensures chain[i].hash
         == c.sha(AUDIT_DOMAIN + BigEndian(i, 8) + chain[i].previous + chain[i].event + chain[i].payload)
  {
    VerifiedChains(c, trusted, current, chain);
    assert EntryOk(c, trusted, chain[i], i, HeadHash(chain[..i]));
  }

  /** At every rotation of an accepted chain the old key names its successor, which confirms the step and completes it. */
  lemma RotationsAreConfirmed(c: Crypto, trusted: set<string>, current: string, chain: seq<Entry>, i: nat)
    requires Verifies(c, trusted, current, chain) && i < |chain| && IsRotated(chain[i])
    ensures i + 1 < |chain| && IsCompleted(chain[i + 1]) && chain[i + 1].key != chain[i].key && chain[i + 1].key in trusted
    ensures c.parse(chain[i].payload).Some? && c.parse(chain[i + 1].payload).Some?
    ensures var announced, completed := c.parse(chain[i].payload).value, c.parse(chain[i + 1].payload).value;
      && announced.oldKeyId == completed.oldKeyId == Some(chain[i].key)
      && announced.newKeyId == completed.newKeyId == Some(chain[i + 1].key)
      && announced.priorHead == Some(chain[i].previous) && completed.finalOldHead == Some(chain[i].hash)
      && announced.newKeyConfirmation.Some?
      && c.verify(chain[i + 1].key, ROTATION_DOMAIN + chain[i].key + chain[i + 1].key + chain[i].previous,
                  announced.newKeyConfirmation.value)
  {
    VerifiedChains(c, trusted, current, chain);
    KeyChangesAtRotations(c, trusted, chain, i + 1);
    assert RotationOk(c, trusted, chain[i]);
    assert CompletionOk(c, chain[i + 1], Rotation(chain[i].key, NewKey(c, chain[i]), chain[i].hash));
    AcceptedEntriesAreSigned(c, trusted, current, chain, i + 1);
  }

  // --------------------------------------------------------------- segments

  /** No completed entry in `(i, j]`. */
  predicate SameSegment(chain: seq<Entry>, i: nat, j: nat)
    requires i <= j < |chain|
  {
    forall k :: i < k <= j ==> !IsCompleted(chain[k])
  }

  /** Entries of one segment are signed by one key. */
  lemma {:induction false} OneKeyPerSegment(c: Crypto, chain: seq<Entry>, i: nat, j: nat)
    requires Paired(c, chain) && i <= j < |chain| && SameSegment(chain, i, j)
    ensures chain[i].key == chain[j].key
    decreases j
  {
    if i < j {
      OneKeyPerSegment(c, chain, i, j - 1);
      assert chain[j].key == KeyAfter(c, chain[j - 1]);
    }
  }

  /** Between two neighbours the key changes exactly at a rotation, and then to the key it confirmed. */
  lemma KeyChangesAtRotations(c: Crypto, trusted: set<string>, chain: seq<Entry>, i: nat)
    requires WellFormed(c, trusted, chain) && 0 < i < |chain|
    ensures chain[i].key != chain[i - 1].key <==> IsRotated(chain[i - 1])
    ensures IsRotated(chain[i - 1]) <==> IsCompleted(chain[i])
    ensures IsRotated(chain[i - 1]) ==> chain[i].key == NewKey(c, chain[i - 1])
  {
    assert chain[i].key == KeyAfter(c, chain[i - 1]);
    if IsRotated(chain[i - 1]) {
      assert RotationOk(c, trusted, chain[i - 1]);
    }
  }

  /**
    Every accepted chain is a sequence of single-key segments. A boundary is an
    adjacent rotated entry, signed by the old key, and completed entry, signed by
    the different new key it confirmed; the last segment uses the current key.
  */
  lemma SegmentsOfAcceptedChain(c: Crypto, trusted: set<string>, current: string, chain: seq<Entry>)
    requires Verifies(c, trusted, current, chain)
    ensures forall i, j :: 0 <= i <= j < |chain| && SameSegment(chain, i, j) ==> chain[i].key == chain[j].key
    ensures forall i :: 0 < i < |chain| ==>
      (chain[i].key != chain[i - 1].key <==> IsRotated(chain[i - 1]) && IsCompleted(chain[i]))
    ensures forall i :: 0 <= i < |chain| && IsRotated(chain[i]) ==>
      i + 1 < |chain| && IsCompleted(chain[i + 1]) && chain[i + 1].key == NewKey(c, chain[i]) != chain[i].key
    ensures forall i :: 0 <= i < |chain| && SameSegment(chain, i, |chain| - 1) ==> chain[i].key == current
  {
    VerifiedChains(c, trusted, current, chain);
    SegmentsHaveOneKey(c, chain);
    KeysChangeAtRotations(c, trusted, chain);
    RotationsAreCompleted(c, trusted, chain);
  }

  lemma SegmentsHaveOneKey(c: Crypto, chain: seq<Entry>)
    requires Paired(c, chain)
    ensures forall i, j :: 0 <= i <= j < |chain| && SameSegment(chain, i, j) ==> chain[i].key == chain[j].key
  {
    forall i, j | 0 <= i <= j < |chain| && SameSegment(chain, i, j) ensures chain[i].key == chain[j].key {
      OneKeyPerSegment(c, chain, i, j);
    }
  }

  lemma KeysChangeAtRotations(c: Crypto, trusted: set<string>, chain: seq<Entry>)
    requires WellFormed(c, trusted, chain)
    ensures forall i :: 0 < i < |chain| ==>
      (chain[i].key != chain[i - 1].key <==> IsRotated(chain[i - 1]) && IsCompleted(chain[i]))
  {
    forall i | 0 < i < |chain|
      ensures chain[i].key != chain[i - 1].key <==> IsRotated(chain[i - 1]) && IsCompleted(chain[i])
    {
      KeyChangesAtRotations(c, trusted, chain, i);
    }
  }

  lemma RotationsAreCompleted(c: Crypto, trusted: set<string>, chain: seq<Entry>)
    requires WellFormed(c, trusted, chain) && (chain != [] ==> !IsRotated(chain[|chain| - 1]))
    ensures forall i :: 0 <= i < |chain| && IsRotated(chain[i]) ==>
      i + 1 < |chain| && IsCompleted(chain[i + 1]) && chain[i + 1].key == NewKey(c, chain[i]) != chain[i].key
  {
    forall i | 0 <= i < |chain| && IsRotated(chain[i])
      ensures i + 1 < |chain| && IsCompleted(chain[i + 1]) && chain[i + 1].key == NewKey(c, chain[i]) != chain[i].key
    {
      KeyChangesAtRotations(c, trusted, chain, i + 1);
    }
  }

  // ------------------------------------------------------------------ growth

  /** The sequence `append_audit` gives the next row. */
  function NextSequence(chain: seq<Entry>): nat
  {
    if chain == [] then 0 else chain[|chain| - 1].sequence + 1
  }

  /** `append_audit` under a given key. */
  function NewEntry(c: Crypto, chain: seq<Entry>, key: string, event: string, payload: Payload): Entry
  {
    var hash := EntryHash(c, NextSequence(chain), event, c.text(payload), HeadHash(chain));
    Entry(NextSequence(chain), event, c.text(payload), HeadHash(chain), hash, key, c.sign(key, SignatureMessage(hash)))
  }

  lemma HeadIsDigest(c: Crypto, trusted: set<string>, chain: seq<Entry>)
    requires EntriesOk(c, trusted, chain)
    ensures IsDigest(HeadHash(chain)) && NextSequence(chain) == |chain|
  {
    if chain != [] {
      var last := |chain| - 1;
      assert EntryOk(c, trusted, chain[last], last, HeadHash(chain[..last]));
    }
  }

  lemma VerifiedIsNumbered(c: Crypto, trusted: set<string>, current: string, chain: seq<Entry>)
    requires Verifies(c, trusted, current, chain)
    ensures NextSequence(chain) == |chain|
  {
    VerifiedChains(c, trusted, current, chain);
    HeadIsDigest(c, trusted, chain);
  }

  lemma NewEntryOk(c: Crypto, trusted: set<string>, chain: seq<Entry>, key: string, event: string, payload: Payload)
    requires Sound(c) && EntriesOk(c, trusted, chain) && key in trusted && |chain| <= I64_MAX
    ensures EntryOk(c, trusted, NewEntry(c, chain, key, event, payload), |chain|, HeadHash(chain))
    ensures c.parse(NewEntry(c, chain, key, event, payload).payload) == Some(payload)
  {
    HeadIsDigest(c, trusted, chain);
  }

  /** An append keeps the chain acceptable. */
  lemma AppendVerifies(c: Crypto, trusted: set<string>, current: string, chain: seq<Entry>, event: string, payload: Payload)
    requires Sound(c) && Verifies(c, trusted, current, chain) && current in trusted && |chain| <= I64_MAX
    requires event != ROTATED && event != COMPLETED
    ensures Verifies(c, trusted, current, chain + [NewEntry(c, chain, current, event, payload)])
  {
    var e := NewEntry(c, chain, current, event, payload);
    VerifiedChains(c, trusted, current, chain);
    NewEntryOk(c, trusted, chain, current, event, payload);
    ShorterChain(c, trusted, chain, e);
    VerifiedChains(c, trusted, current, chain + [e]);
  }

  function RotatedPayload(c: Crypto, oldKey: string, newKey: string, head: string): Payload
  {
    PLAIN.(oldKeyId := Some(oldKey), newKeyId := Some(newKey), priorHead := Some(head),
           newKeyConfirmation := Some(c.sign(newKey, RotationMessage(oldKey, newKey, head))))
  }

  function CompletedPayload(oldKey: string, newKey: string, head: string): Payload
  {
    PLAIN.(oldKeyId := Some(oldKey), newKeyId := Some(newKey), finalOldHead := Some(head))
  }

  /** `rotate_audit_key`: the old key announces, the new key completes. */
  function Rotate(c: Crypto, chain: seq<Entry>, oldKey: string, newKey: string): seq<Entry>
  {
    var rotated := NewEntry(c, chain, oldKey, ROTATED, RotatedPayload(c, oldKey, newKey, HeadHash(chain)));
    var completed := NewEntry(c, chain + [rotated], newKey, COMPLETED, CompletedPayload(oldKey, newKey, rotated.hash));
    chain + [rotated] + [completed]
  }

  lemma {:induction false} TrustGrows(c: Crypto, trusted: set<string>, more: set<string>, chain: seq<Entry>)
    requires trusted <= more && WellFormed(c, trusted, chain)
    ensures WellFormed(c, more, chain)
  {
    forall i | 0 <= i < |chain|
      ensures EntryOk(c, more, chain[i], i, HeadHash(chain[..i]))
      ensures IsRotated(chain[i]) ==> RotationOk(c, more, chain[i])
    {
      assert EntryOk(c, trusted, chain[i], i, HeadHash(chain[..i]));
    }
  }

  lemma RotatedOk(c: Crypto, trusted: set<string>, chain: seq<Entry>, oldKey: string, newKey: string)
    requires Sound(c) && WellFormed(c, trusted, chain) && oldKey in trusted && newKey in trusted
    requires newKey != oldKey && |chain| <= I64_MAX
    requires chain != [] ==> !IsRotated(chain[|chain| - 1]) && chain[|chain| - 1].key == oldKey
    ensures var e := NewEntry(c, chain, oldKey, ROTATED, RotatedPayload(c, oldKey, newKey, HeadHash(chain)));
      WellFormed(c, trusted, chain + [e]) && NewKey(c, e) == newKey
  {
    EventsDiffer();
    var p := RotatedPayload(c, oldKey, newKey, HeadHash(chain));
    NewEntryOk(c, trusted, chain, oldKey, ROTATED, p);
    ShorterChain(c, trusted, chain, NewEntry(c, chain, oldKey, ROTATED, p));
  }

  lemma CompletedOk(c: Crypto, trusted: set<string>, chain: seq<Entry>, oldKey: string, newKey: string)
    requires Sound(c) && WellFormed(c, trusted, chain) && newKey in trusted && newKey != oldKey
    requires 0 < |chain| <= I64_MAX
    requires var last := chain[|chain| - 1]; IsRotated(last) && last.key == oldKey && NewKey(c, last) == newKey
    ensures WellFormed(c, trusted,
      chain + [NewEntry(c, chain, newKey, COMPLETED, CompletedPayload(oldKey, newKey, HeadHash(chain)))])
  {
    EventsDiffer();
    var p := CompletedPayload(oldKey, newKey, HeadHash(chain));
    NewEntryOk(c, trusted, chain, newKey, COMPLETED, p);
    ShorterChain(c, trusted, chain, NewEntry(c, chain, newKey, COMPLETED, p));
  }

  /** A rotation keeps the chain acceptable, now under the new key. */
  lemma RotateVerifies(c: Crypto, trusted: set<string>, current: string, chain: seq<Entry>, newKey: string)
    requires Sound(c) && Verifies(c, trusted, current, chain) && current in trusted
    requires newKey != current && |chain| < I64_MAX
    ensures Verifies(c, trusted + {newKey}, newKey, Rotate(c, chain, current, newKey))
  {
    EventsDiffer();
    var all := trusted + {newKey};
    VerifiedChains(c, trusted, current, chain);
    TrustGrows(c, trusted, all, chain);
    RotatedOk(c, all, chain, current, newKey);
    var rotated := NewEntry(c, chain, current, ROTATED, RotatedPayload(c, current, newKey, HeadHash(chain)));
    var mid := chain + [rotated];
    assert HeadHash(mid) == rotated.hash;
    CompletedOk(c, all, mid, current, newKey);
    VerifiedChains(c, all, newKey, Rotate(c, chain, current, newKey));
  }
}
