/**
  Tamper evidence. Two accepted logs with the same head agree entry by entry, or
  they exhibit a collision of the hash. Nothing is assumed of the hash but the
  length of its output.
*/
module Tamper {
  import opened Wrappers
  import opened Tables
  import opened AuditChain
  import opened Correlation
  import opened TailCache
  import opened OwnRuns

  function Pow256(k: nat): nat
  {
    if k == 0 then 1 else 256 * Pow256(k - 1)
  }

  lemma {:induction false} BigEndianInjective(n: nat, m: nat, k: nat)
    requires n < Pow256(k) && m < Pow256(k) && BigEndian(n, k) == BigEndian(m, k)
    ensures n == m
  {
    if k > 0 {
      var a, b := BigEndian(n / 256, k - 1), BigEndian(m / 256, k - 1);
      assert BigEndian(n, k)[..k - 1] == a && BigEndian(m, k)[..k - 1] == b;
      assert BigEndian(n, k)[k - 1] == (n % 256) as char && BigEndian(m, k)[k - 1] == (m % 256) as char;
      BigEndianInjective(n / 256, m / 256, k - 1);
    }
  }

  lemma SequencesFit(n: nat)
    requires n <= I64_MAX
    ensures n < Pow256(8)
  {
    assert Pow256(4) == 0x1_0000_0000;
    assert Pow256(8) == 256 * (256 * (256 * (256 * Pow256(4))));
  }

  /** Event name and payload are concatenated without a separator; the opening brace separates them. */
  predicate Separable(e: Entry)
  {
    NoBrace(e.event) && e.payload != "" && e.payload[0] == '{'
  }

  /** A payload that starts inside the other event puts its brace there. */
  lemma BraceInside(e1: string, p1: string, e2: string, p2: string)
    requires e1 + p1 == e2 + p2 && |e1| < |e2| && p1 != "" && p1[0] == '{'
    ensures e2[|e1|] == '{'
  {
    assert (e1 + p1)[|e1|] == p1[0] && (e2 + p2)[|e1|] == e2[|e1|];
  }

  lemma SplitUnique(e1: string, p1: string, e2: string, p2: string)
    requires NoBrace(e1) && NoBrace(e2) && p1 != "" && p2 != "" && p1[0] == '{' && p2[0] == '{'
    requires e1 + p1 == e2 + p2
    ensures e1 == e2 && p1 == p2
  {
    if |e1| < |e2| {
      BraceInside(e1, p1, e2, p2);
      assert false;
    } else if |e2| < |e1| {
      BraceInside(e2, p2, e1, p1);
      assert false;
    }
    assert (e1 + p1)[..|e1|] == e1 && (e2 + p2)[..|e2|] == e2;
    assert (e1 + p1)[|e1|..] == p1 && (e2 + p2)[|e2|..] == p2;
  }

  function PreimageOf(e: Entry): string
  {
    Preimage(e.sequence, e.event, e.payload, e.previous)
  }

  /** What an entry's hash commits to. */
  predicate SameContent(a: Entry, b: Entry)
  {
    a.sequence == b.sequence && a.event == b.event && a.payload == b.payload && a.previous == b.previous && a.hash == b.hash
  }

  lemma PreimageParts(e: Entry)
    requires |e.previous| == 64
    ensures var n := |AUDIT_DOMAIN|;
      && |PreimageOf(e)| >= n + 72
      && PreimageOf(e)[n..n + 8] == BigEndian(e.sequence, 8)
      && PreimageOf(e)[n + 8..n + 72] == e.previous
      && PreimageOf(e)[n + 72..] == e.event + e.payload
  {
    var n := |AUDIT_DOMAIN|;
    var head := AUDIT_DOMAIN + BigEndian(e.sequence, 8);
    assert PreimageOf(e) == head + e.previous + (e.event + e.payload);
    assert |head| == n + 8 && head[n..] == BigEndian(e.sequence, 8);
  }

  lemma PreimageInjective(a: Entry, b: Entry)
    requires |a.previous| == 64 && |b.previous| == 64
    requires a.sequence <= I64_MAX && b.sequence <= I64_MAX
    requires Separable(a) && Separable(b) && PreimageOf(a) == PreimageOf(b)
    ensures a.sequence == b.sequence && a.event == b.event && a.payload == b.payload && a.previous == b.previous
  {
    PreimageParts(a);
    PreimageParts(b);
    SequencesFit(a.sequence);
    SequencesFit(b.sequence);
    BigEndianInjective(a.sequence, b.sequence, 8);
    SplitUnique(a.event, a.payload, b.event, b.payload);
  }

  /** Two different hashed messages with the same hash. */
  ghost predicate Collide(c: Crypto, a: seq<Entry>, b: seq<Entry>)
  {
    exists i, j :: 0 <= i < |a| && 0 <= j < |b|
      && PreimageOf(a[i]) != PreimageOf(b[j]) && c.sha(PreimageOf(a[i])) == c.sha(PreimageOf(b[j]))
  }

  lemma CollideGrows(c: Crypto, a: seq<Entry>, b: seq<Entry>)
    requires a != [] && b != [] && Collide(c, a[..|a| - 1], b[..|b| - 1])
    ensures Collide(c, a, b)
  {
    var i, j :| 0 <= i < |a| - 1 && 0 <= j < |b| - 1
      && PreimageOf(a[..|a| - 1][i]) != PreimageOf(b[..|b| - 1][j])
      && c.sha(PreimageOf(a[..|a| - 1][i])) == c.sha(PreimageOf(b[..|b| - 1][j]));
    assert PreimageOf(a[i]) != PreimageOf(b[j]) && c.sha(PreimageOf(a[i])) == c.sha(PreimageOf(b[j]));
  }

  /** The links of a log, all that the comparison needs. */
  predicate Linked(c: Crypto, chain: seq<Entry>)
  {
    forall i :: 0 <= i < |chain| ==>
      && chain[i].sequence == i <= I64_MAX
      && |chain[i].previous| == 64
      && chain[i].previous == HeadHash(chain[..i])
      && chain[i].hash == c.sha(PreimageOf(chain[i]))
  }

  lemma AcceptedIsLinked(c: Crypto, trusted: set<string>, current: string, chain: seq<Entry>)
    requires Verifies(c, trusted, current, chain)
    ensures Linked(c, chain)
  {
    VerifiedChains(c, trusted, current, chain);
    forall i | 0 <= i < |chain|
      ensures chain[i].sequence == i <= I64_MAX && |chain[i].previous| == 64
      ensures chain[i].previous == HeadHash(chain[..i]) && chain[i].hash == c.sha(PreimageOf(chain[i]))
    {
      assert EntryOk(c, trusted, chain[i], i, HeadHash(chain[..i]));
    }
  }

  predicate AllSeparable(chain: seq<Entry>)
  {
    forall i :: 0 <= i < |chain| ==> Separable(chain[i])
  }

  predicate SameLog(a: seq<Entry>, b: seq<Entry>)
  {
    |a| == |b| && forall i :: 0 <= i < |a| ==> SameContent(a[i], b[i])
  }

  lemma LinkedFront(c: Crypto, chain: seq<Entry>)
    requires Linked(c, chain) && AllSeparable(chain) && chain != []
    ensures Linked(c, chain[..|chain| - 1]) && AllSeparable(chain[..|chain| - 1])
  {
    var front := chain[..|chain| - 1];
    assert forall i :: 0 <= i < |front| ==> front[i] == chain[i] && front[..i] == chain[..i];
  }

  /** Equal heads hash equal messages or collide right there. */
  lemma LastAgree(c: Crypto, a: seq<Entry>, b: seq<Entry>)
    requires Linked(c, a) && Linked(c, b) && AllSeparable(a) && AllSeparable(b)
    requires a != [] && b != [] && HeadHash(a) == HeadHash(b)
    ensures Collide(c, a, b)
         || (|a| == |b| && SameContent(a[|a| - 1], b[|b| - 1]) && HeadHash(a[..|a| - 1]) == HeadHash(b[..|b| - 1]))
  {
    var x, y := a[|a| - 1], b[|b| - 1];
    assert x.hash == c.sha(PreimageOf(x)) && y.hash == c.sha(PreimageOf(y));
    if PreimageOf(x) == PreimageOf(y) {
      assert Separable(x) && Separable(y);
      PreimageInjective(x, y);
    }
  }

  lemma SameLogGrows(a: seq<Entry>, b: seq<Entry>)
    requires |a| == |b| > 0 && SameLog(a[..|a| - 1], b[..|b| - 1]) && SameContent(a[|a| - 1], b[|b| - 1])
    ensures SameLog(a, b)
  {
    forall i | 0 <= i < |a| ensures SameContent(a[i], b[i]) {
      if i < |a| - 1 {
        assert SameContent(a[..|a| - 1][i], b[..|b| - 1][i]);
      }
    }
  }

  lemma {:induction false} SameHeadSameLinks(c: Crypto, a: seq<Entry>, b: seq<Entry>)
    requires Linked(c, a) && Linked(c, b) && AllSeparable(a) && AllSeparable(b)
    requires a != [] && b != [] && HeadHash(a) == HeadHash(b)
    ensures Collide(c, a, b) || SameLog(a, b)
    decreases |a|
  {
    LastAgree(c, a, b);
    if !Collide(c, a, b) {
      var fa, fb := a[..|a| - 1], b[..|b| - 1];
      if fa != [] {
        LinkedFront(c, a);
        LinkedFront(c, b);
        SameHeadSameLinks(c, fa, fb);
        if Collide(c, fa, fb) {
          CollideGrows(c, a, b);
        }
      }
      SameLogGrows(a, b);
    }
  }

  /**
    Any two accepted non-empty logs with the same head hash, possibly under
    different keys, agree entry by entry on sequence, event, payload, link and
    hash, unless two of their entries are a collision of the hash.
  */
  lemma SameHeadSameLog(
    c: Crypto, t1: set<string>, k1: string, a: seq<Entry>, t2: set<string>, k2: string, b: seq<Entry>)
    requires Verifies(c, t1, k1, a) && Verifies(c, t2, k2, b) && AllSeparable(a) && AllSeparable(b)
    requires a != [] && b != [] && HeadHash(a) == HeadHash(b)
    ensures Collide(c, a, b) || SameLog(a, b)
  {
    AcceptedIsLinked(c, t1, k1, a);
    AcceptedIsLinked(c, t2, k2, b);
    SameHeadSameLinks(c, a, b);
  }

  lemma SplitIsAmbiguous(sequence: nat, previous: string)
    ensures Preimage(sequence, "a", "11", previous) == Preimage(sequence, "a1", "1", previous)
  {
    var head := AUDIT_DOMAIN + BigEndian(sequence, 8) + previous;
    assert "a" + "11" == "a1" + "1";
    assert Preimage(sequence, "a", "11", previous) == head + ("a" + "11");
    assert Preimage(sequence, "a1", "1", previous) == head + ("a1" + "1");
  }

  /** A log of one signed entry. */
  function Single(c: Crypto, key: string, event: string, payload: string): seq<Entry>
  {
    var hash := EntryHash(c, 0, event, payload, ZERO);
    [Entry(0, event, payload, ZERO, hash, key, c.sign(key, SignatureMessage(hash)))]
  }

  lemma SingleVerifies(c: Crypto, key: string, event: string, payload: string)
    requires IsDigest(EntryHash(c, 0, event, payload, ZERO)) && c.parse(payload).Some?
    requires forall k, m :: c.verify(k, m, c.sign(k, m))
    requires event != ROTATED && event != COMPLETED
    ensures Verifies(c, {key}, key, Single(c, key, event, payload))
  {
    var e := Single(c, key, event, payload)[0];
    assert [e][..0] == [];
    assert EntryOk(c, {key}, e, 0, ZERO);
    assert ScanAll(c, {key}, [e]) == ScanEntry(c, {key}, START, e);
  }

  /**
    The brace is needed. Bare numbers parse as JSON too, and with them two logs are
    accepted under one key with one head, differ in event and payload, and hash the
    very same bytes: no collision is involved.
  */
  lemma UnseparatedSplitIsAmbiguous(c: Crypto, key: string) returns (a: seq<Entry>, b: seq<Entry>)
    requires forall m :: IsDigest(c.sha(m))
    requires forall k, m :: c.verify(k, m, c.sign(k, m))
    requires c.parse("11").Some? && c.parse("1").Some?
    ensures Verifies(c, {key}, key, a) && Verifies(c, {key}, key, b) && HeadHash(a) == HeadHash(b)
    ensures !SameLog(a, b) && !Collide(c, a, b)
  {
    assert |"a"| == 1 && |"a1"| == 2 && |ROTATED| == 17 && |COMPLETED| == 28;
    a, b := Single(c, key, "a", "11"), Single(c, key, "a1", "1");
    SplitIsAmbiguous(0, ZERO);
    SingleVerifies(c, key, "a", "11");
    SingleVerifies(c, key, "a1", "1");
  }

  // ------------------------------------------------ the Broker's own entries

  lemma {:induction false} AppendSeparable(c: Crypto, chain: seq<Entry>, key: string, events: seq<Event>)
    requires Sound(c) && AllSeparable(chain) && forall i :: 0 <= i < |events| ==> NoBrace(events[i].name)
    ensures AllSeparable(AppendAll(c, chain, key, events))
    decreases |events|
  {
    if events != [] {
      AppendSeparable(c, chain + [NewEntry(c, chain, key, events[0].name, events[0].payload)], key, events[1..]);
    }
  }

  lemma TransactSeparable(k: Codec, key: string, db: Database, step: Step)
    requires Sound(k.crypto) && Consistent(db.tables) && AllCorrelated(k, db.tables, db.chain) && AllSeparable(db.chain)
    requires Transact(k, key, db, step).Some?
    ensures AllSeparable(Transact(k, key, db, step).value.chain)
  {
    ConsistentIsClean(k, db, step);
    EventsFit(k, db.tables, step);
    var events := Events(k, db.tables, step);
    assert forall i :: 0 <= i < |events| ==> Fit(k, Next(db.tables, step), events[i]);
    AppendSeparable(k.crypto, db.chain, key, events);
  }

  lemma RotateSeparable(c: Crypto, chain: seq<Entry>, oldKey: string, newKey: string)
    requires Sound(c) && AllSeparable(chain)
    ensures AllSeparable(Rotate(c, chain, oldKey, newKey))
  {
    assert NoBrace(ROTATED) && NoBrace(COMPLETED);
  }

  lemma OwnSeparable(k: Codec, b: Broker, a: Action)
    requires Sound(k.crypto) && Sane(k, b) && AllSeparable(b.db.chain) && !a.Foreign?
    ensures AllSeparable(Act(k, b, a).db.chain)
  {
    match a
    case Own(step, _) =>
      if Transact(k, b.current, b.db, step).Some? { TransactSeparable(k, b.current, b.db, step); }
    case RotateKey(newKey, _) => RotateSeparable(k.crypto, b.db.chain, b.current, newKey);
    case _ =>
  }

  /** Everything a Broker logs by itself is separable, so its own logs are tamper evident. */
  lemma {:induction false} OwnLogSeparable(k: Codec, key: string, actions: seq<Action>)
    requires Sound(k.crypto) && OwnOnly(actions)
    ensures AllSeparable(ActAll(k, Opened(key), actions).db.chain)
  {
    if actions != [] {
      var last := |actions| - 1;
      OwnLogSeparable(k, key, actions[..last]);
      OpenedIsSane(k, key);
      SaneRun(k, Opened(key), actions[..last]);
      OwnSeparable(k, ActAll(k, Opened(key), actions[..last]), actions[last]);
    }
  }
}
