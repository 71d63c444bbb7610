/**
  Foreign calls that meet everything the audit theorems assume of them: a payload
  text that parses back, signatures that verify what they signed and digests of
  the right shape. The assumptions are therefore consistent.
*/
module CryptoSample {
  import opened Wrappers
  import opened AuditChain

  // ------------------------------------------------------- lists of strings

  function Unary(n: nat): (s: string)
    ensures |s| == n + 1
  {
    if n == 0 then "0" else "1" + Unary(n - 1)
  }

  function TakeUnary(s: string): (r: Option<(nat, string)>)
    ensures r.Some? ==> |r.value.1| < |s|
  {
    if s == "" then None
    else if s[0] == '0' then Some((0, s[1..]))
    else
      match TakeUnary(s[1..])
      case None => None
      case Some((n, rest)) => Some((n + 1, rest))
  }

  lemma {:induction false} UnaryBack(n: nat, rest: string)
    ensures TakeUnary(Unary(n) + rest) == Some((n, rest))
  {
    var s := Unary(n) + rest;
    if n == 0 {
      assert s[1..] == rest;
    } else {
      assert s[1..] == Unary(n - 1) + rest;
      UnaryBack(n - 1, rest);
    }
  }

  /** Each string behind its length. */
  function Pack(ss: seq<string>): string
  {
    if ss == [] then "" else Unary(|ss[0]|) + (ss[0] + Pack(ss[1..]))
  }

  function Unpack(s: string): Option<seq<string>>
    decreases |s|
  {
    if s == "" then Some([])
    else
      match TakeUnary(s)
      case None => None
      case Some((n, rest)) =>
        if n > |rest| then None
        else
          match Unpack(rest[n..])
          case None => None
          case Some(more) => Some([rest[..n]] + more)
  }

  lemma {:induction false} PackBack(ss: seq<string>)
    ensures Unpack(Pack(ss)) == Some(ss)
  {
    if ss != [] {
      var rest := ss[0] + Pack(ss[1..]);
      UnaryBack(|ss[0]|, rest);
      PackBack(ss[1..]);
      assert rest[..|ss[0]|] == ss[0] && rest[|ss[0]|..] == Pack(ss[1..]);
      assert [ss[0]] + ss[1..] == ss;
    }
  }

  // ----------------------------------------------------------------- payloads

  function Packed(o: Option<string>): string
  {
    match o case None => "n" case Some(s) => "s" + s
  }

  function Unpacked(s: string): Option<string>
  {
    if s == "" || s[0] != 's' then None else Some(s[1..])
  }

  lemma OptionBack(o: Option<string>)
    ensures Unpacked(Packed(o)) == o
  {
    if o.Some? {
      assert ("s" + o.value)[1..] == o.value;
    }
  }

  function PackChild(c: ChildDigest): string
  {
    Pack([Unary(c.ordinal), c.operation, c.digest, c.result, c.signerReceipt, c.brokerReceipt])
  }

  function UnpackChild(s: string): Option<ChildDigest>
  {
    match Unpack(s)
    case None => None
    case Some(f) =>
      if |f| != 6 || TakeUnary(f[0]).None? then None
      else Some(ChildDigest(TakeUnary(f[0]).value.0, f[1], f[2], f[3], f[4], f[5]))
  }

  lemma ChildBack(c: ChildDigest)
    ensures UnpackChild(PackChild(c)) == Some(c)
  {
    PackBack([Unary(c.ordinal), c.operation, c.digest, c.result, c.signerReceipt, c.brokerReceipt]);
    UnaryBack(c.ordinal, "");
    assert Unary(c.ordinal) + "" == Unary(c.ordinal);
  }

  function PackChildren(list: seq<ChildDigest>): seq<string>
  {
    if list == [] then [] else [PackChild(list[0])] + PackChildren(list[1..])
  }

  function UnpackChildren(ss: seq<string>): Option<seq<ChildDigest>>
  {
    if ss == [] then Some([])
    else
      match (UnpackChild(ss[0]), UnpackChildren(ss[1..]))
      case (Some(c), Some(more)) => Some([c] + more)
      case _ => None
  }

  lemma {:induction false} ChildrenBack(list: seq<ChildDigest>)
    ensures UnpackChildren(PackChildren(list)) == Some(list)
  {
    if list != [] {
      ChildBack(list[0]);
      ChildrenBack(list[1..]);
      assert PackChildren(list)[1..] == PackChildren(list[1..]);
      assert [list[0]] + list[1..] == list;
    }
  }

  function ListText(list: Option<seq<ChildDigest>>): string
  {
    Packed(if list.None? then None else Some(Pack(PackChildren(list.value))))
  }

  function ListOf(s: string): Option<Option<seq<ChildDigest>>>
  {
    match Unpacked(s)
    case None => Some(None)
    case Some(text) =>
      match Unpack(text)
      case None => None
      case Some(ss) =>
        match UnpackChildren(ss)
        case None => None
        case Some(list) => Some(Some(list))
  }

  lemma ListBack(list: Option<seq<ChildDigest>>)
    ensures ListOf(ListText(list)) == Some(list)
  {
    if list.None? {
      OptionBack(None);
    } else {
      OptionBack(Some(Pack(PackChildren(list.value))));
      PackBack(PackChildren(list.value));
      ChildrenBack(list.value);
    }
  }

  function MemberFields(m: ResultMembers): seq<string>
  {
    [Packed(m.operationId), Packed(m.operationDigest), Packed(m.resultDigest), Packed(m.signerReceiptDigest),
     Packed(m.brokerReceiptDigest)]
  }

  function MembersFrom(f: seq<string>): ResultMembers
    requires |f| == 5
  {
    ResultMembers(Unpacked(f[0]), Unpacked(f[1]), Unpacked(f[2]), Unpacked(f[3]), Unpacked(f[4]))
  }

  lemma MembersBack(m: ResultMembers)
    ensures MembersFrom(MemberFields(m)) == m
  {
    OptionBack(m.operationId);
    OptionBack(m.operationDigest);
    OptionBack(m.resultDigest);
    OptionBack(m.signerReceiptDigest);
    OptionBack(m.brokerReceiptDigest);
  }

  function OtherFields(p: Payload): seq<string>
  {
    [if p.schemaV1 then "1" else "0", Packed(p.to), Packed(p.approvalId), Packed(p.validationReceiptDigest),
     Packed(p.activationReceiptDigest), Packed(p.oldKeyId), Packed(p.newKeyId), Packed(p.priorHead),
     Packed(p.newKeyConfirmation), Packed(p.finalOldHead), ListText(p.children), p.rest]
  }

  function PayloadFrom(f: seq<string>, own: ResultMembers, parent: ResultMembers): Option<Payload>
    requires |f| == 12
  {
    match ListOf(f[10])
    case None => None
    case Some(children) =>
      Some(Payload(f[0] == "1", Unpacked(f[1]), Unpacked(f[2]), own, parent, Unpacked(f[3]), children, Unpacked(f[4]),
                   Unpacked(f[5]), Unpacked(f[6]), Unpacked(f[7]), Unpacked(f[8]), Unpacked(f[9]), f[11]))
  }

  lemma PayloadBack(p: Payload)
    ensures PayloadFrom(OtherFields(p), p.own, p.parent) == Some(p)
  {
    ListBack(p.children);
    OptionBack(p.to);
    OptionBack(p.approvalId);
    OptionBack(p.validationReceiptDigest);
    OptionBack(p.activationReceiptDigest);
    OptionBack(p.oldKeyId);
    OptionBack(p.newKeyId);
    OptionBack(p.priorHead);
    OptionBack(p.newKeyConfirmation);
    OptionBack(p.finalOldHead);
    assert |"1"| == |"0"| == 1 && "1"[0] != "0"[0];
  }

  function Text(p: Payload): string
  {
    "{" + Pack(OtherFields(p) + MemberFields(p.own) + MemberFields(p.parent))
  }

  function Parse(s: string): Option<Payload>
  {
    if s == "" || s[0] != '{' then None
    else
      match Unpack(s[1..])
      case None => None
      case Some(f) => if |f| != 22 then None else PayloadFrom(f[..12], MembersFrom(f[12..17]), MembersFrom(f[17..]))
  }

  lemma TextBack(p: Payload)
    ensures Parse(Text(p)) == Some(p)
  {
    var a, b, c := OtherFields(p), MemberFields(p.own), MemberFields(p.parent);
    var f := a + b + c;
    PackBack(f);
    assert Text(p)[1..] == Pack(f);
    assert f[..12] == a && f[12..17] == b && f[17..] == c;
    PayloadBack(p);
    MembersBack(p.own);
    MembersBack(p.parent);
  }

  // --------------------------------------------------------------- the sample

  function Digest(m: string): string
  {
    Repeat(if |m| % 2 == 0 then '0' else '1', 64)
  }

  function Sample(): Crypto
  {
    Crypto(m => Digest(m), (k, m) => k + m, (k, m, s) => s == k + m, p => Text(p), s => Parse(s))
  }

  /** What the audit theorems assume of the foreign calls can be met, with digests that tell some texts apart. */
  lemma SampleIsSound()
    ensures Sound(Sample()) && Sample().sha("") != Sample().sha("x")
  {
    forall p ensures Parse(Text(p)) == Some(p) {
      TextBack(p);
    }
    assert |""| == 0 && |"x"| == 1;
    assert Digest("")[0] == '0' && Digest("x")[0] == '1';
  }
}
