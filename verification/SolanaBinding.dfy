/** The blockhash-independent identity of a Solana message. */
module SolanaBinding {
  import opened Wrappers

  type Byte = b: int | 0 <= b < 256

  const MAX_MESSAGE := 1232
  const HASH_BYTES := 32
  const BINDING_DOMAIN := "bloom.solana.blockhash-independent.v1\0"

  /** The high bit of a byte, and the seven bits below it. */
  predicate HighBit(b: Byte) { b >= 128 }

  function LowBits(b: Byte): nat { b % 128 }

  /** Where the account count starts: after the header, and the version byte of a v0 message. */
  function CountAt(bytes: seq<Byte>): Option<nat>
  {
    if bytes == [] || |bytes| > MAX_MESSAGE then None
    else if HighBit(bytes[0]) then (if bytes[0] == 128 then Some(4) else None)
    else Some(3)
  }

  /** The compact length at `at`: the count and the bytes it took. */
  function Count(bytes: seq<Byte>, at: nat): Option<(nat, nat)>
  {
    if at >= |bytes| then None
    else if !HighBit(bytes[at]) then Some((bytes[at], 1))
    else if at + 1 >= |bytes| || bytes[at + 1] == 0 || HighBit(bytes[at + 1]) then None
    else Some((LowBits(bytes[at]) + 128 * (bytes[at + 1] as int), 2))
  }

  /** The offset of the recent blockhash of an accepted message. */
  function Offset(bytes: seq<Byte>): (r: Option<nat>)
    ensures r.Some? ==> r.value + HASH_BYTES <= |bytes| <= MAX_MESSAGE
  {
    match CountAt(bytes)
    case None => None
    case Some(at) =>
      match Count(bytes, at)
      case None => None
      case Some((accounts, width)) =>
        if accounts == 0 || accounts > 256 then None
        else
          var start := at + width + accounts * 32;
          if start + HASH_BYTES > |bytes| then None else Some(start)
  }

  /** The message with its blockhash blanked. */
  function Normalize(bytes: seq<Byte>): (n: seq<Byte>)
    requires Offset(bytes).Some?
    ensures |n| == |bytes|
  {
    var s := Offset(bytes).value;
    bytes[..s] + Repeat<Byte>(0, HASH_BYTES) + bytes[s + HASH_BYTES..]
  }

  /** Same length, same blockhash offset, same bytes outside the blockhash. */
  predicate SameOutside(a: seq<Byte>, b: seq<Byte>)
    requires Offset(a).Some? && Offset(b).Some?
  {
    && |a| == |b|
    && Offset(a) == Offset(b)
    && forall i :: 0 <= i < |a| && !(Offset(a).value <= i < Offset(a).value + HASH_BYTES) ==> a[i] == b[i]
  }

  /** The parse reads only bytes before the blockhash it finds. */
  lemma OffsetReadsPrefix(a: seq<Byte>, b: seq<Byte>)
    requires Offset(a).Some? && |a| == |b|
    requires forall i :: 0 <= i < Offset(a).value ==> a[i] == b[i]
    ensures Offset(b) == Offset(a)
  {
    var at := CountAt(a).value;
    var (accounts, width) := Count(a, at).value;
    assert Offset(a).value >= at + width + 32;
    assert a[0] == b[0] && a[at] == b[at];
  }

  lemma NormalizedBytes(bytes: seq<Byte>, i: nat)
    requires Offset(bytes).Some? && i < |bytes|
    ensures Normalize(bytes)[i]
         == if Offset(bytes).value <= i < Offset(bytes).value + HASH_BYTES then 0 else bytes[i]
  {
  }

  /** Blanking never moves the parsed offset, and blanking twice is blanking once. */
  lemma NormalizeStable(bytes: seq<Byte>)
    requires Offset(bytes).Some?
    ensures Offset(Normalize(bytes)) == Offset(bytes)
    ensures Normalize(Normalize(bytes)) == Normalize(bytes)
  {
    OffsetReadsPrefix(bytes, Normalize(bytes));
    forall i | 0 <= i < |bytes| ensures Normalize(Normalize(bytes))[i] == Normalize(bytes)[i] {
      NormalizedBytes(bytes, i);
      NormalizedBytes(Normalize(bytes), i);
    }
  }

  /** Equal normal forms are exactly equal messages up to their blockhash. */
  lemma NormalFormsAgree(a: seq<Byte>, b: seq<Byte>)
    requires Offset(a).Some? && Offset(b).Some?
    ensures Normalize(a) == Normalize(b) <==> SameOutside(a, b)
  {
    if Normalize(a) == Normalize(b) {
      NormalizeStable(a);
      NormalizeStable(b);
      forall i | 0 <= i < |a| && !(Offset(a).value <= i < Offset(a).value + HASH_BYTES) ensures a[i] == b[i] {
        NormalizedBytes(a, i);
        NormalizedBytes(b, i);
      }
    }
    if SameOutside(a, b) {
      forall i | 0 <= i < |a| ensures Normalize(a)[i] == Normalize(b)[i] {
        NormalizedBytes(a, i);
        NormalizedBytes(b, i);
      }
    }
  }

  function Text(bytes: seq<Byte>): string
  {
    seq(|bytes|, i requires 0 <= i < |bytes| => bytes[i] as char)
  }

  function Binding(hash: string -> string, bytes: seq<Byte>): string
    requires Offset(bytes).Some?
  {
    hash(BINDING_DOMAIN + Text(Normalize(bytes)))
  }

  lemma TextInjective(a: seq<Byte>, b: seq<Byte>)
    requires BINDING_DOMAIN + Text(a) == BINDING_DOMAIN + Text(b)
    ensures a == b
  {
    var n := |BINDING_DOMAIN|;
    assert (BINDING_DOMAIN + Text(a))[n..] == Text(a) && (BINDING_DOMAIN + Text(b))[n..] == Text(b);
    forall i | 0 <= i < |a| ensures i < |b| && a[i] == b[i] {
      assert Text(a)[i] == a[i] as char && Text(b)[i] == b[i] as char;
    }
  }

  /** Two accepted messages bind alike exactly when they differ in nothing but their blockhash, or the hash collides. */
  lemma BindingsAgree(hash: string -> string, a: seq<Byte>, b: seq<Byte>)
    requires Offset(a).Some? && Offset(b).Some?
    ensures SameOutside(a, b) ==> Binding(hash, a) == Binding(hash, b)
    ensures Binding(hash, a) == Binding(hash, b) && !SameOutside(a, b) ==>
      BINDING_DOMAIN + Text(Normalize(a)) != BINDING_DOMAIN + Text(Normalize(b))
  {
    NormalFormsAgree(a, b);
    if BINDING_DOMAIN + Text(Normalize(a)) == BINDING_DOMAIN + Text(Normalize(b)) {
      TextInjective(Normalize(a), Normalize(b));
    }
  }

  // ------------------------------------------------------------ count encoding

  /** The one accepted encoding of a count. */
  function Encode(n: nat): seq<Byte>
    requires n <= 256
  {
    if n < 128 then [n] else [128 + n % 128, n / 128]
  }

  /** A count of at most 256 is read exactly from its one encoding. */
  lemma OneEncodingPerCount(bytes: seq<Byte>, at: nat, n: nat, width: nat)
    requires n <= 256
    ensures Count(bytes, at) == Some((n, width)) <==>
      width == |Encode(n)| && at + width <= |bytes| && bytes[at..at + width] == Encode(n)
  {
    if at + width <= |bytes| && width == |Encode(n)| {
      assert width == 1 ==> bytes[at..at + width] == [bytes[at]];
      assert width == 2 ==> bytes[at..at + width] == [bytes[at], bytes[at + 1]];
    }
  }

  // ------------------------------------------------------------ message layout

  /** A message: an optional version byte, a header, the account keys behind their count, the blockhash, and the rest. */
  datatype Layout = Layout(
    version: seq<Byte>, header: seq<Byte>, accounts: nat, keys: seq<Byte>, blockhash: seq<Byte>, rest: seq<Byte>)

  /** Only version 0 has a version byte, and without one the header's high bit is clear. */
  predicate Proper(m: Layout)
  {
    && |m.header| == 3 && (m.version == [128] || (m.version == [] && m.header[0] < 128))
    && 1 <= m.accounts <= 256 && |m.keys| == 32 * m.accounts && |m.blockhash| == 32
  }

  function Lead(m: Layout): seq<Byte>
    requires m.accounts <= 256
  {
    m.version + m.header + Encode(m.accounts) + m.keys
  }

  function Message(m: Layout): seq<Byte>
    requires m.accounts <= 256
  {
    Lead(m) + m.blockhash + m.rest
  }

  /** Every message laid out like this, and within the size limit, is accepted and its blockhash found. */
  lemma LaidOutIsAccepted(m: Layout)
    requires Proper(m) && |Message(m)| <= 1232
    ensures Offset(Message(m)) == Some(|Lead(m)|)
  {
    var bytes, at, code := Message(m), |m.version| + 3, Encode(m.accounts);
    assert bytes == (m.version + m.header) + (code + (m.keys + m.blockhash + m.rest));
    assert bytes[at..at + |code|] == code;
    assert bytes[0] == (m.version + m.header)[0];
    OneEncodingPerCount(bytes, at, m.accounts, |code|);
  }

  lemma Slices(bytes: seq<Byte>, i: nat, j: nat)
    requires i <= j <= |bytes|
    ensures bytes[..i] + bytes[i..j] == bytes[..j]
    ensures bytes[..|bytes|] == bytes
  {
  }

  /** Every accepted message is laid out like this around the blockhash found. */
  lemma AcceptedIsLaidOut(bytes: seq<Byte>) returns (m: Layout)
    requires Offset(bytes).Some?
    ensures Proper(m) && Message(m) == bytes && |bytes| <= 1232 && Offset(bytes) == Some(|Lead(m)|)
  {
    var at, start := CountAt(bytes).value, Offset(bytes).value;
    var (accounts, width) := Count(bytes, at).value;
    OneEncodingPerCount(bytes, at, accounts, width);
    m := Layout(bytes[..at - 3], bytes[at - 3..at], accounts, bytes[at + width..start], bytes[start..start + 32], bytes[start + 32..]);
    Slices(bytes, at - 3, at);
    Slices(bytes, at, at + width);
    Slices(bytes, at + width, start);
    Slices(bytes, start, start + 32);
    Slices(bytes, start + 32, |bytes|);
  }

  // ---------------------------------------------------------------- the code

  /** `solana_message_binding` up to the final hash: parse, copy, blank in place. */
  method NormalizedMessage(bytes: seq<Byte>) returns (r: Result<seq<Byte>>)
    ensures r.Ok? <==> Offset(bytes).Some?
    ensures r.Ok? ==> r.value == Normalize(bytes)
  {
    if bytes == [] || |bytes| > MAX_MESSAGE {
      return Err(ClaimRefused);
    }
    var prefix := 0;
    if HighBit(bytes[0]) {
      if bytes[0] != 128 {
        return Err(ClaimRefused);
      }
      prefix := 1;
    }
    var cursor := prefix + 3;
    if cursor >= |bytes| {
      return Err(ClaimRefused);
    }
    var first := bytes[cursor];
    cursor := cursor + 1;
    var accounts: int := first;
    if HighBit(first) {
      if cursor >= |bytes| {
        return Err(ClaimRefused);
      }
      var second := bytes[cursor];
      cursor := cursor + 1;
      if second == 0 || HighBit(second) {
        return Err(ClaimRefused);
      }
      accounts := LowBits(first) + 128 * (second as int);
    }
    if accounts == 0 || accounts > 256 {
      return Err(ClaimRefused);
    }
    var start := cursor + accounts * 32;
    if start + HASH_BYTES > |bytes| {
      return Err(ClaimRefused);
    }
    var normalized := new Byte[|bytes|](i requires 0 <= i < |bytes| => bytes[i]);
    for i := 0 to HASH_BYTES
      invariant forall j :: 0 <= j < |bytes| ==> normalized[j] == if start <= j < start + i then 0 else bytes[j]
    {
      normalized[start + i] := 0;
    }
    assert Offset(bytes) == Some(start);
    assert normalized[..] == Normalize(bytes);
    return Ok(normalized[..]);
  }
}
