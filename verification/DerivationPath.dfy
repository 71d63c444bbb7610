/** Derivation paths: one account, one spelling. */
module DerivationPath {
  import opened Wrappers

  const U32_MAX := 0xFFFF_FFFF
  const HARDENED := 0x8000_0000

  datatype Profile = Evm | Solana

  // ------------------------------------------------------------------ numbers

  predicate IsDigit(c: char) { '0' <= c <= '9' }

  predicate AllDigits(s: string) { forall i :: 0 <= i < |s| ==> IsDigit(s[i]) }

  function Digit(d: nat): char
    requires d < 10
  {
    '0' + (d as char)
  }

  /** What `format!("{n}")` prints. */
  function Decimal(n: nat): (s: string)
    ensures s != "" && AllDigits(s)
  {
    if n < 10 then [Digit(n)] else Decimal(n / 10) + [Digit(n % 10)]
  }

  function ValueOf(s: string): nat
    requires AllDigits(s)
  {
    if s == "" then 0 else 10 * ValueOf(s[..|s| - 1]) + (s[|s| - 1] - '0') as nat
  }

  /** `u32::from_str`: an optional plus sign, then digits, in range. */
  function ParseU32(s: string): Option<nat>
  {
    var digits := if s != "" && s[0] == '+' then s[1..] else s;
    if digits != "" && AllDigits(digits) && ValueOf(digits) <= U32_MAX then Some(ValueOf(digits)) else None
  }

  /** `is_canonical_index`. */
  predicate IsCanonicalIndex(s: string)
  {
    && s != "" && AllDigits(s)
    && !(|s| > 1 && s[0] == '0')
    && ParseU32(s).Some?
  }

  lemma {:induction false} DecimalValue(n: nat)
    ensures ValueOf(Decimal(n)) == n
  {
    if n < 10 {
      assert [Digit(n)][..0] == "";
    } else {
      DecimalValue(n / 10);
      assert Decimal(n)[..|Decimal(n)| - 1] == Decimal(n / 10);
    }
  }

  lemma {:induction false} DecimalHasNoLeadingZero(n: nat)
    ensures Decimal(n)[0] == '0' <==> n == 0
    ensures |Decimal(n)| > 1 <==> n >= 10
  {
    if n >= 10 {
      DecimalHasNoLeadingZero(n / 10);
    }
  }

  lemma {:induction false} ValuePositive(s: string)
    requires s != "" && AllDigits(s) && s[0] != '0'
    ensures ValueOf(s) > 0
  {
    if |s| > 1 {
      ValuePositive(s[..|s| - 1]);
    } else {
      assert s[..0] == "";
    }
  }

  /** Printing the value of a canonical numeral gives it back. */
  lemma LastDigit(v: nat, d: nat)
    requires d < 10
    ensures (v * 10 + d) / 10 == v && (v * 10 + d) % 10 == d
  {
  }

  lemma {:induction false} CanonicalRoundTrip(s: string)
    requires s != "" && AllDigits(s) && !(|s| > 1 && s[0] == '0')
    ensures Decimal(ValueOf(s)) == s
  {
    var last := |s| - 1;
    var d := (s[last] - '0') as nat;
    assert Digit(d) == s[last];
    if last == 0 {
      assert s[..0] == "" && s == [s[0]];
    } else {
      ValuePositive(s[..last]);
      CanonicalRoundTrip(s[..last]);
      LastDigit(ValueOf(s[..last]), d);
      assert s == s[..last] + [s[last]];
    }
  }

  /** The canonical index segments are exactly the printed 32-bit numbers. */
  lemma CanonicalIndexes(s: string)
    ensures IsCanonicalIndex(s) ==> ParseU32(s).Some? && s == Decimal(ParseU32(s).value)
    ensures forall n: nat :: n <= U32_MAX && s == Decimal(n) ==> IsCanonicalIndex(s) && ParseU32(s) == Some(n)
  {
    if IsCanonicalIndex(s) {
      CanonicalRoundTrip(s);
    }
    forall n: nat | n <= U32_MAX && s == Decimal(n) ensures IsCanonicalIndex(s) && ParseU32(s) == Some(n) {
      DecimalValue(n);
      DecimalHasNoLeadingZero(n);
    }
  }

  // ----------------------------------------------------------------- segments

  /** Segments hold no slash. */
  predicate SlashFree(s: string) { forall i :: 0 <= i < |s| ==> s[i] != '/' }

  function Join(parts: seq<string>): string
    requires parts != []
  {
    if |parts| == 1 then parts[0] else Join(parts[..|parts| - 1]) + "/" + parts[|parts| - 1]
  }

  /** The last segment grows. */
  function Extend(parts: seq<string>, t: string): (all: seq<string>)
    requires parts != []
    ensures |all| == |parts|
  {
    parts[..|parts| - 1] + [parts[|parts| - 1] + t]
  }

  /** `split('/')`. */
  function Split(s: string): (parts: seq<string>)
    ensures parts != []
  {
    if s == "" then [""]
    else if s[|s| - 1] == '/' then Split(s[..|s| - 1]) + [""]
    else Extend(Split(s[..|s| - 1]), [s[|s| - 1]])
  }

  lemma ExtendTwice(parts: seq<string>, t: string, u: string)
    requires parts != []
    ensures Extend(Extend(parts, t), u) == Extend(parts, t + u)
  {
    var m := |parts| - 1;
    assert Extend(parts, t)[..m] == parts[..m];
    assert parts[m] + t + u == parts[m] + (t + u);
  }

  lemma ExtendByNothing(parts: seq<string>)
    requires parts != []
    ensures Extend(parts, "") == parts
  {
    assert parts[|parts| - 1] + "" == parts[|parts| - 1];
  }

  lemma JoinPush(parts: seq<string>, p: string)
    requires parts != []
    ensures Join(parts + [p]) == Join(parts) + "/" + p
  {
    assert (parts + [p])[..|parts|] == parts;
  }

  lemma JoinExtend(parts: seq<string>, t: string)
    requires parts != []
    ensures Join(Extend(parts, t)) == Join(parts) + t
  {
    var m := |parts| - 1;
    if m > 0 {
      JoinPush(parts[..m], parts[m] + t);
      JoinPush(parts[..m], parts[m]);
      assert parts[..m] + [parts[m]] == parts;
    }
  }

  lemma {:induction false} SplitThenJoin(s: string)
    ensures Join(Split(s)) == s
  {
    if s != "" {
      var n := |s| - 1;
      SplitThenJoin(s[..n]);
      assert s == s[..n] + [s[n]];
      if s[n] == '/' {
        JoinPush(Split(s[..n]), "");
      } else {
        JoinExtend(Split(s[..n]), [s[n]]);
      }
    }
  }

  lemma {:induction false} SplitAppend(s: string, t: string)
    requires SlashFree(t)
    ensures Split(s + t) == Extend(Split(s), t)
  {
    if t == "" {
      assert s + t == s;
      ExtendByNothing(Split(s));
    } else {
      var n := |t| - 1;
      SplitAppend(s, t[..n]);
      assert (s + t)[..|s + t| - 1] == s + t[..n];
      assert t == t[..n] + [t[n]];
      ExtendTwice(Split(s), t[..n], [t[n]]);
    }
  }

  lemma SplitAfterSlash(s: string, t: string)
    requires SlashFree(t)
    ensures Split(s + "/" + t) == Split(s) + [t]
  {
    assert (s + "/")[..|s|] == s;
    SplitAppend(s + "/", t);
    var front := Split(s);
    assert Split(s + "/") == front + [""];
    assert (front + [""])[..|front|] == front && "" + t == t;
  }

  lemma SplitSingle(p: string)
    requires SlashFree(p)
    ensures Separates([p])
  {
    SplitAppend("", p);
    assert "" + p == p;
    assert Extend([""], p) == [p];
  }

  lemma SplitPushed(parts: seq<string>, p: string)
    requires Separates(parts) && SlashFree(p)
    ensures Separates(parts + [p])
  {
    JoinPush(parts, p);
    SplitAfterSlash(Join(parts), p);
  }

  /** What is joined comes apart into the same segments. */
  predicate Separates(parts: seq<string>)
  {
    parts != [] && Split(Join(parts)) == parts
  }

  lemma {:induction false} JoinThenSplit(parts: seq<string>)
    requires parts != [] && forall i :: 0 <= i < |parts| ==> SlashFree(parts[i])
    ensures Separates(parts)
  {
    var front, p := parts[..|parts| - 1], parts[|parts| - 1];
    if front == [] {
      SplitSingle(p);
      assert parts == [p];
    } else {
      JoinThenSplit(front);
      SplitPushed(front, p);
      assert parts == front + [p];
    }
  }

  // ---------------------------------------------------------------- templates

  function Template(p: Profile): seq<string>
  {
    match p
    case Evm => ["m", "44'", "60'", "<account>'", "0", "<index>"]
    case Solana => ["m", "44'", "501'", "<account>'", "0'"]
  }

  const ACCOUNT := "<account>'"
  const INDEX := "<index>"

  /** `is_canonical_hardened_index`. */
  predicate IsHardenedIndex(s: string)
  {
    && s != "" && s[|s| - 1] == '\''
    && IsCanonicalIndex(s[..|s| - 1])
    && ParseU32(s[..|s| - 1]).value < HARDENED
  }

  predicate SegmentMatches(expected: string, actual: string, account: Option<nat>)
  {
    if expected == ACCOUNT then
      match account
      case Some(a) => actual == Decimal(a) + "'"
      case None => IsHardenedIndex(actual)
    else if expected == INDEX then IsCanonicalIndex(actual)
    else actual == expected
  }

  function EffectiveAccount(p: Profile, committed: Option<nat>): Option<nat>
  {
    if committed.Some? then committed else if p == Evm then Some(0) else None
  }

  predicate SegmentsMatch(expected: seq<string>, actual: seq<string>, account: Option<nat>)
  {
    |actual| == |expected| && forall i :: 0 <= i < |expected| ==> SegmentMatches(expected[i], actual[i], account)
  }

  /** `path_matches_committed_account`. */
  method PathMatches(p: Profile, path: string, committed: Option<nat>) returns (ok: bool)
    ensures ok <==> SegmentsMatch(Template(p), Split(path), EffectiveAccount(p, committed))
  {
    var account := EffectiveAccount(p, committed);
    var expected, segments := Template(p), Split(path);
    if |segments| != |expected| {
      return false;
    }
    for i := 0 to |segments|
      invariant forall j :: 0 <= j < i ==> SegmentMatches(expected[j], segments[j], account)
    {
      if !SegmentMatches(expected[i], segments[i], account) {
        return false;
      }
    }
    return true;
  }

  // ----------------------------------------------------------------- printing

  /** The path of account `a` and, for EVM, address index `i`. */
  function PrintSegments(p: Profile, a: nat, i: nat): seq<string>
  {
    match p
    case Evm => ["m", "44'", "60'", Decimal(a) + "'", "0", Decimal(i)]
    case Solana => ["m", "44'", "501'", Decimal(a) + "'", "0'"]
  }

  lemma TemplateTokens()
    ensures ACCOUNT != INDEX
    ensures forall s :: s in ["m", "44'", "60'", "501'", "0", "0'"] ==> s != ACCOUNT && s != INDEX
  {
    assert |ACCOUNT| == 10 && |INDEX| == 7;
  }

  /** A hardened segment is a printed number below 2^31 and a quote. */
  lemma HardenedIndexes(s: string)
    ensures IsHardenedIndex(s) ==> exists n: nat :: n < HARDENED && s == Decimal(n) + "'"
    ensures forall n: nat :: n < HARDENED && s == Decimal(n) + "'" ==> IsHardenedIndex(s)
  {
    if s != "" {
      CanonicalIndexes(s[..|s| - 1]);
      if IsHardenedIndex(s) {
        var n := ParseU32(s[..|s| - 1]).value;
        assert s == s[..|s| - 1] + [s[|s| - 1]];
        assert s == Decimal(n) + "'";
      }
    }
    forall n: nat | n < HARDENED && s == Decimal(n) + "'" ensures IsHardenedIndex(s) {
      assert s[..|s| - 1] == Decimal(n);
    }
  }

  lemma DigitsAreSlashFree(n: nat)
    ensures SlashFree(Decimal(n)) && SlashFree(Decimal(n) + "'")
  {
  }

  lemma PrintedSegmentsAreSlashFree(p: Profile, a: nat, i: nat)
    ensures forall k :: 0 <= k < |PrintSegments(p, a, i)| ==> SlashFree(PrintSegments(p, a, i)[k])
  {
    DigitsAreSlashFree(a);
    DigitsAreSlashFree(i);
  }

  function Print(p: Profile, a: nat, i: nat): string
  {
    Join(PrintSegments(p, a, i))
  }

  /** A path has given segments exactly when it is their join. */
  lemma PathIsItsSegments(path: string, p: Profile, a: nat, i: nat)
    ensures Split(path) == PrintSegments(p, a, i) <==> path == Print(p, a, i)
  {
    PrintedSegmentsAreSlashFree(p, a, i);
    JoinThenSplit(PrintSegments(p, a, i));
    SplitThenJoin(path);
  }

  lemma EvmSegments(segments: seq<string>, a: nat)
    ensures SegmentsMatch(Template(Evm), segments, Some(a)) <==>
      |segments| == 6 && IsCanonicalIndex(segments[5]) && segments[..5] == PrintSegments(Evm, a, 0)[..5]
  {
    TemplateTokens();
    var t := Template(Evm);
    if |segments| == 6 {
      assert SegmentsMatch(t, segments, Some(a)) <==>
        && SegmentMatches(t[0], segments[0], Some(a)) && SegmentMatches(t[1], segments[1], Some(a))
        && SegmentMatches(t[2], segments[2], Some(a)) && SegmentMatches(t[3], segments[3], Some(a))
        && SegmentMatches(t[4], segments[4], Some(a)) && SegmentMatches(t[5], segments[5], Some(a));
    }
  }

  lemma SolanaSegments(segments: seq<string>, account: Option<nat>)
    ensures SegmentsMatch(Template(Solana), segments, account) <==>
      && |segments| == 5 && SegmentMatches(ACCOUNT, segments[3], account)
      && segments[..3] == ["m", "44'", "501'"] && segments[4] == "0'"
  {
    TemplateTokens();
    var t := Template(Solana);
    if |segments| == 5 {
      assert SegmentsMatch(t, segments, account) <==>
        && SegmentMatches(t[0], segments[0], account) && SegmentMatches(t[1], segments[1], account)
        && SegmentMatches(t[2], segments[2], account) && SegmentMatches(t[3], segments[3], account)
        && SegmentMatches(t[4], segments[4], account);
    }
  }

  /** An EVM path matches account `a` exactly when it is the template printed with `a` and a 32-bit index. */
  lemma EvmPathsArePrinted(path: string, a: nat)
    ensures SegmentsMatch(Template(Evm), Split(path), Some(a))
       <==> exists i: nat :: i <= U32_MAX && path == Print(Evm, a, i)
  {
    var segments := Split(path);
    EvmSegments(segments, a);
    if SegmentsMatch(Template(Evm), segments, Some(a)) {
      CanonicalIndexes(segments[5]);
      var i := ParseU32(segments[5]).value;
      assert segments == segments[..5] + [segments[5]];
      assert PrintSegments(Evm, a, i) == PrintSegments(Evm, a, 0)[..5] + [Decimal(i)];
      PathIsItsSegments(path, Evm, a, i);
    }
    if i: nat :| i <= U32_MAX && path == Print(Evm, a, i) {
      PathIsItsSegments(path, Evm, a, i);
      CanonicalIndexes(segments[5]);
      assert PrintSegments(Evm, a, i)[..5] == PrintSegments(Evm, a, 0)[..5];
    }
  }

  lemma SolanaSegmentsPrinted(segments: seq<string>, a: nat)
    ensures segments == PrintSegments(Solana, a, 0) <==>
      |segments| == 5 && segments[3] == Decimal(a) + "'" && segments[..3] == ["m", "44'", "501'"] && segments[4] == "0'"
  {
    if |segments| == 5 {
      assert segments == segments[..3] + [segments[3], segments[4]];
    }
  }

  /** A Solana path matches a pinned account exactly when it is printed with it. */
  lemma SolanaPinnedPath(path: string, a: nat)
    ensures SegmentsMatch(Template(Solana), Split(path), Some(a)) <==> path == Print(Solana, a, 0)
  {
    SolanaSegments(Split(path), Some(a));
    SolanaSegmentsPrinted(Split(path), a);
    PathIsItsSegments(path, Solana, a, 0);
  }

  /** With no pinned account, any account below 2^31 may be printed. */
  lemma SolanaPathsArePrinted(path: string)
    ensures SegmentsMatch(Template(Solana), Split(path), None)
       <==> exists a: nat :: a < HARDENED && path == Print(Solana, a, 0)
  {
    var segments := Split(path);
    SolanaSegments(segments, None);
    if SegmentsMatch(Template(Solana), segments, None) {
      HardenedIndexes(segments[3]);
      var a: nat :| a < HARDENED && segments[3] == Decimal(a) + "'";
      SolanaSegmentsPrinted(segments, a);
      PathIsItsSegments(path, Solana, a, 0);
    }
    if a: nat :| a < HARDENED && path == Print(Solana, a, 0) {
      PathIsItsSegments(path, Solana, a, 0);
      SolanaSegmentsPrinted(segments, a);
      HardenedIndexes(segments[3]);
    }
  }

  // --------------------------------------------------------- number extraction

  const EVM_PREFIX := "m/44'/60'/0'/0/"
  const SOLANA_PREFIX := "m/44'/501'/"
  const SOLANA_SUFFIX := "'/0'"

  predicate HasSuffix(s: string, suffix: string)
  {
    |suffix| <= |s| && s[|s| - |suffix|..] == suffix
  }

  /** `committed_path_number`. */
  function PathNumber(p: Profile, path: string): Option<nat>
  {
    match p
    case Evm => if EVM_PREFIX <= path then ParseU32(path[|EVM_PREFIX|..]) else None
    case Solana =>
      if !(SOLANA_PREFIX <= path) then None
      else
        var rest := path[|SOLANA_PREFIX|..];
        if HasSuffix(rest, SOLANA_SUFFIX) then ParseU32(rest[..|rest| - |SOLANA_SUFFIX|]) else None
  }

  lemma PrintedEvm(i: nat)
    ensures Print(Evm, 0, i) == EVM_PREFIX + Decimal(i)
  {
    var s := PrintSegments(Evm, 0, i);
    assert s[..5][..4] == s[..4] && s[..4][..3] == s[..3] && s[..3][..2] == s[..2] && s[..2][..1] == s[..1];
    assert Decimal(0) == "0";
    assert Join(s[..1]) == "m";
    assert Join(s[..2]) == "m/44'";
    assert Join(s[..3]) == "m/44'/60'";
    assert Join(s[..4]) == "m/44'/60'/0'";
    assert Join(s[..5]) == "m/44'/60'/0'/0";
  }

  lemma PrintedSolana(a: nat)
    ensures Print(Solana, a, 0) == SOLANA_PREFIX + Decimal(a) + SOLANA_SUFFIX
  {
    var s := PrintSegments(Solana, a, 0);
    assert s[..4][..3] == s[..3] && s[..3][..2] == s[..2] && s[..2][..1] == s[..1];
    assert Join(s[..1]) == "m";
    assert Join(s[..2]) == "m/44'";
    assert Join(s[..3]) == "m/44'/501'";
    assert Join(s[..4]) == "m/44'/501'" + "/" + (Decimal(a) + "'");
    assert Join(s) == Join(s[..4]) + "/" + "0'";
  }

  lemma PrintedNumber(p: Profile, n: nat)
    requires n <= U32_MAX
    ensures p == Evm ==> PathNumber(p, Print(Evm, 0, n)) == Some(n)
    ensures p == Solana ==> PathNumber(p, Print(Solana, n, 0)) == Some(n)
  {
    CanonicalIndexes(Decimal(n));
    match p
    case Evm =>
      PrintedEvm(n);
      assert (EVM_PREFIX + Decimal(n))[|EVM_PREFIX|..] == Decimal(n);
    case Solana =>
      PrintedSolana(n);
      var path := SOLANA_PREFIX + Decimal(n) + SOLANA_SUFFIX;
      var rest := path[|SOLANA_PREFIX|..];
      assert rest == Decimal(n) + SOLANA_SUFFIX;
      assert rest[|rest| - |SOLANA_SUFFIX|..] == SOLANA_SUFFIX;
      assert rest[..|rest| - |SOLANA_SUFFIX|] == Decimal(n);
  }

  /** The path printed for number `n` of a profile with no pinned account. */
  function PathOf(p: Profile, n: nat): string
  {
    if p == Evm then Print(Evm, 0, n) else Print(Solana, n, 0)
  }

  predicate NumberInRange(p: Profile, n: nat)
  {
    if p == Evm then n <= U32_MAX else n < HARDENED
  }

  predicate Accepted(p: Profile, path: string)
  {
    SegmentsMatch(Template(p), Split(path), EffectiveAccount(p, None))
  }

  lemma EvmSpelling(path: string, n: nat)
    ensures Accepted(Evm, path) && PathNumber(Evm, path) == Some(n) <==> n <= U32_MAX && path == Print(Evm, 0, n)
  {
    EvmPathsArePrinted(path, 0);
    if Accepted(Evm, path) {
      var i: nat :| i <= U32_MAX && path == Print(Evm, 0, i);
      PrintedNumber(Evm, i);
    }
    if n <= U32_MAX {
      PrintedNumber(Evm, n);
    }
  }

  lemma SolanaSpelling(path: string, n: nat)
    ensures Accepted(Solana, path) && PathNumber(Solana, path) == Some(n) <==> n < HARDENED && path == Print(Solana, n, 0)
  {
    SolanaPathsArePrinted(path);
    if Accepted(Solana, path) {
      var a: nat :| a < HARDENED && path == Print(Solana, a, 0);
      PrintedNumber(Solana, a);
    }
    if n < HARDENED {
      PrintedNumber(Solana, n);
    }
  }

  /**
    Checking and extracting invert printing: with no pinned account a path is
    accepted with number n exactly when n is in range and the path is the
    profile's template printed with the decimal of n. One account, one spelling.
  */
  lemma OneSpellingPerAccount(p: Profile, path: string, n: nat)
    ensures Accepted(p, path) && PathNumber(p, path) == Some(n) <==> NumberInRange(p, n) && path == PathOf(p, n)
  {
    match p
    case Evm => EvmSpelling(path, n);
    case Solana => SolanaSpelling(path, n);
  }
}
