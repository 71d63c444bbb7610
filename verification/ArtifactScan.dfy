/** The streaming secret scan of the debug driver equals a search of the whole file. */
module ArtifactScan {

  type Bytes = seq<bv8>

  predicate OccursAt(hay: Bytes, needle: Bytes, i: nat)
  {
    i + |needle| <= |hay| && hay[i..i + |needle|] == needle
  }

  /** `memmem::find` succeeds; the empty needle is found everywhere. */
  predicate Occurs(hay: Bytes, needle: Bytes)
  {
    exists i: nat :: i <= |hay| && OccursAt(hay, needle, i)
  }

  predicate AnyOccurs(hay: Bytes, needles: seq<Bytes>)
  {
    exists j :: 0 <= j < |needles| && Occurs(hay, needles[j])
  }

  function Flatten(chunks: seq<Bytes>): Bytes
  {
    if chunks == [] then [] else Flatten(chunks[..|chunks| - 1]) + chunks[|chunks| - 1]
  }

  function LongestNeedle(needles: seq<Bytes>): (n: nat)
    ensures forall i :: 0 <= i < |needles| ==> |needles[i]| <= n
  {
    if needles == [] then 0
    else
      var rest := LongestNeedle(needles[..|needles| - 1]);
      if |needles[|needles| - 1]| > rest then |needles[|needles| - 1]| else rest
  }

  datatype Scan = Clean(length: nat) | Found | Changed

  lemma OccursInLarger(hay: Bytes, from: nat, to: nat, needle: Bytes)
    requires from <= to <= |hay| && Occurs(hay[from..to], needle)
    ensures Occurs(hay, needle)
  {
    var i: nat :| i <= to - from && OccursAt(hay[from..to], needle, i);
    var n := |needle|;
    forall j | 0 <= j < n ensures hay[from + i..from + i + n][j] == needle[j] {
      assert hay[from..to][i..i + n][j] == hay[from + i + j];
    }
    assert OccursAt(hay, needle, from + i);
  }

  /** A new occurrence ends in the new chunk, so it starts within a needle's length of it. */
  lemma NewOccurrenceIsVisible(seen: Bytes, chunk: Bytes, kept: nat, needle: Bytes)
    requires kept <= |seen| && (kept == |seen| || |needle| <= kept + 1)
    requires !Occurs(seen, needle) && Occurs(seen + chunk, needle)
    ensures Occurs(seen[|seen| - kept..] + chunk, needle)
  {
    var all := seen + chunk;
    var i: nat :| i <= |all| && OccursAt(all, needle, i);
    if i + |needle| <= |seen| {
      assert seen[i..i + |needle|] == all[i..i + |needle|];
      assert OccursAt(seen, needle, i);
      assert false;
    }
    var cut := |seen| - kept;
    var window := seen[cut..] + chunk;
    assert window == all[cut..];
    assert window[i - cut..i - cut + |needle|] == all[i..i + |needle|];
    assert OccursAt(window, needle, i - cut);
  }

  lemma FlattenMore(chunks: seq<Bytes>, i: nat)
    requires i < |chunks|
    ensures Flatten(chunks[..i + 1]) == Flatten(chunks[..i]) + chunks[i]
  {
    assert chunks[..i + 1][..i] == chunks[..i];
  }

  lemma {:induction false} FlattenPrefix(chunks: seq<Bytes>, n: nat)
    requires n <= |chunks|
    ensures Flatten(chunks[..n]) <= Flatten(chunks)
  {
    if n == |chunks| {
      assert chunks[..n] == chunks;
    } else {
      FlattenPrefix(chunks[..|chunks| - 1], n);
      assert chunks[..|chunks| - 1][..n] == chunks[..n];
    }
  }

  lemma AnyOccursInLarger(hay: Bytes, from: nat, to: nat, needles: seq<Bytes>)
    requires from <= to <= |hay| && AnyOccurs(hay[from..to], needles)
    ensures AnyOccurs(hay, needles)
  {
    var j :| 0 <= j < |needles| && Occurs(hay[from..to], needles[j]);
    OccursInLarger(hay, from, to, needles[j]);
  }

  /** What the kept window misses was already known before the chunk. */
  lemma WindowSuffices(seen: Bytes, chunk: Bytes, kept: nat, needles: seq<Bytes>)
    requires kept <= |seen| && (kept == |seen| || LongestNeedle(needles) <= kept + 1)
    requires seen == [] || !AnyOccurs(seen, needles)
    ensures AnyOccurs(seen[|seen| - kept..] + chunk, needles) <==> AnyOccurs(seen + chunk, needles)
  {
    var window, all := seen[|seen| - kept..] + chunk, seen + chunk;
    assert window == all[|seen| - kept..|all|];
    if AnyOccurs(window, needles) {
      AnyOccursInLarger(all, |seen| - kept, |all|, needles);
    }
    if AnyOccurs(all, needles) {
      var j :| 0 <= j < |needles| && Occurs(all, needles[j]);
      if seen == [] {
        assert window == all;
      } else {
        assert !Occurs(seen, needles[j]);
        NewOccurrenceIsVisible(seen, chunk, kept, needles[j]);
      }
    }
  }

  method FindAny(hay: Bytes, needles: seq<Bytes>) returns (found: bool)
    ensures found <==> AnyOccurs(hay, needles)
  {
    for j := 0 to |needles|
      invariant forall k :: 0 <= k < j ==> !Occurs(hay, needles[k])
    {
      if Occurs(hay, needles[j]) {
        return true;
      }
    }
    return false;
  }

  /** At most `n` bytes, the last ones. */
  function LastBytes(s: Bytes, n: nat): Bytes
  {
    if |s| > n then s[|s| - n..] else s
  }

  lemma LastBytesMore(seen: Bytes, chunk: Bytes, n: nat)
    ensures LastBytes(LastBytes(seen, n) + chunk, n) == LastBytes(seen + chunk, n)
  {
  }

  /** The bytes kept between two reads suffice to see whatever the next read completes. */
  lemma OverlapSuffices(seen: Bytes, chunk: Bytes, overlap: nat, needles: seq<Bytes>)
    requires LongestNeedle(needles) <= overlap + 1
    requires seen == [] || !AnyOccurs(seen, needles)
    ensures AnyOccurs(LastBytes(seen, overlap) + chunk, needles) <==> AnyOccurs(seen + chunk, needles)
  {
    var kept := if |seen| > overlap then overlap else |seen|;
    assert LastBytes(seen, overlap) == seen[|seen| - kept..];
    WindowSuffices(seen, chunk, kept, needles);
  }

  lemma FoundEarly(chunks: seq<Bytes>, n: nat, needles: seq<Bytes>)
    requires n <= |chunks| && AnyOccurs(Flatten(chunks[..n]), needles)
    ensures AnyOccurs(Flatten(chunks), needles)
  {
    var all, whole := Flatten(chunks[..n]), Flatten(chunks);
    FlattenPrefix(chunks, n);
    assert all == whole[0..|all|];
    AnyOccursInLarger(whole, 0, |all|, needles);
  }

  /**
    `scan_file` over the `chunks` its reads deliver. `length` is the size recorded
    when it was opened, `sameFile` the comparison of device, inode, size and times
    before and after. Only one byte less than the longest needle is kept between
    reads, yet a secret is reported exactly when it occurs in the file.
  */
  method ScanFile(chunks: seq<Bytes>, needles: seq<Bytes>, length: nat, sameFile: bool) returns (r: Scan)
    requires forall i :: 0 <= i < |chunks| ==> chunks[i] != []
    ensures r.Found? <==> chunks != [] && AnyOccurs(Flatten(chunks), needles)
    ensures r.Clean? <==> !r.Found? && |Flatten(chunks)| == length && sameFile
    ensures r.Clean? ==> r.length == length
  {
    var longest := LongestNeedle(needles);
    var overlap := if longest == 0 then 0 else longest - 1;
    var offset := 0;
    var retained: Bytes := [];
    for i := 0 to |chunks|
      invariant offset == |Flatten(chunks[..i])| && retained == LastBytes(Flatten(chunks[..i]), overlap)
      invariant i == 0 || !AnyOccurs(Flatten(chunks[..i]), needles)
    {
      ghost var seen := Flatten(chunks[..i]);
      FlattenMore(chunks, i);
      OverlapSuffices(seen, chunks[i], overlap, needles);
      LastBytesMore(seen, chunks[i], overlap);
      retained := retained + chunks[i];
      var found := FindAny(retained, needles);
      if found {
        FoundEarly(chunks, i + 1, needles);
        return Found;
      }
      if |retained| > overlap {
        retained := retained[|retained| - overlap..];
      }
      offset := offset + |chunks[i]|;
    }
    assert chunks[..|chunks|] == chunks;
    if offset != length || !sameFile {
      return Changed;
    }
    return Clean(length);
  }
}
