/** stream_find: looks for a pattern in a stream that arrives in chunks. */
module StreamFinder {
  import opened Borders

  class StreamFind {
    const pattern: seq<Byte>
    const lps: array<nat>
    var matchIndex: nat
    var bytesProcessed: nat
    /** All bytes used since the start or the last reset. */
    ghost var seen: seq<Byte>

    ghost predicate Valid()
      reads this, lps
    {
      && Table(pattern, lps[..]) && matchIndex <= |pattern|
      && bytesProcessed == |seen| && Ends(seen, pattern, matchIndex)
      && Feed(pattern, lps[..], 0, seen) == Fed(matchIndex, |seen|)
    }

    constructor (p: seq<Byte>)
      ensures Valid() && pattern == p && seen == [] && fresh(lps)
    {
      pattern := p;
      lps := new nat[|p|](_ => 0);
      matchIndex, bytesProcessed, seen := 0, 0, [];
      new;
      InitLpsTable();
    }

    /** Fills the table: entry i becomes the length of the longest proper border of the
        first i + 1 bytes. */
    method InitLpsTable()
      requires lps.Length == |pattern| && forall i :: 0 <= i < lps.Length ==> lps[i] == 0
      modifies lps
      ensures Table(pattern, lps[..])
    {
      if pattern == [] {
        return;
      }
      TableStarts(pattern, lps[..]);
      var last: nat, next: nat := 0, 1;
      while next < |pattern|
        invariant 0 < next <= |pattern| && last < next
        invariant Building(pattern, lps[..], next, last)
        decreases 2 * (|pattern| - next) + last
      {
        ghost var t, next0, last0 := lps[..], next, last;
        if pattern[last] == pattern[next] {
          lps[next] := last + 1;
          last := last + 1;
          next := next + 1;
          BuildOn(pattern, t, next0, last0, lps[..], next, last);
        } else if last == 0 {
          lps[next] := 0;
          next := next + 1;
          BuildOn(pattern, t, next0, last0, lps[..], next, last);
        } else {
          last := lps[last - 1];
          BuildBack(pattern, t, next0, last0, last);
        }
      }
    }

    method Reset()
      requires Valid()
      modifies this
      ensures Valid() && seen == [] && matchIndex == 0
    {
      matchIndex, bytesProcessed, seen := 0, 0, [];
    }

    /** The loop over one chunk. */
    method Scan(src: seq<Byte>) returns (sIndex: nat)
      requires Table(pattern, lps[..]) && matchIndex <= |pattern|
      modifies this`matchIndex, this`bytesProcessed
      ensures Feed(pattern, lps[..], old(matchIndex), src) == Fed(matchIndex, sIndex)
      ensures bytesProcessed == old(bytesProcessed) + sIndex
    {
      ghost var t, r := lps[..], Feed(pattern, lps[..], matchIndex, src);
      sIndex := 0;
      assert src[0..] == src;
      while !IsMatched() && sIndex < |src|
        invariant bytesProcessed == old(bytesProcessed) + sIndex
        invariant Scanning(pattern, t, r, src, matchIndex, sIndex)
        decreases |src| - sIndex, matchIndex
      {
        ghost var k, i := matchIndex, sIndex;
        if src[sIndex] == pattern[matchIndex] {
          matchIndex := matchIndex + 1;
          bytesProcessed := bytesProcessed + 1;
          sIndex := sIndex + 1;
        } else {
          if matchIndex > 0 {
            matchIndex := lps[matchIndex - 1];
          }
          if matchIndex == 0 {
            sIndex := sIndex + 1;
            bytesProcessed := bytesProcessed + 1;
          }
        }
        ScanOn(pattern, t, r, src, k, i, matchIndex, sIndex);
      }
    }

    /** Feeds one chunk, stopping at a match. */
    method Process(src: seq<Byte>)
      requires Valid()
      modifies this
      ensures Valid()
      ensures Feed(pattern, lps[..], old(matchIndex), src).index == matchIndex
      ensures seen == old(seen) + src[..Feed(pattern, lps[..], old(matchIndex), src).used]
    {
      ghost var k := matchIndex;
      var used := Scan(src);
      UsedIsFed(pattern, lps[..], seen, k, src);
      seen := seen + src[..used];
    }

    /** A match is only ever reported for an occurrence that has just ended. */
    predicate IsMatched()
      reads this
    {
      matchIndex == |pattern|
    }

    /** When matched, the last bytes used are the pattern; and when the pattern is safe,
        not matched means that no occurrence has gone by. */
    lemma MatchedMeansFound()
      requires Valid()
      ensures IsMatched() ==> Ends(seen, pattern, |pattern|)
      ensures Safe(pattern, lps[..]) && Contains(seen, pattern) ==> IsMatched()
    {
      if Safe(pattern, lps[..]) && Contains(seen, pattern) {
        SafeFinds(pattern, lps[..], seen);
      }
    }
  }
}
