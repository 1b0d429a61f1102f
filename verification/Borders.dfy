/** Borders of a pattern, the failure table of Knuth, Morris and Pratt, and what feeding
    a stream to the matcher does, byte by byte. */
module Borders {

  type Byte(==, !new, 00)

  /** The last k bytes of s are the first k of p. */
  ghost predicate Ends(s: seq<Byte>, p: seq<Byte>, k: nat) {
    k <= |p| && k <= |s| && forall i :: 0 <= i < k ==> s[|s| - k + i] == p[i]
  }

  /** k is the length of a proper border of the first n bytes of p. */
  ghost predicate Border(p: seq<Byte>, n: nat, k: nat)
    requires n <= |p|
  {
    k < n && Ends(p[..n], p, k)
  }

  ghost predicate LongestBorder(p: seq<Byte>, n: nat, k: nat)
    requires n <= |p|
  {
    Border(p, n, k) && forall j: nat :: Border(p, n, j) ==> j <= k
  }

  /** The table is right up to n: entry i is the longest border of the first i + 1 bytes. */
  ghost predicate TableTo(p: seq<Byte>, lps: seq<nat>, n: nat) {
    && |lps| == |p| && n <= |p|
    && (n > 0 ==> LongestBorder(p, n, lps[n - 1]) && TableTo(p, lps, n - 1))
  }

  lemma {:induction false} TableEntry(p: seq<Byte>, lps: seq<nat>, n: nat, k: nat)
    requires TableTo(p, lps, n) && 0 < k <= n
    ensures LongestBorder(p, k, lps[k - 1]) && lps[k - 1] < k
  {
    if k < n {
      TableEntry(p, lps, n - 1, k);
    }
  }

  ghost predicate Table(p: seq<Byte>, lps: seq<nat>) {
    TableTo(p, lps, |p|)
  }

  /** One more byte on both sides. */
  lemma EndsGrows(s: seq<Byte>, p: seq<Byte>, k: nat, c: Byte)
    requires k < |p|
    ensures Ends(s + [c], p, k + 1) <==> Ends(s, p, k) && p[k] == c
  {
    var t := s + [c];
    if Ends(t, p, k + 1) {
      forall i | 0 <= i < k ensures s[|s| - k + i] == p[i] {
        assert t[|t| - (k + 1) + i] == p[i];
      }
      assert t[|t| - (k + 1) + k] == p[k];
    }
  }

  /** Of two prefixes of p that end s the shorter is a border of the longer, and a border
      of a prefix that ends s ends s. */
  lemma EndsNest(s: seq<Byte>, p: seq<Byte>, k: nat, j: nat)
    requires Ends(s, p, k) && j < k
    ensures Ends(s, p, j) <==> Border(p, k, j)
  {
    if Ends(s, p, j) {
      forall i | 0 <= i < j ensures p[..k][k - j + i] == p[i] {
        assert s[|s| - k + (k - j + i)] == p[k - j + i];
      }
    }
    if Border(p, k, j) {
      forall i | 0 <= i < j ensures s[|s| - j + i] == p[i] {
        assert p[..k][k - j + i] == p[i];
        assert s[|s| - k + (k - j + i)] == p[k - j + i];
      }
    }
  }

  /** All prefixes of p that end s + [c] are at most one byte longer than k. */
  ghost predicate AtMost(s: seq<Byte>, c: Byte, p: seq<Byte>, k: nat) {
    forall j: nat :: Ends(s + [c], p, j) ==> j <= k + 1
  }

  /** Falling back from a mismatch at k to the longest border of k loses no prefix. */
  lemma FallBack(s: seq<Byte>, c: Byte, p: seq<Byte>, k: nat, b: nat)
    requires 0 < k < |p| && Ends(s, p, k) && p[k] != c && LongestBorder(p, k, b)
    requires AtMost(s, c, p, k)
    ensures b < k && Ends(s, p, b) && AtMost(s, c, p, b)
  {
    EndsNest(s, p, k, b);
    forall j: nat | Ends(s + [c], p, j) ensures j <= b + 1 {
      if j > 0 {
        EndsGrows(s, p, j - 1, c);
        if j - 1 < k {
          EndsNest(s, p, k, j - 1);
        }
      }
    }
  }

  /** Extending a match: nothing longer ends the longer text. */
  lemma NothingLonger(s: seq<Byte>, p: seq<Byte>, k: nat, c: Byte)
    requires forall j: nat :: Ends(s, p, j) ==> j <= k
    ensures AtMost(s, c, p, k)
  {
    forall j: nat | Ends(s + [c], p, j) ensures j <= k + 1 {
      if j > 0 { EndsGrows(s, p, j - 1, c); }
    }
  }

  /** The table's own text: a proper border of the first n bytes is a prefix that ends
      them without the very first. */
  lemma BorderIsEnd(p: seq<Byte>, n: nat, k: nat)
    requires 0 < n <= |p|
    ensures Border(p, n, k) <==> Ends(p[1..n], p, k)
  {
    if Border(p, n, k) {
      forall i | 0 <= i < k ensures p[1..n][n - 1 - k + i] == p[i] {
        assert p[..n][n - k + i] == p[i];
      }
    }
    if Ends(p[1..n], p, k) {
      forall i | 0 <= i < k ensures p[..n][n - k + i] == p[i] {
        assert p[1..n][n - 1 - k + i] == p[i];
      }
    }
  }

  /** What the table loop holds at next, with candidate last. */
  ghost predicate Candidate(p: seq<Byte>, next: nat, last: nat) {
    && 0 < next && last < next
    && (next < |p| ==> Ends(p[1..next], p, last) && AtMost(p[1..next], p[next], p, last))
  }

  lemma TableGrows(p: seq<Byte>, lps: seq<nat>, n: nat, v: nat)
    requires TableTo(p, lps, n) && n < |p| && LongestBorder(p, n + 1, v)
    ensures TableTo(p, lps[n := v], n + 1)
  {
    TableKeeps(p, lps, lps[n := v], n);
  }

  lemma {:induction false} TableKeeps(p: seq<Byte>, lps: seq<nat>, lps': seq<nat>, n: nat)
    requires TableTo(p, lps, n) && |lps'| == |lps| && lps'[..n] == lps[..n]
    ensures TableTo(p, lps', n)
  {
    if n > 0 {
      assert lps'[..n][n - 1] == lps[..n][n - 1] && lps'[..n][..n - 1] == lps[..n][..n - 1];
      assert lps'[..n - 1] == lps[..n - 1];
      TableKeeps(p, lps, lps', n - 1);
    }
  }

  lemma TableStarts(p: seq<Byte>, lps: seq<nat>)
    requires |p| == |lps| > 0 && lps[0] == 0
    ensures TableTo(p, lps, 1) && Candidate(p, 1, 0)
  {
    if 1 < |p| {
      var s := p[1..1];
      forall j: nat | Ends(s + [p[1]], p, j) ensures j <= 1 {
      }
    }
  }

  /** The candidate extends: entry next is one more. */
  lemma EntryGrows(p: seq<Byte>, next: nat, last: nat)
    requires next < |p| && Candidate(p, next, last) && p[last] == p[next]
    ensures LongestBorder(p, next + 1, last + 1) && Candidate(p, next + 1, last + 1)
  {
    var s, t := p[1..next], p[1..next + 1];
    assert t == s + [p[next]];
    EndsGrows(s, p, last, p[next]);
    BorderIsEnd(p, next + 1, last + 1);
    var n := next + 1;
    forall j: nat | Border(p, n, j) ensures j <= last + 1 {
      BorderIsEnd(p, n, j);
      assert Ends(s + [p[next]], p, j);
    }
    forall j: nat | Ends(t, p, j) ensures j <= last + 1 {
      assert Ends(s + [p[next]], p, j);
    }
    if next + 1 < |p| {
      NothingLonger(t, p, last + 1, p[next + 1]);
    }
  }

  /** Nothing matches: entry next is zero. */
  lemma EntryIsZero(p: seq<Byte>, next: nat)
    requires next < |p| && Candidate(p, next, 0) && p[0] != p[next]
    ensures LongestBorder(p, next + 1, 0) && Candidate(p, next + 1, 0)
  {
    var s, t := p[1..next], p[1..next + 1];
    assert t == s + [p[next]];
    EndsGrows(s, p, 0, p[next]);
    forall j: nat | Ends(t, p, j) ensures j == 0 {
      assert Ends(s + [p[next]], p, j);
    }
    var n := next + 1;
    forall j: nat | Border(p, n, j) ensures j == 0 {
      BorderIsEnd(p, n, j);
    }
    if next + 1 < |p| {
      NothingLonger(t, p, 0, p[next + 1]);
    }
  }

  lemma EntryFallsBack(p: seq<Byte>, next: nat, last: nat, b: nat)
    requires next < |p| && Candidate(p, next, last) && last > 0 && p[last] != p[next] && LongestBorder(p, last, b)
    ensures b < last && Candidate(p, next, b)
  {
    FallBack(p[1..next], p[next], p, last, b);
  }

  /** The state of the table loop. */
  ghost predicate Building(p: seq<Byte>, lps: seq<nat>, next: nat, last: nat) {
    next <= |p| && Candidate(p, next, last) && TableTo(p, lps, next)
  }

  /** The two branches that fill an entry, as one. */
  lemma BuildOn(p: seq<Byte>, lps: seq<nat>, next: nat, last: nat, lps': seq<nat>, next': nat, last': nat)
    requires Building(p, lps, next, last) && next < |p| && next' == next + 1
    requires last' == (if p[last] == p[next] then last + 1 else 0) && lps' == lps[next := last']
    requires p[last] == p[next] || last == 0
    ensures Building(p, lps', next', last')
  {
    if p[last] == p[next] {
      EntryGrows(p, next, last);
    } else {
      EntryIsZero(p, next);
    }
    TableGrows(p, lps, next, last');
  }

  lemma BuildBack(p: seq<Byte>, lps: seq<nat>, next: nat, last: nat, last': nat)
    requires Building(p, lps, next, last) && next < |p| && p[last] != p[next] && last > 0
    requires last' == lps[last - 1]
    ensures last' < last && Building(p, lps, next, last')
  {
    TableEntry(p, lps, next, last);
    EntryFallsBack(p, next, last, last');
  }

  // ------------------------------------------------------------------ matching

  /** The match index after one byte: fall back until the byte extends the match. Once
      the index is back at 0 the byte is used up without another look. */
  ghost function FeedByte(p: seq<Byte>, lps: seq<nat>, k: nat, c: Byte): (r: nat)
    requires Table(p, lps) && k < |p|
    ensures r <= k + 1
    decreases k
  {
    if c == p[k] then k + 1
    else if k == 0 || lps[k - 1] == 0 then 0
    else
      TableEntry(p, lps, |p|, k);
      FeedByte(p, lps, lps[k - 1], c)
  }

  datatype Fed = Fed(index: nat, used: nat)

  /** The match index after a stream, and how many of its bytes were used. */
  ghost function Feed(p: seq<Byte>, lps: seq<nat>, k: nat, src: seq<Byte>): (r: Fed)
    requires Table(p, lps) && k <= |p|
    ensures r.index <= |p| && r.used <= |src| && (r.index < |p| ==> r.used == |src|)
    ensures k < |p| ==> r.index <= k + r.used
    decreases src
  {
    if k == |p| || src == [] then Fed(k, 0)
    else
      var r := Feed(p, lps, FeedByte(p, lps, k, src[0]), src[1..]);
      r.(used := r.used + 1)
  }

  function Later(f: Fed, n: nat): Fed {
    f.(used := f.used + n)
  }

  /** The state of the matching loop: feeding the rest of the chunk leads to r. */
  ghost predicate Scanning(p: seq<Byte>, lps: seq<nat>, r: Fed, src: seq<Byte>, k: nat, i: nat) {
    Table(p, lps) && k <= |p| && i <= |src| && r == Later(Feed(p, lps, k, src[i..]), i)
  }

  /** One pass of the loop: the byte extends the match, or is used up at index 0, or is
      looked at again at a smaller index. */
  lemma ScanOn(p: seq<Byte>, lps: seq<nat>, r: Fed, src: seq<Byte>, k: nat, i: nat, k': nat, i': nat)
    requires Scanning(p, lps, r, src, k, i) && k < |p| && i < |src|
    requires k' == if src[i] == p[k] then k + 1 else if k > 0 then lps[k - 1] else 0
    requires i' == if src[i] == p[k] || k' == 0 then i + 1 else i
    ensures Scanning(p, lps, r, src, k', i') && (i' == i ==> k' < k)
  {
    if k > 0 { TableEntry(p, lps, |p|, k); }
    var rest := src[i..];
    assert rest[0] == src[i] && rest[1..] == src[i + 1..];
  }

  /** How a stream is cut into chunks does not matter. */
  lemma {:induction false} FeedConcat(p: seq<Byte>, lps: seq<nat>, k: nat, a: seq<Byte>, b: seq<Byte>)
    requires Table(p, lps) && k <= |p|
    ensures var r, q := Feed(p, lps, k, a), Feed(p, lps, Feed(p, lps, k, a).index, b);
      Feed(p, lps, k, a + b) == Fed(q.index, r.used + q.used)
    decreases a
  {
    if a == [] {
      assert a + b == b;
    } else if k < |p| {
      assert (a + b)[0] == a[0] && (a + b)[1..] == a[1..] + b;
      FeedConcat(p, lps, FeedByte(p, lps, k, a[0]), a[1..], b);
    }
  }

  /** Whatever was fed ends in as many bytes of the pattern as the index says. */
  lemma {:induction false} FeedByteSound(p: seq<Byte>, lps: seq<nat>, s: seq<Byte>, k: nat, c: Byte)
    requires Table(p, lps) && k < |p| && Ends(s, p, k)
    ensures Ends(s + [c], p, FeedByte(p, lps, k, c))
    decreases k
  {
    if c == p[k] {
      EndsGrows(s, p, k, c);
    } else if k > 0 && lps[k - 1] != 0 {
      TableEntry(p, lps, |p|, k);
      EndsNest(s, p, k, lps[k - 1]);
      FeedByteSound(p, lps, s, lps[k - 1], c);
    }
  }

  lemma {:induction false} FeedSound(p: seq<Byte>, lps: seq<nat>, s: seq<Byte>, k: nat, src: seq<Byte>)
    requires Table(p, lps) && k <= |p| && Ends(s, p, k)
    ensures Ends(s + src[..Feed(p, lps, k, src).used], p, Feed(p, lps, k, src).index)
    decreases src
  {
    if k == |p| || src == [] {
      assert s + src[..0] == s;
    } else {
      FeedByteSound(p, lps, s, k, src[0]);
      FeedSound(p, lps, s + [src[0]], FeedByte(p, lps, k, src[0]), src[1..]);
      var n := Feed(p, lps, k, src).used;
      assert s + [src[0]] + src[1..][..n - 1] == s + src[..n];
    }
  }

  /** The bytes of a chunk that are used continue the stream fed so far. */
  lemma UsedIsFed(p: seq<Byte>, lps: seq<nat>, s: seq<Byte>, k: nat, src: seq<Byte>)
    requires Table(p, lps) && k <= |p| && Ends(s, p, k) && Feed(p, lps, 0, s) == Fed(k, |s|)
    ensures var r := Feed(p, lps, k, src);
      && Ends(s + src[..r.used], p, r.index)
      && Feed(p, lps, 0, s + src[..r.used]) == Fed(r.index, |s| + r.used)
  {
    var r := Feed(p, lps, k, src);
    FeedSound(p, lps, s, k, src);
    FeedConcat(p, lps, 0, s, src[..r.used]);
    FeedUsed(p, lps, k, src);
  }

  /** Bytes that are not used do not matter. */
  lemma {:induction false} FeedUsed(p: seq<Byte>, lps: seq<nat>, k: nat, src: seq<Byte>)
    requires Table(p, lps) && k <= |p|
    ensures var r := Feed(p, lps, k, src); Feed(p, lps, k, src[..r.used]) == r
    decreases src
  {
    if k < |p| && src != [] {
      var r := Feed(p, lps, k, src);
      FeedUsed(p, lps, FeedByte(p, lps, k, src[0]), src[1..]);
      assert src[..r.used][0] == src[0] && src[..r.used][1..] == src[1..][..r.used - 1];
    }
  }

  // -------------------------------------------------------------- completeness

  ghost predicate Contains(s: seq<Byte>, p: seq<Byte>) {
    exists n: nat :: n <= |s| && Ends(s[..n], p, |p|)
  }

  /** Every stream that contains the pattern is found to. */
  ghost predicate Complete(p: seq<Byte>, lps: seq<nat>)
    requires Table(p, lps)
  {
    forall s: seq<Byte> :: Contains(s, p) ==> Feed(p, lps, 0, s).index == |p|
  }

  /** Wherever a prefix has no border, the next byte of the pattern is its first. */
  ghost predicate Safe(p: seq<Byte>, lps: seq<nat>)
    requires |lps| == |p|
  {
    forall j :: 0 < j < |p| && lps[j - 1] == 0 ==> p[j] == p[0]
  }

  /** The longest prefix of the pattern that ends s. */
  ghost predicate Longest(s: seq<Byte>, p: seq<Byte>, k: nat) {
    Ends(s, p, k) && forall j: nat :: Ends(s, p, j) ==> j <= k
  }

  lemma {:induction false} FeedByteLongest(p: seq<Byte>, lps: seq<nat>, s: seq<Byte>, k: nat, c: Byte)
    requires Table(p, lps) && Safe(p, lps) && k < |p| && Ends(s, p, k) && AtMost(s, c, p, k)
    ensures Longest(s + [c], p, FeedByte(p, lps, k, c))
    decreases k
  {
    FeedByteSound(p, lps, s, k, c);
    if c != p[k] && k > 0 {
      TableEntry(p, lps, |p|, k);
      FallBack(s, c, p, k, lps[k - 1]);
      if lps[k - 1] != 0 {
        FeedByteLongest(p, lps, s, lps[k - 1], c);
      } else {
        EndsGrows(s, p, 0, c);
      }
    } else if c != p[k] {
      EndsGrows(s, p, 0, c);
    }
  }

  lemma {:induction false} FeedLongest(p: seq<Byte>, lps: seq<nat>, s: seq<Byte>)
    requires Table(p, lps) && Safe(p, lps) && Feed(p, lps, 0, s).index < |p|
    ensures Longest(s, p, Feed(p, lps, 0, s).index)
    decreases |s|
  {
    if s != [] {
      var t, c := s[..|s| - 1], s[|s| - 1];
      assert s == t + [c];
      FeedConcat(p, lps, 0, t, [c]);
      var k := Feed(p, lps, 0, t).index;
      FeedLongest(p, lps, t);
      NothingLonger(t, p, k, c);
      FeedByteLongest(p, lps, t, k, c);
      assert [c][1..] == [];
    }
  }

  /** A stream the matcher loses: a prefix without a border, then the whole pattern. */
  lemma UnsafeLoses(p: seq<Byte>, lps: seq<nat>, j: nat) returns (s: seq<Byte>)
    requires Table(p, lps) && 0 < j < |p| && lps[j - 1] == 0 && p[j] != p[0]
    ensures Contains(s, p) && Feed(p, lps, 0, s).index < |p|
  {
    s := p[..j] + p;
    assert s[..|s|] == s && Ends(s[..|s|], p, |p|);
    FeedPrefix(p, lps, j);
    FeedConcat(p, lps, 0, p[..j], p);
    assert FeedByte(p, lps, j, p[0]) == 0;
  }

  lemma {:induction false} FeedPrefix(p: seq<Byte>, lps: seq<nat>, j: nat)
    requires Table(p, lps) && j <= |p|
    ensures Feed(p, lps, 0, p[..j]).index == j
    decreases j
  {
    if j > 0 {
      assert p[..j] == p[..j - 1] + [p[j - 1]];
      FeedPrefix(p, lps, j - 1);
      FeedConcat(p, lps, 0, p[..j - 1], [p[j - 1]]);
      assert [p[j - 1]][1..] == [];
    }
  }

  /** The matcher finds every occurrence exactly when, in the pattern, each prefix
      without a border is followed by the pattern's first byte. */
  lemma CompleteIffSafe(p: seq<Byte>, lps: seq<nat>)
    requires Table(p, lps)
    ensures Complete(p, lps) <==> Safe(p, lps)
  {
    if Safe(p, lps) {
      forall s: seq<Byte> | Contains(s, p) ensures Feed(p, lps, 0, s).index == |p| {
        SafeFinds(p, lps, s);
      }
    } else {
      var j :| 0 < j < |p| && lps[j - 1] == 0 && p[j] != p[0];
      var s := UnsafeLoses(p, lps, j);
    }
  }

  lemma SafeFinds(p: seq<Byte>, lps: seq<nat>, s: seq<Byte>)
    requires Table(p, lps) && Safe(p, lps) && Contains(s, p)
    ensures Feed(p, lps, 0, s).index == |p|
  {
    var n: nat :| n <= |s| && Ends(s[..n], p, |p|);
    if Feed(p, lps, 0, s[..n]).index < |p| {
      FeedLongest(p, lps, s[..n]);
    }
    assert s == s[..n] + s[n..];
    FeedConcat(p, lps, 0, s[..n], s[n..]);
  }
}
