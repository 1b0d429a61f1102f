/** The ring-buffer file is a bounded log: what is stored between head and tail is
    a suffix of what was written, and readers see it in order. */
module RingProofs {
  import opened RingModel
  import opened Seqs

  /** A record: at cursor c the bytes decode to payload, and the next record's
      cursor is e. */
  ghost predicate RecordAt(mem: seq<byte>, c: nat, payload: seq<byte>, e: nat) {
    && |mem| >= PREFIX && 0 < |payload| < SIZE_LIMIT
    && var s := EntryStart(mem, c);
       var p := Slot(s, |mem|);
       && p + PREFIX + |payload| <= |mem|
       && SizeAt(mem, p) == |payload|
       && mem[p + PREFIX..p + PREFIX + |payload|] == payload
       && e == s + PREFIX + |payload|
  }

  /** Everything written so far, the cursor before each record and after the last,
      and how many of the oldest have been evicted. */
  datatype Log = Log(hist: seq<seq<byte>>, pos: seq<nat>, first: nat)

  ghost predicate Increasing(pos: seq<nat>) {
    forall i, j :: 0 <= i < j < |pos| ==> pos[i] < pos[j]
  }

  /** From the k-th on, the bytes at the recorded cursors decode to the history. */
  ghost predicate Records(mem: seq<byte>, hist: seq<seq<byte>>, pos: seq<nat>, k: nat)
    requires |pos| == |hist| + 1 && k <= |hist|
    decreases |hist| - k
  {
    k == |hist| || (RecordAt(mem, pos[k], hist[k], pos[k + 1]) && Records(mem, hist, pos, k + 1))
  }

  ghost predicate Holds(r: Ring, log: Log) {
    && |r.mem| >= PREFIX
    && |log.pos| == |log.hist| + 1 && log.first <= |log.hist|
    && Increasing(log.pos)
    && r.cur == Cursor(log.pos[log.first], log.pos[|log.hist|])
    && r.cur.tail - r.cur.head < |r.mem|
    && Records(r.mem, log.hist, log.pos, log.first)
  }

  // ------------------------------------------------------------------ framing

  /** The bytes at the places of the offsets in [lo, hi), in order. */
  ghost function Window(mem: seq<byte>, lo: nat, hi: nat): (w: seq<byte>)
    requires |mem| > 0
    ensures |w| == if lo < hi then hi - lo else 0
    decreases if lo < hi then hi - lo else 0
  {
    if lo < hi then [mem[Slot(lo, |mem|)]] + Window(mem, lo + 1, hi) else []
  }

  ghost predicate Agree(a: seq<byte>, b: seq<byte>, lo: nat, hi: nat) {
    |a| == |b| > 0 && Window(a, lo, hi) == Window(b, lo, hi)
  }

  lemma {:induction false} WindowIs(mem: seq<byte>, c: nat, hi: nat, p: nat, q: nat)
    requires |mem| > 0 && c <= hi && hi - c == q - p && q <= |mem| && (c < hi ==> p == Slot(c, |mem|))
    ensures Window(mem, c, hi) == mem[p..q]
    decreases hi - c
  {
    if c < hi {
      if c + 1 < hi { SlotAdd(c, 1, |mem|); }
      WindowIs(mem, c + 1, hi, p + 1, q);
      SliceCons(mem, p, q);
    }
  }

  lemma WindowIsSlice(mem: seq<byte>, c: nat, len: nat)
    requires |mem| > 0 && Slot(c, |mem|) + len <= |mem|
    ensures var p := Slot(c, |mem|); Window(mem, c, c + len) == mem[p..p + len]
  {
    WindowIs(mem, c, c + len, Slot(c, |mem|), Slot(c, |mem|) + len);
  }

  lemma {:induction false} WindowSplits(mem: seq<byte>, lo: nat, mid: nat, hi: nat)
    requires |mem| > 0 && lo <= mid <= hi
    ensures Window(mem, lo, hi) == Window(mem, lo, mid) + Window(mem, mid, hi)
    decreases mid - lo
  {
    if lo < mid {
      WindowSplits(mem, lo + 1, mid, hi);
      Associate([mem[Slot(lo, |mem|)]], Window(mem, lo + 1, mid), Window(mem, mid, hi));
    }
  }

  lemma AgreeWithin(a: seq<byte>, b: seq<byte>, lo: nat, hi: nat, lo': nat, hi': nat)
    requires Agree(a, b, lo, hi) && lo <= lo' <= hi' <= hi
    ensures Agree(a, b, lo', hi')
  {
    WindowSplits(a, lo, lo', hi);
    WindowSplits(b, lo, lo', hi);
    WindowSplits(a, lo', hi', hi);
    WindowSplits(b, lo', hi', hi);
    var x, y := Window(a, lo, hi), Window(b, lo, hi);
    assert x[lo' - lo..] == Window(a, lo', hi) && y[lo' - lo..] == Window(b, lo', hi);
    assert Window(a, lo', hi)[..hi' - lo'] == Window(a, lo', hi');
    assert Window(b, lo', hi)[..hi' - lo'] == Window(b, lo', hi');
  }

  lemma AgreeSlice(a: seq<byte>, b: seq<byte>, c: nat, len: nat)
    requires Agree(a, b, c, c + len) && Slot(c, |a|) + len <= |a|
    ensures var p := Slot(c, |a|); a[p..p + len] == b[p..p + len]
  {
    WindowIsSlice(a, c, len);
    WindowIsSlice(b, c, len);
  }

  /** Patching the places of [c, c + |data|) leaves alone every other offset
      within a lap. */
  lemma {:induction false} PatchAgree(mem: seq<byte>, c: nat, p: nat, data: seq<byte>, lo: nat, hi: nat)
    requires |mem| > 0 && p == Slot(c, |mem|) && p + |data| <= |mem|
    requires (hi <= c && c + |data| <= lo + |mem|) || (c + |data| <= lo && hi <= c + |mem|)
    ensures Agree(mem, Patch(mem, p, data), lo, hi)
    decreases if lo < hi then hi - lo else 0
  {
    if lo < hi {
      PatchAgreeAt(mem, c, p, data, lo);
      PatchAgree(mem, c, p, data, lo + 1, hi);
    }
  }

  lemma PatchAgreeAt(mem: seq<byte>, c: nat, p: nat, data: seq<byte>, q: nat)
    requires |mem| > 0 && p == Slot(c, |mem|) && p + |data| <= |mem|
    requires (q < c && c + |data| <= q + |mem|) || c + |data| <= q < c + |mem|
    ensures mem[Slot(q, |mem|)] == Patch(mem, p, data)[Slot(q, |mem|)]
  {
    var n, x := |mem|, Slot(q, |mem|);
    if p <= x < p + |data| {
      SlotAdd(c, x - p, n);
      if q < c { SlotApart(q, c + (x - p), n); } else { SlotApart(c + (x - p), q, n); }
    }
  }

  // ------------------------------------------------------------------ records

  /** Whether a wrap is skipped at a cursor only depends on the bytes there. */
  lemma StartFrame(a: seq<byte>, b: seq<byte>, c: nat, e: nat)
    requires |a| >= PREFIX && Agree(a, b, c, e)
    requires EntryStart(a, c) + PREFIX <= e
    ensures EntryStart(b, c) == EntryStart(a, c)
  {
    if Slot(c, |a|) + PREFIX <= |a| {
      assert c + PREFIX <= e;
      AgreeWithin(a, b, c, e, c, c + PREFIX);
      AgreeSlice(a, b, c, PREFIX);
    }
  }

  lemma SlicesAgree(a: seq<byte>, b: seq<byte>, p: nat, len: nat)
    requires p + PREFIX + len <= |a| == |b| && a[p..p + PREFIX + len] == b[p..p + PREFIX + len]
    ensures a[p..p + PREFIX] == b[p..p + PREFIX]
    ensures a[p + PREFIX..p + PREFIX + len] == b[p + PREFIX..p + PREFIX + len]
  {
    SliceSlice(a, p, p + PREFIX + len, 0, PREFIX);
    SliceSlice(b, p, p + PREFIX + len, 0, PREFIX);
    SliceSlice(a, p, p + PREFIX + len, PREFIX, PREFIX + len);
    SliceSlice(b, p, p + PREFIX + len, PREFIX, PREFIX + len);
  }

  lemma EntryFrame(a: seq<byte>, b: seq<byte>, s: nat, len: nat)
    requires |a| >= PREFIX && Agree(a, b, s, s + PREFIX + len) && Slot(s, |a|) + PREFIX + len <= |a|
    ensures var p := Slot(s, |a|);
            SizeAt(a, p) == SizeAt(b, p) && a[p + PREFIX..p + PREFIX + len] == b[p + PREFIX..p + PREFIX + len]
  {
    AgreeSlice(a, b, s, PREFIX + len);
    SlicesAgree(a, b, Slot(s, |a|), len);
  }

  lemma RecordFrame(a: seq<byte>, b: seq<byte>, c: nat, payload: seq<byte>, e: nat)
    requires RecordAt(a, c, payload, e) && Agree(a, b, c, e)
    ensures RecordAt(b, c, payload, e)
  {
    StartFrame(a, b, c, e);
    AgreeWithin(a, b, c, e, EntryStart(a, c), e);
    EntryFrame(a, b, EntryStart(a, c), |payload|);
  }

  lemma {:induction false} RecordsFrame(a: seq<byte>, b: seq<byte>, hist: seq<seq<byte>>, pos: seq<nat>, k: nat)
    requires |pos| == |hist| + 1 && k <= |hist| && Increasing(pos)
    requires Records(a, hist, pos, k) && Agree(a, b, pos[k], pos[|hist|])
    ensures Records(b, hist, pos, k)
    decreases |hist| - k
  {
    if k < |hist| {
      assert pos[k] < pos[k + 1] <= pos[|hist|];
      AgreeWithin(a, b, pos[k], pos[|hist|], pos[k], pos[k + 1]);
      RecordFrame(a, b, pos[k], hist[k], pos[k + 1]);
      AgreeWithin(a, b, pos[k], pos[|hist|], pos[k + 1], pos[|hist|]);
      RecordsFrame(a, b, hist, pos, k + 1);
    }
  }

  lemma {:induction false} RecordsSnoc(mem: seq<byte>, hist: seq<seq<byte>>, pos: seq<nat>, k: nat,
                                       src: seq<byte>, e: nat)
    requires |pos| == |hist| + 1 && k <= |hist|
    requires Records(mem, hist, pos, k) && RecordAt(mem, pos[|hist|], src, e)
    ensures Records(mem, hist + [src], pos + [e], k)
    decreases |hist| - k
  {
    if k < |hist| {
      RecordsSnoc(mem, hist, pos, k + 1, src, e);
    } else {
      assert Records(mem, hist + [src], pos + [e], k + 1);
    }
  }

  lemma {:induction false} RecordsSuffix(mem: seq<byte>, hist: seq<seq<byte>>, pos: seq<nat>, k: nat, i: nat)
    requires |pos| == |hist| + 1 && k <= i <= |hist| && Records(mem, hist, pos, k)
    ensures Records(mem, hist, pos, i)
    decreases i - k
  {
    if k < i { RecordsSuffix(mem, hist, pos, k + 1, i); }
  }

  // ----------------------------------------------------------------- eviction

  /** Clearing a skipped end of the ring touches no byte after it. */
  lemma ClearedAgree(mem: seq<byte>, c: nat, tail: nat)
    requires |mem| >= PREFIX && tail < c + |mem|
    ensures Agree(mem, Cleared(mem, c), EntryStart(mem, c), tail)
  {
    if Skips(mem, c) {
      PatchAgree(mem, c, Slot(c, |mem|), Zeros(ToEnd(c, |mem|)), EntryStart(mem, c), tail);
    }
  }

  /** One eviction moves to the next record's cursor and touches no byte from there
      to the tail. */
  lemma EvictMoves(r: Ring, q: Ring, payload: seq<byte>, e: nat)
    requires RecordAt(r.mem, r.cur.head, payload, e) && q == Evict(r)
    requires e <= r.cur.tail < r.cur.head + |r.mem|
    ensures q.cur == Cursor(e, r.cur.tail) && Agree(r.mem, q.mem, e, r.cur.tail)
  {
    var c, tail, n := r.cur.head, r.cur.tail, |r.mem|;
    var s := EntryStart(r.mem, c);
    var cleared := Cleared(r.mem, c);
    ClearedAgree(r.mem, c, tail);
    AgreeWithin(r.mem, cleared, s, tail, s, s + PREFIX);
    EntryFrame(r.mem, cleared, s, 0);
    AgreeWithin(r.mem, cleared, s, tail, e, tail);
    PatchAgree(cleared, s, Slot(s, n), SizeBytes(0), e, tail);
  }

  /** One eviction drops exactly the oldest record. */
  lemma EvictDropsOldest(r: Ring, log: Log, q: Ring)
    requires Holds(r, log) && log.first < |log.hist| && q == Evict(r)
    ensures Holds(q, log.(first := log.first + 1))
    ensures Agree(r.mem, q.mem, log.pos[log.first + 1], r.cur.tail)
  {
    EvictMoves(r, q, log.hist[log.first], log.pos[log.first + 1]);
    RecordsFrame(r.mem, q.mem, log.hist, log.pos, log.first + 1);
  }

  /** Room was made in r up to boundary k, the first where room bytes fit. */
  ghost predicate RoomMade(r: Ring, log: Log, room: nat, q: Ring, k: nat) {
    && |log.pos| == |log.hist| + 1 && log.first <= k <= |log.hist|
    && Holds(q, log.(first := k))
    && q.cur.tail == r.cur.tail
    && Agree(r.mem, q.mem, log.pos[k], r.cur.tail)
    && r.cur.tail - log.pos[k] + room < |r.mem|
    && forall j :: log.first <= j < k ==> r.cur.tail - log.pos[j] + room >= |r.mem|
  }

  /** Making room drops oldest records one at a time and stops at the first
      boundary where the new record fits. */
  lemma {:induction false} MakeRoomStopsFirst(r: Ring, log: Log, room: nat, q: Ring) returns (k: nat)
    requires Holds(r, log) && room < |r.mem| && q == MakeRoom(r, room)
    ensures RoomMade(r, log, room, q, k)
    decreases |log.hist| - log.first
  {
    if r.cur.head < r.cur.tail && r.cur.tail - r.cur.head + room >= |r.mem| {
      var r1 := Evict(r);
      EvictDropsOldest(r, log, r1);
      k := MakeRoomStopsFirst(r1, log.(first := log.first + 1), room, q);
      RoomStep(r, r1, log, room, q, k);
    } else {
      k := log.first;
    }
  }

  lemma RoomStep(r: Ring, r1: Ring, log: Log, room: nat, q: Ring, k: nat)
    requires Holds(r, log) && log.first < |log.hist| && r.cur.tail - r.cur.head + room >= |r.mem|
    requires |r1.mem| == |r.mem| && r1.cur.tail == r.cur.tail
    requires Agree(r.mem, r1.mem, log.pos[log.first + 1], r.cur.tail)
    requires RoomMade(r1, log.(first := log.first + 1), room, q, k)
    ensures RoomMade(r, log, room, q, k)
  {
    AgreeWithin(r.mem, r1.mem, log.pos[log.first + 1], r.cur.tail, log.pos[k], r.cur.tail);
  }

  // ---------------------------------------------------------------- appending

  lemma PatchReads(mem: seq<byte>, p: nat, data: seq<byte>)
    requires p + |data| <= |mem|
    ensures Patch(mem, p, data)[p..p + |data|] == data
  {
  }

  lemma PatchElsewhere(mem: seq<byte>, p: nat, data: seq<byte>, lo: nat, hi: nat)
    requires p + |data| <= |mem| && lo <= hi <= |mem| && (hi <= p || p + |data| <= lo)
    ensures Patch(mem, p, data)[lo..hi] == mem[lo..hi]
  {
  }

  lemma EntryReads(mem: seq<byte>, p: nat, src: seq<byte>, m: seq<byte>)
    requires |src| < SIZE_LIMIT && p + PREFIX + |src| <= |mem| && m == PutEntry(mem, p, src)
    ensures SizeAt(m, p) == |src| && m[p + PREFIX..p + PREFIX + |src|] == src
  {
    var m1, z := Patch(mem, p + PREFIX, src), SizeBytes(|src|);
    PatchReads(mem, p + PREFIX, src);
    PatchReads(m1, p, z);
    PatchElsewhere(m1, p, z, p + PREFIX, p + PREFIX + |src|);
    SizeRoundTrip(|src|);
  }

  lemma PutEntryAgreeAt(mem: seq<byte>, c: nat, p: nat, src: seq<byte>, q: nat)
    requires 0 < |src| < SIZE_LIMIT && |mem| > 0 && p == Slot(c, |mem|) && p + PREFIX + |src| <= |mem|
    requires q < c && c + PREFIX + |src| <= q + |mem|
    ensures mem[Slot(q, |mem|)] == PutEntry(mem, p, src)[Slot(q, |mem|)]
  {
    SlotAdd(c, PREFIX, |mem|);
    PatchAgreeAt(mem, c + PREFIX, p + PREFIX, src, q);
    PatchAgreeAt(Patch(mem, p + PREFIX, src), c, p, SizeBytes(|src|), q);
  }

  lemma {:induction false} PutEntryAgree(mem: seq<byte>, c: nat, p: nat, src: seq<byte>, lo: nat, hi: nat)
    requires 0 < |src| < SIZE_LIMIT && |mem| > 0 && p == Slot(c, |mem|) && p + PREFIX + |src| <= |mem|
    requires hi <= c && c + PREFIX + |src| <= lo + |mem|
    ensures Agree(mem, PutEntry(mem, p, src), lo, hi)
    decreases if lo < hi then hi - lo else 0
  {
    if lo < hi {
      PutEntryAgreeAt(mem, c, p, src, lo);
      PutEntryAgree(mem, c, p, src, lo + 1, hi);
    }
  }

  lemma PutElsewhere(mem: seq<byte>, src: seq<byte>, q: nat)
    requires |src| < SIZE_LIMIT && PREFIX + |src| <= q && q + PREFIX <= |mem|
    ensures SizeAt(PutEntry(mem, 0, src), q) == SizeAt(mem, q)
  {
    var z := SizeBytes(|src|);
    PatchElsewhere(mem, PREFIX, src, q, q + PREFIX);
    PatchElsewhere(Patch(mem, PREFIX, src), 0, z, q, q + PREFIX);
  }

  /** Where an evicted entry started, none starts any more. */
  lemma EvictErases(r: Ring, q: Ring)
    requires |r.mem| >= PREFIX && q == Evict(r)
    ensures Skips(q.mem, EntryStart(r.mem, r.cur.head))
  {
    PatchReads(Cleared(r.mem, r.cur.head), Slot(EntryStart(r.mem, r.cur.head), |r.mem|), SizeBytes(0));
    SizeRoundTrip(0);
  }

  /** When the entry wraps, a reader at the tail skips to the start of the ring. */
  lemma WrappedSkips(mem: seq<byte>, tail: nat, src: seq<byte>)
    requires |mem| >= PREFIX && 0 < |src| < SIZE_LIMIT
    requires ToEnd(tail, |mem|) < PREFIX + |src| && PREFIX + |src| <= Slot(tail, |mem|)
    ensures Skips(PutEntry(Stamped(mem, tail, PREFIX + |src|), 0, src), tail)
  {
    var n := |mem|;
    if ToEnd(tail, n) >= PREFIX {
      var z := SizeBytes(0);
      PatchReads(mem, Slot(tail, n), z);
      SizeRoundTrip(0);
      PutElsewhere(Patch(mem, Slot(tail, n), z), src, Slot(tail, n));
    }
  }

  lemma RecordIntro(m: seq<byte>, c: nat, s: nat, p: nat, payload: seq<byte>)
    requires |m| >= PREFIX && 0 < |payload| < SIZE_LIMIT && p == Slot(s, |m|) && p + PREFIX + |payload| <= |m|
    requires SizeAt(m, p) == |payload| && m[p + PREFIX..p + PREFIX + |payload|] == payload
    requires s == c || (Skips(m, c) && s == c + ToEnd(c, |m|))
    ensures RecordAt(m, c, payload, s + PREFIX + |payload|)
  {
  }

  /** Why payloads must not be empty: an entry placed at the tail is one a reader
      stops at exactly when its payload is nonempty. */
  lemma EntryVisibleIffNonempty(mem: seq<byte>, tail: nat, src: seq<byte>)
    requires |mem| >= PREFIX && |src| < SIZE_LIMIT && PREFIX + |src| <= ToEnd(tail, |mem|)
    ensures EntryStart(PutEntry(mem, Slot(tail, |mem|), src), tail) == tail <==> src != []
  {
    EntryReads(mem, Slot(tail, |mem|), src, PutEntry(mem, Slot(tail, |mem|), src));
  }

  lemma PlacedAtTail(mem: seq<byte>, tail: nat, src: seq<byte>, head: nat, m: seq<byte>)
    requires |mem| >= PREFIX && 0 < |src| < SIZE_LIMIT && head <= tail
    requires ToEnd(tail, |mem|) >= PREFIX + |src| && tail - head + PREFIX + |src| < |mem|
    requires m == PutEntry(mem, Slot(tail, |mem|), src)
    ensures RecordAt(m, tail, src, tail + PREFIX + |src|)
    ensures Agree(mem, m, head, tail)
  {
    var p := Slot(tail, |mem|);
    assert Agree(mem, m, head, tail) by { PutEntryAgree(mem, tail, p, src, head, tail); }
    EntryReads(mem, p, src, m);
    RecordIntro(m, tail, tail, p, src);
  }

  lemma PlacedAtStart(mem: seq<byte>, tail: nat, src: seq<byte>, head: nat, m: seq<byte>)
    requires |mem| >= PREFIX && 0 < |src| < SIZE_LIMIT && head <= tail
    requires ToEnd(tail, |mem|) < PREFIX + |src|
    requires tail - head + ToEnd(tail, |mem|) + PREFIX + |src| < |mem|
    requires m == PutEntry(Stamped(mem, tail, PREFIX + |src|), 0, src)
    ensures RecordAt(m, tail, src, tail + ToEnd(tail, |mem|) + PREFIX + |src|)
    ensures Agree(mem, m, head, tail)
  {
    var n, s, stamped := |mem|, tail + ToEnd(tail, |mem|), Stamped(mem, tail, PREFIX + |src|);
    SlotWraps(tail, n);
    assert Skips(m, tail) by { WrappedSkips(mem, tail, src); }
    assert Agree(mem, m, head, tail) by {
      if ToEnd(tail, n) >= PREFIX {
        PatchAgree(mem, tail, Slot(tail, n), SizeBytes(0), head, tail);
      }
      PutEntryAgree(stamped, s, 0, src, head, tail);
    }
    EntryReads(stamped, 0, src, m);
    RecordIntro(m, tail, s, 0, src);
  }

  lemma PlaceAtTail(mem: seq<byte>, tail: nat, src: seq<byte>)
    requires |mem| >= PREFIX && |src| < SIZE_LIMIT && PREFIX + |src| <= ToEnd(tail, |mem|)
    ensures Extra(tail, PREFIX + |src|, |mem|) == 0
    ensures Placed(mem, tail, src) == PutEntry(mem, Slot(tail, |mem|), src)
  {
  }

  lemma PlaceAtStart(mem: seq<byte>, tail: nat, src: seq<byte>)
    requires |mem| >= PREFIX && |src| < SIZE_LIMIT && ToEnd(tail, |mem|) < PREFIX + |src| <= |mem|
    ensures Extra(tail, PREFIX + |src|, |mem|) == ToEnd(tail, |mem|)
    ensures Placed(mem, tail, src) == PutEntry(Stamped(mem, tail, PREFIX + |src|), 0, src)
  {
    SlotWraps(tail, |mem|);
  }

  /** The new record decodes, and everything less than a lap behind is untouched. */
  lemma PlacedIsRecord(mem: seq<byte>, tail: nat, src: seq<byte>, head: nat, m: seq<byte>)
    requires |mem| >= PREFIX && 0 < |src| < SIZE_LIMIT && head <= tail
    requires tail - head + Extra(tail, PREFIX + |src|, |mem|) + PREFIX + |src| < |mem|
    requires m == Placed(mem, tail, src)
    ensures RecordAt(m, tail, src, tail + Extra(tail, PREFIX + |src|, |mem|) + PREFIX + |src|)
    ensures Agree(mem, m, head, tail)
  {
    if ToEnd(tail, |mem|) >= PREFIX + |src| {
      PlaceAtTail(mem, tail, src);
      PlacedAtTail(mem, tail, src, head, m);
    } else {
      PlaceAtStart(mem, tail, src);
      PlacedAtStart(mem, tail, src, head, m);
    }
  }

  /** An entry stands at the tail if the rest of the ring takes it, else at the next start;
      it is never torn. */
  predicate EndsAt(tail: nat, need: nat, n: nat, end: nat)
    requires n > 0
  {
    end == tail + need + if Slot(tail, n) + need <= n then 0 else n - Slot(tail, n)
  }

  /** What a write did to a log: its record is appended and oldest records only
      are evicted, one at a time, up to the first boundary where the ring then has the
      padding free; every surviving record's bytes are untouched. */
  ghost predicate Appended(r: Ring, log: Log, src: seq<byte>, padding: nat, q: Ring, log': Log) {
    && |log.pos| == |log.hist| + 1
    && Holds(q, log')
    && log'.hist == log.hist + [src]
    && log.first <= log'.first <= |log.hist|
    && log'.pos == log.pos + [q.cur.tail]
    && Agree(r.mem, q.mem, log.pos[log'.first], r.cur.tail)
    && |q.mem| == |r.mem| > 0 && EndsAt(r.cur.tail, PREFIX + |src|, |r.mem|, q.cur.tail)
    && q.cur.tail - q.cur.head + padding < |q.mem|
    && forall j :: log.first <= j < log'.first ==> q.cur.tail - log.pos[j] + padding >= |q.mem|
  }

  lemma IncreasingSnoc(pos: seq<nat>, e: nat)
    requires Increasing(pos) && |pos| > 0 && pos[|pos| - 1] < e
    ensures Increasing(pos + [e])
  {
  }

  lemma RecordsPlaced(a: seq<byte>, b: seq<byte>, hist: seq<seq<byte>>, pos: seq<nat>, k: nat, src: seq<byte>, e: nat)
    requires |pos| == |hist| + 1 && k <= |hist| && Increasing(pos) && Records(a, hist, pos, k)
    requires Agree(a, b, pos[k], pos[|hist|]) && RecordAt(b, pos[|hist|], src, e)
    ensures Records(b, hist + [src], pos + [e], k)
  {
    RecordsFrame(a, b, hist, pos, k);
    RecordsSnoc(b, hist, pos, k, src, e);
  }

  /** A record placed at the tail joins the log. */
  lemma RecordJoins(r: Ring, log: Log, src: seq<byte>, m: seq<byte>, e: nat)
    requires Holds(r, log) && RecordAt(m, r.cur.tail, src, e) && Agree(r.mem, m, r.cur.head, r.cur.tail)
    requires e - r.cur.head < |m|
    ensures Holds(Ring(m, Cursor(r.cur.head, e)), Log(log.hist + [src], log.pos + [e], log.first))
  {
    RecordsPlaced(r.mem, m, log.hist, log.pos, log.first, src, e);
    assert r.cur.tail <= EntryStart(m, r.cur.tail);
    IncreasingSnoc(log.pos, e);
  }

  lemma PlaceHolds(roomy: Ring, log: Log, src: seq<byte>, q: Ring)
    requires Holds(roomy, log) && 0 < |src| < SIZE_LIMIT
    requires roomy.cur.tail - roomy.cur.head
               + Extra(roomy.cur.tail, PREFIX + |src|, |roomy.mem|) + PREFIX + |src| < |roomy.mem|
    requires q == Place(roomy, src)
    ensures Holds(q, Log(log.hist + [src], log.pos + [q.cur.tail], log.first))
    ensures Agree(roomy.mem, q.mem, roomy.cur.head, roomy.cur.tail)
  {
    PlacedIsRecord(roomy.mem, roomy.cur.tail, src, roomy.cur.head, q.mem);
    RecordJoins(roomy, log, src, q.mem, q.cur.tail);
  }

  /** Once room was made up to boundary k, placing the record completes the write. */
  lemma PlaceAppends(r: Ring, log: Log, src: seq<byte>, padding: nat, room: nat, roomy: Ring, k: nat,
                     q: Ring, log': Log)
    requires RoomMade(r, log, room, roomy, k) && log.first <= k
    requires r.cur.tail + room == q.cur.tail + padding
    requires Agree(roomy.mem, q.mem, log.pos[k], r.cur.tail)
    requires Holds(q, log') && log' == Log(log.hist + [src], log.pos + [q.cur.tail], k)
    requires |q.mem| == |r.mem| > 0 && EndsAt(r.cur.tail, PREFIX + |src|, |r.mem|, q.cur.tail)
    ensures Appended(r, log, src, padding, q, log')
  {
  }

  /** A write appends its record and evicts no more than it must. */
  lemma WriteAppends(r: Ring, log: Log, src: seq<byte>, padding: nat, q: Ring) returns (log': Log)
    requires Holds(r, log) && Fits(r, src, padding) && q == Write(r, src, padding)
    ensures Appended(r, log, src, padding, q, log')
  {
    var room := Room(r, src, padding);
    var roomy := MakeRoom(r, room);
    var k := MakeRoomStopsFirst(r, log, room, roomy);
    log' := Log(log.hist + [src], log.pos + [q.cur.tail], k);
    PlaceHolds(roomy, log.(first := k), src, q);
    PlaceAppends(r, log, src, padding, room, roomy, k, q, log');
  }

  // -------------------------------------------------------------- as contents

  /** The records between the file's cursors, decoded from the bytes alone. */
  ghost function Decode(mem: seq<byte>, head: nat, tail: nat): seq<seq<byte>>
    requires |mem| >= PREFIX
    decreases if head < tail then tail - head else 0
  {
    if head >= tail then [] else
      var s := EntryStart(mem, head);
      var p := Slot(s, |mem|);
      var size := SizeAt(mem, p);
      [if p + PREFIX + size <= |mem| then mem[p + PREFIX..p + PREFIX + size] else []]
      + Decode(mem, s + PREFIX + size, tail)
  }

  lemma {:induction false} DecodeStep(mem: seq<byte>, c: nat, payload: seq<byte>, e: nat, tail: nat)
    requires RecordAt(mem, c, payload, e) && c < tail
    ensures Decode(mem, c, tail) == [payload] + Decode(mem, e, tail)
  {
    assert payload == [] + payload;
  }

  lemma {:induction false} DecodeIsSuffix(mem: seq<byte>, hist: seq<seq<byte>>, pos: seq<nat>, k: nat)
    requires |pos| == |hist| + 1 && k <= |hist| && Increasing(pos) && |mem| >= PREFIX
    requires Records(mem, hist, pos, k)
    ensures Decode(mem, pos[k], pos[|hist|]) == hist[k..]
    decreases |hist| - k
  {
    if k < |hist| {
      assert pos[k] < pos[|hist|];
      DecodeIsSuffix(mem, hist, pos, k + 1);
      DecodeStep(mem, pos[k], hist[k], pos[k + 1], pos[|hist|]);
      assert hist[k..] == [hist[k]] + hist[k + 1..];
    }
  }

  /** The stored records, decoded from the bytes alone. */
  ghost function Stored(r: Ring): seq<seq<byte>>
    requires |r.mem| >= PREFIX
  {
    Decode(r.mem, r.cur.head, r.cur.tail)
  }

  lemma StoredIsSuffix(r: Ring, log: Log)
    requires Holds(r, log)
    ensures Stored(r) == log.hist[log.first..]
  {
    DecodeIsSuffix(r.mem, log.hist, log.pos, log.first);
  }

  lemma AppendedContents(r: Ring, log: Log, src: seq<byte>, padding: nat, q: Ring, log': Log) returns (dropped: nat)
    requires Holds(r, log) && Appended(r, log, src, padding, q, log')
    ensures |q.mem| >= PREFIX && dropped <= |Stored(r)|
    ensures Stored(q) == Stored(r)[dropped..] + [src]
  {
    dropped := log'.first - log.first;
    StoredIsSuffix(r, log);
    StoredIsSuffix(q, log');
    DropTwice(log.hist, src, log.first, log'.first);
  }

  /** As stored contents: a write drops a prefix of what was stored, then appends. */
  lemma WriteIsBoundedAppend(r: Ring, log: Log, src: seq<byte>, padding: nat, q: Ring) returns (dropped: nat)
    requires Holds(r, log) && Fits(r, src, padding) && q == Write(r, src, padding)
    ensures |q.mem| >= PREFIX && dropped <= |Stored(r)|
    ensures Stored(q) == Stored(r)[dropped..] + [src]
  {
    var log' := WriteAppends(r, log, src, padding, q);
    dropped := AppendedContents(r, log, src, padding, q, log');
  }

  // ------------------------------------------------------------------ reading

  lemma ReadRecord(file: Ring, cur: Cursor, payload: seq<byte>, e: nat)
    requires RecordAt(file.mem, cur.head, payload, e) && file.cur.head <= cur.head < e <= file.cur.tail
    ensures Readable(file, cur)
    ensures Read(file, cur).data == payload && Read(file, cur).cur.head == e
  {
  }

  lemma ReadStale(file: Ring, cur: Cursor)
    requires |file.mem| >= PREFIX && cur.head < file.cur.head
    ensures Readable(file, cur) <==> Readable(file, file.cur)
    ensures Readable(file, cur) ==> Read(file, cur) == Read(file, file.cur)
  {
  }

  /** A reader that stands at boundary k gets the record there, or the oldest one
      left when that is evicted, and nothing exactly when it has seen them all. */
  lemma ReadSpec(file: Ring, log: Log, cur: Cursor, k: nat)
    requires Holds(file, log) && k <= |log.hist| && cur.head == log.pos[k]
    ensures Readable(file, cur)
    ensures var at := if k < log.first then log.first else k;
            var r := Read(file, cur);
            if at == |log.hist| then r.data == [] && r.cur.head == log.pos[at]
            else r.data == log.hist[at] != [] && r.cur.head == log.pos[at + 1]
  {
    var at := if k < log.first then log.first else k;
    assert file.cur.head > cur.head <==> k < log.first;
    if k < log.first { ReadStale(file, cur); }
    if at < |log.hist| {
      var from := if k < log.first then file.cur else cur;
      assert RecordAt(file.mem, from.head, log.hist[at], log.pos[at + 1]) by {
        RecordsSuffix(file.mem, log.hist, log.pos, log.first, at);
      }
      assert log.pos[at] < log.pos[at + 1] <= log.pos[|log.hist|];
      ReadRecord(file, from, log.hist[at], log.pos[at + 1]);
    }
  }
}
