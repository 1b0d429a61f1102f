/** The ring-buffer file on values: the mapped bytes, the two cursors, and each
    operation as a function. RingFile.dfy has them updated in place. */
module RingModel {
  import opened Remainders

  type byte = x: int | 0 <= x < 256

  /** Size of the length prefix of an entry. */
  const PREFIX: nat := 4
  const SIZE_LIMIT: nat := 0x1_0000_0000

  datatype Cursor = Cursor(head: nat, tail: nat)

  // ------------------------------------------------------------ length prefix

  function SizeBytes(n: nat): (s: seq<byte>)
    requires n < SIZE_LIMIT
    ensures |s| == PREFIX
  {
    [n % 256, n / 0x100 % 256, n / 0x1_0000 % 256, n / 0x100_0000]
  }

  function BytesSize(s: seq<byte>): nat
    requires |s| == PREFIX
  {
    var b0: int, b1: int, b2: int, b3: int := s[0], s[1], s[2], s[3];
    b0 + 0x100 * b1 + 0x1_0000 * b2 + 0x100_0000 * b3
  }

  lemma SizeRoundTrip(n: nat)
    requires n < SIZE_LIMIT
    ensures BytesSize(SizeBytes(n)) == n
  {
    assert n / 0x1_0000 == n / 0x100 / 256 && n / 0x100_0000 == n / 0x1_0000 / 256;
  }

  // --------------------------------------------------------------- positions

  /** The place of a monotone offset in a ring of n bytes: the remainder, by laps. */
  function Slot(c: nat, n: nat): (p: nat)
    requires n > 0
    ensures p < n
  {
    if c < n then c else Slot(c - n, n)
  }

  /** Bytes from an offset's place to the end of the ring. */
  function ToEnd(c: nat, n: nat): (r: nat)
    requires n > 0
    ensures 1 <= r <= n
  {
    n - Slot(c, n)
  }

  lemma {:induction false} SlotIsRemainder(c: nat, n: nat)
    requires n > 0
    ensures Slot(c, n) == c % n
  {
    if c >= n {
      SlotIsRemainder(c - n, n);
      var q, r := (c - n) / n, (c - n) % n;
      assert c - n == q * n + r && c == (q + 1) * n + r;
      RemainderIs(c, q + 1, r, n);
    }
  }

  lemma {:induction false} SlotAdd(c: nat, j: nat, n: nat)
    requires n > 0 && Slot(c, n) + j < n
    ensures Slot(c + j, n) == Slot(c, n) + j
  {
    if c >= n { SlotAdd(c - n, j, n); }
  }

  lemma {:induction false} SlotWraps(c: nat, n: nat)
    requires n > 0
    ensures Slot(c + ToEnd(c, n), n) == 0
  {
    if c >= n { SlotWraps(c - n, n); }
  }

  /** Offsets less than a lap apart have different places. */
  lemma SlotApart(c: nat, d: nat, n: nat)
    requires n > 0 && c < d < c + n
    ensures Slot(c, n) != Slot(d, n)
  {
    if Slot(c, n) + (d - c) < n {
      SlotAdd(c, d - c, n);
    } else {
      SlotWraps(c, n);
      SlotAdd(c + ToEnd(c, n), d - c - ToEnd(c, n), n);
    }
  }

  // -------------------------------------------------------------- operations

  function SizeAt(mem: seq<byte>, p: nat): nat
    requires p + PREFIX <= |mem|
  {
    BytesSize(mem[p..p + PREFIX])
  }

  function Patch(mem: seq<byte>, p: nat, data: seq<byte>): (m: seq<byte>)
    requires p + |data| <= |mem|
    ensures |m| == |mem|
  {
    mem[..p] + data + mem[p + |data|..]
  }

  /** No entry starts here: too little room for a prefix, or a zero size. */
  predicate Skips(mem: seq<byte>, c: nat)
    requires |mem| >= PREFIX
  {
    var p := Slot(c, |mem|);
    p + PREFIX > |mem| || SizeAt(mem, p) == 0
  }

  /** Where the entry at a cursor starts, past a wrap. */
  function EntryStart(mem: seq<byte>, c: nat): (s: nat)
    requires |mem| >= PREFIX
    ensures c <= s && Slot(s, |mem|) + PREFIX <= |mem|
  {
    if Skips(mem, c) then SlotWraps(c, |mem|); c + ToEnd(c, |mem|) else c
  }

  datatype Ring = Ring(mem: seq<byte>, cur: Cursor)

  /** The end of the ring zeroed, when it is skipped. */
  function Cleared(mem: seq<byte>, c: nat): (m: seq<byte>)
    requires |mem| >= PREFIX
    ensures |m| == |mem|
  {
    if Skips(mem, c) then Patch(mem, Slot(c, |mem|), Zeros(ToEnd(c, |mem|))) else mem
  }

  /** Removes the entry at the head: a skipped end of the ring is zeroed, the
      entry's size is zeroed, and the head moves past it. */
  function Evict(r: Ring): (q: Ring)
    requires |r.mem| >= PREFIX
    ensures |q.mem| == |r.mem| && q.cur.tail == r.cur.tail && q.cur.head > r.cur.head
  {
    var c, n := r.cur.head, |r.mem|;
    var cleared := Cleared(r.mem, c);
    var s := EntryStart(r.mem, c);
    Ring(Patch(cleared, Slot(s, n), SizeBytes(0)),
         Cursor(s + PREFIX + SizeAt(cleared, Slot(s, n)), r.cur.tail))
  }

  function Zeros(n: nat): (z: seq<byte>)
    ensures |z| == n
  {
    seq(n, _ => 0)
  }

  /** Evicts from the head until room more bytes fit. */
  function MakeRoom(r: Ring, room: nat): (q: Ring)
    requires |r.mem| >= PREFIX
    ensures |q.mem| == |r.mem| && q.cur.tail == r.cur.tail
    decreases if r.cur.head < r.cur.tail then r.cur.tail - r.cur.head else 0
  {
    if r.cur.head < r.cur.tail && r.cur.tail - r.cur.head + room >= |r.mem| then MakeRoom(Evict(r), room) else r
  }

  /** Bytes left unused at the end of the ring when the entry does not fit there. */
  function Extra(tail: nat, need: nat, n: nat): nat
    requires n > 0
  {
    if ToEnd(tail, n) < need then ToEnd(tail, n) else 0
  }

  /** What a write asks of its caller: a nonempty payload whose entry fits the ring
      with the padding, even when it has to wrap. */
  predicate Fits(r: Ring, src: seq<byte>, padding: nat) {
    && 0 < |src| < SIZE_LIMIT && |r.mem| >= PREFIX
    && Extra(r.cur.tail, PREFIX + |src|, |r.mem|) + PREFIX + |src| + padding < |r.mem|
  }

  function PutEntry(mem: seq<byte>, p: nat, src: seq<byte>): (m: seq<byte>)
    requires |src| < SIZE_LIMIT && p + PREFIX + |src| <= |mem|
    ensures |m| == |mem|
  {
    Patch(Patch(mem, p + PREFIX, src), p, SizeBytes(|src|))
  }

  /** The room a write asks for: its entry, the end of the ring it would leave
      unused, and the padding. */
  function Room(r: Ring, src: seq<byte>, padding: nat): nat
    requires |r.mem| > 0
  {
    Extra(r.cur.tail, PREFIX + |src|, |r.mem|) + PREFIX + |src| + padding
  }

  /** A zero size at the tail, when the entry wraps and a prefix fits there. */
  function Stamped(mem: seq<byte>, tail: nat, need: nat): (m: seq<byte>)
    requires |mem| >= PREFIX
    ensures |m| == |mem|
  {
    if PREFIX <= ToEnd(tail, |mem|) < need then Patch(mem, Slot(tail, |mem|), SizeBytes(0)) else mem
  }

  /** The place of the entry: at the tail if it fits there, else at the start. */
  function EntryPlace(tail: nat, need: nat, n: nat): (p: nat)
    requires need <= n && n > 0
    ensures p + need <= n
  {
    SlotWraps(tail, n);
    Slot(tail + Extra(tail, need, n), n)
  }

  /** The bytes a write leaves once there is room. */
  function Placed(mem: seq<byte>, tail: nat, src: seq<byte>): (m: seq<byte>)
    requires |mem| >= PREFIX && |src| < SIZE_LIMIT && PREFIX + |src| <= |mem|
    ensures |m| == |mem|
  {
    PutEntry(Stamped(mem, tail, PREFIX + |src|), EntryPlace(tail, PREFIX + |src|, |mem|), src)
  }

  function Place(roomy: Ring, src: seq<byte>): Ring
    requires |roomy.mem| >= PREFIX && |src| < SIZE_LIMIT && PREFIX + |src| <= |roomy.mem|
  {
    var tail := roomy.cur.tail;
    Ring(Placed(roomy.mem, tail, src),
         Cursor(roomy.cur.head, tail + Extra(tail, PREFIX + |src|, |roomy.mem|) + PREFIX + |src|))
  }

  function Write(r: Ring, src: seq<byte>, padding: nat): (q: Ring)
    requires Fits(r, src, padding)
  {
    Place(MakeRoom(r, Room(r, src, padding)), src)
  }

  lemma WriteIs(r: Ring, src: seq<byte>, padding: nat, roomy: Ring, q: Ring)
    requires Fits(r, src, padding) && roomy == MakeRoom(r, Room(r, src, padding)) && q == Place(roomy, src)
    ensures q == Write(r, src, padding)
  {
  }

  datatype ReadResult = ReadResult(cur: Cursor, data: seq<byte>)

  /** The entry a reader at cur would return lies within the ring. */
  predicate Readable(file: Ring, cur: Cursor) {
    && |file.mem| >= PREFIX
    && var c := if file.cur.head > cur.head then file.cur.head else cur.head;
       c < file.cur.tail ==>
         var p := Slot(EntryStart(file.mem, c), |file.mem|);
         p + PREFIX + SizeAt(file.mem, p) <= |file.mem|
  }

  /** A reader with its own cursor cur against the file's bytes and cursor. */
  function Read(file: Ring, cur: Cursor): ReadResult
    requires Readable(file, cur)
  {
    var mine := if file.cur.head > cur.head then file.cur else cur;
    if mine.head >= file.cur.tail then ReadResult(mine, [])
    else
      var s := EntryStart(file.mem, mine.head);
      if s != mine.head && s >= file.cur.tail then ReadResult(mine.(head := s), [])
      else
        var p := Slot(s, |file.mem|);
        var size := SizeAt(file.mem, p);
        ReadResult(mine.(head := s + PREFIX + size), file.mem[p + PREFIX..p + PREFIX + size])
  }
}
