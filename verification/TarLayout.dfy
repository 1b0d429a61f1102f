/** How an archive is laid out (the ustar Interchange Format in the pax utility section
    of IEEE Std 1003.1, with the GNU record for long names), and the round trip: reading
    an archive gives back the entries it was made of. */
module TarLayout {
  import opened Seqs
  import opened TarModel

  /** Where an item's name stands: in its header, or in a record of its own, with its own
      fields and one of the letters 'K' and 'L'; the header then carries some short name. */
  datatype Place = Here | Apart(short: seq<byte>, letter: byte, mtime: nat, other: Other)

  /** A file to be stored, after some zero blocks; the fields the reader does not look at
      are arbitrary. */
  datatype Candidate = Candidate(
    gap: nat, name: seq<byte>, kind: Kind, flag: byte, mtime: nat, payload: seq<byte>, place: Place, other: Other)

  datatype Other = Other(ids: seq<byte>, sum: seq<byte>, rest: seq<byte>)

  predicate Sized(o: Other) {
    |o.ids| == 24 && |o.sum| == 8 && |o.rest| == 355
  }

  predicate NoZero(s: seq<byte>) {
    forall i :: 0 <= i < |s| ==> s[i] != 0
  }

  /** Eight to the power of eleven: what a field of eleven digits holds. */
  const LIMIT: nat := 0x2_0000_0000

  function Pow8(n: nat): nat {
    if n == 0 then 1 else 8 * Pow8(n - 1)
  }

  /** A name that fits the header's field with a zero byte after it. */
  predicate ShortName(name: seq<byte>) {
    |name| < 100 && NoZero(name)
  }

  /** Any name may have a record of its own; one too long for the header must. */
  predicate Storable(e: Candidate) {
    && NoZero(e.name) && |e.payload| < LIMIT && e.mtime < LIMIT
    && Flags(e.kind, e.flag) && e.flag !in [75, 76] && Sized(e.other)
    && match e.place
       case Here => |e.name| < 100
       case Apart(short, letter, mtime, other) =>
         ShortName(short) && letter in [75, 76] && mtime < LIMIT && Sized(other) && |e.name| + 1 < LIMIT
  }

  type Item = e: Candidate | Storable(e)
    witness Candidate(0, [], File, 48, 0, [], Here, Other(Zeros(24), Zeros(8), Zeros(355)))

  function Zeros(n: nat): (z: seq<byte>)
    ensures |z| == n && AllZero(z)
  {
    seq(n, _ => 0)
  }

  /** The octal digit at place k, from the right. */
  function Digit(v: nat, k: nat): (d: nat)
    ensures d < 8
  {
    if k == 0 then v % 8 else Digit(v / 8, k - 1)
  }

  /** The lowest n octal digits. */
  function Digits(v: nat, n: nat): (s: seq<byte>)
    ensures |s| == n && NoZero(s)
  {
    seq(n, i requires 0 <= i < n => 48 + Digit(v, n - 1 - i))
  }

  lemma {:induction false} OctalOfDigits(v: nat, n: nat)
    requires v < Pow8(n)
    ensures Octal(Digits(v, n)) == Ok(v)
  {
    if n > 0 {
      OctalOfDigits(v / 8, n - 1);
      var s := Digits(v, n);
      var shorter := Digits(v / 8, n - 1);
      forall i | 0 <= i < n - 1 ensures s[i] == shorter[i] {
        assert s[i] == 48 + Digit(v, n - 1 - i) && shorter[i] == 48 + Digit(v / 8, n - 2 - i);
      }
      assert s[..|s| - 1] == shorter && s[|s| - 1] == 48 + Digit(v, 0);
    }
  }

  /** A field of eleven digits. */
  lemma OctalOfField(v: nat)
    requires v < LIMIT
    ensures Octal(Digits(v, 11)) == Ok(v)
  {
    assert Pow8(11) == LIMIT;
    OctalOfDigits(v, 11);
  }

  /** Fields one after the other. */
  function Join(fields: seq<seq<byte>>): seq<byte> {
    if fields == [] then [] else Join(fields[..|fields| - 1]) + fields[|fields| - 1]
  }

  /** The fields of a header block up to the type flag. */
  function Front(name: seq<byte>, size: nat, mtime: nat, o: Other): seq<seq<byte>>
    requires |name| < 100
  {
    [name, Zeros(100 - |name|), o.ids, Digits(size, 11), [0], Digits(mtime, 11), [0], o.sum]
  }

  /** A header block. */
  function Block(name: seq<byte>, size: nat, mtime: nat, flag: byte, o: Other): (b: seq<byte>)
    requires |name| < 100 && Sized(o)
    ensures |b| == BLOCK
  {
    FrontLength(name, size, mtime, o);
    Join(Front(name, size, mtime, o)) + [flag] + o.rest
  }

  lemma FrontLength(name: seq<byte>, size: nat, mtime: nat, o: Other)
    requires |name| < 100 && Sized(o)
    ensures var f := Front(name, size, mtime, o);
      && |Join(f[..3])| == SIZE_AT && |Join(f[..5])| == MTIME_AT && |Join(f)| == TYPE_AT
  {
    var f := Front(name, size, mtime, o);
    Upto(f, 1);
    Upto(f, 2);
    Upto(f, 3);
    Upto(f, 4);
    Upto(f, 5);
    Upto(f, 6);
    Upto(f, 7);
    Upto(f, 8);
    assert f[..0] == [] && f[..8] == f;
  }

  lemma Upto(f: seq<seq<byte>>, n: nat)
    requires 0 < n <= |f|
    ensures Join(f[..n]) == Join(f[..n - 1]) + f[n - 1]
  {
    assert f[..n][..n - 1] == f[..n - 1];
  }

  /** Everything after field n. */
  lemma {:induction false} JoinAfter(f: seq<seq<byte>>, n: nat) returns (after: seq<byte>)
    requires n < |f|
    ensures Join(f) == Join(f[..n]) + f[n] + after
    decreases |f|
  {
    assert f[..|f|] == f;
    Upto(f, |f|);
    if n + 1 == |f| {
      after := [];
    } else {
      var shorter := f[..|f| - 1];
      assert shorter[..n] == f[..n];
      after := JoinAfter(shorter, n);
      after := after + f[|f| - 1];
    }
  }

  function Padded(s: seq<byte>): (p: seq<byte>)
    ensures |p| == Align(|s|) && p[..|s|] == s
  {
    s + Zeros(Align(|s|) - |s|)
  }

  /** The header block and the payload. */
  function Stored(name: seq<byte>, e: Item): seq<byte>
    requires |name| < 100
  {
    Block(name, |e.payload|, e.mtime, e.flag, e.other) + Padded(e.payload)
  }

  const LONG_LINK: seq<byte> := [46, 47, 46, 47, 64, 76, 111, 110, 103, 76, 105, 110, 107]

  /** The record that carries a name. */
  function Long(name: seq<byte>, letter: byte, mtime: nat, o: Other): seq<byte>
    requires Sized(o)
  {
    Block(LONG_LINK, |name| + 1, mtime, letter, o) + Padded(name + [0])
  }

  function Record(e: Item): seq<byte> {
    match e.place
    case Here => Stored(e.name, e)
    case Apart(short, letter, mtime, other) => Long(e.name, letter, mtime, other) + Stored(short, e)
  }

  /** The zero blocks before a record, and the record. */
  function Spaced(e: Item): seq<byte> {
    Zeros(e.gap * BLOCK) + Record(e)
  }

  /** The bytes of a record: header and payload in whole blocks. */
  function Length(e: Item): nat {
    BLOCK + Align(|e.payload|) + if e.place.Here? then 0 else BLOCK + Align(|e.name| + 1)
  }

  lemma RecordLength(e: Item)
    ensures |Record(e)| == Length(e)
  {
  }

  function Archive(es: seq<Item>): seq<byte>
  {
    if es == [] then [] else Spaced(es[0]) + Archive(es[1..])
  }

  /** What a reader should report for an item whose record starts at pos. */
  function Expected(e: Item, pos: nat): Entry
  {
    Entry(e.name, |e.payload|, e.kind, e.mtime, pos + Length(e) - Align(|e.payload|))
  }

  /** The same for all items of an archive that starts at pos. */
  function AllExpected(es: seq<Item>, pos: nat): seq<Result<Entry>>
  {
    if es == [] then []
    else
      var at := pos + es[0].gap * BLOCK;
      [Ok(Expected(es[0], at))] + AllExpected(es[1..], at + Length(es[0]))
  }

  // ------------------------------------------------------------------- fields

  lemma {:induction false} TextIs(h: seq<byte>, at: nat, s: seq<byte>)
    requires NoZero(s) && at + |s| < |h| && h[at..at + |s|] == s && h[at + |s|] == 0
    ensures Text(h, at) == s
    decreases |s|
  {
    if s != [] {
      assert h[at] == h[at..at + |s|][0];
      assert h[at + 1..at + 1 + |s[1..]|] == h[at..at + |s|][1..];
      TextIs(h, at + 1, s[1..]);
    }
  }

  /** A field that ends in a zero byte reads as its text. */
  lemma FieldText(b: seq<byte>, a: seq<byte>, s: seq<byte>, c: seq<byte>, at: nat)
    requires b == a + s + [0] + c && |a| == at && NoZero(s) && at + |s| < HEADER <= |b|
    ensures Text(b[..HEADER], at) == s
  {
    var h := b[..HEADER];
    assert b[at..at + |s|] == s && b[at + |s|] == 0;
    assert h[at..at + |s|] == b[at..at + |s|];
    TextIs(h, at, s);
  }

  /** Field n of a block, followed by a zero byte, as the reader sees it. */
  lemma BlockField(name: seq<byte>, size: nat, mtime: nat, flag: byte, o: Other, n: nat, at: nat)
    requires ShortName(name) && Sized(o) && n + 1 < 8 && at == |Join(Front(name, size, mtime, o)[..n])|
    requires var f := Front(name, size, mtime, o); NoZero(f[n]) && f[n + 1] != [] && f[n + 1][0] == 0
    requires at + |Front(name, size, mtime, o)[n]| < HEADER
    ensures Text(Block(name, size, mtime, flag, o)[..HEADER], at) == Front(name, size, mtime, o)[n]
  {
    var f, b := Front(name, size, mtime, o), Block(name, size, mtime, flag, o);
    var after := JoinAfter(f, n + 1);
    Upto(f, n + 1);
    var a, z := Join(f[..n]), f[n + 1];
    assert Join(f) == a + f[n] + z + after;
    assert b == a + f[n] + [0] + (z[1..] + after + [flag] + o.rest) by {
      assert z == [0] + z[1..];
    }
    FieldText(b, a, f[n], z[1..] + after + [flag] + o.rest, at);
  }

  /** What the reader finds in a header block. */
  ghost predicate Fields(h: seq<byte>, name: seq<byte>, size: nat, mtime: nat, flag: byte) {
    && |h| == HEADER && !AllZero(h) && h[TYPE_AT] == flag
    && Text(h, 0) == name && Octal(Text(h, SIZE_AT)) == Ok(size) && Octal(Text(h, MTIME_AT)) == Ok(mtime)
  }

  lemma BlockFields(name: seq<byte>, size: nat, mtime: nat, flag: byte, o: Other, h: seq<byte>)
    requires ShortName(name) && Sized(o) && size < LIMIT && mtime < LIMIT
    requires h == Block(name, size, mtime, flag, o)[..HEADER]
    ensures Fields(h, name, size, mtime, flag)
  {
    FrontLength(name, size, mtime, o);
    BlockField(name, size, mtime, flag, o, 0, 0);
    BlockField(name, size, mtime, flag, o, 3, SIZE_AT);
    BlockField(name, size, mtime, flag, o, 5, MTIME_AT);
    OctalOfField(size);
    OctalOfField(mtime);
    assert Text(h, SIZE_AT) != [] && h[SIZE_AT] != 0;
  }

  // ---------------------------------------------------------------- round trip

  /** The archive from pos on starts with s. */
  predicate StartsAt(data: seq<byte>, pos: nat, s: seq<byte>)
    decreases |s|
  {
    pos <= |data| && (s != [] ==> pos < |data| && data[pos] == s[0] && StartsAt(data, pos + 1, s[1..]))
  }

  lemma {:induction false} StartsAtIsSlice(data: seq<byte>, pos: nat, s: seq<byte>)
    ensures StartsAt(data, pos, s) <==> pos + |s| <= |data| && data[pos..pos + |s|] == s
    decreases |s|
  {
    if s != [] && pos < |data| {
      StartsAtIsSlice(data, pos + 1, s[1..]);
      if pos + |s| <= |data| {
        assert data[pos..pos + |s|] == [data[pos]] + data[pos + 1..pos + |s|];
      }
    }
  }

  lemma SliceHead(data: seq<byte>, pos: nat, n: nat, m: nat)
    requires m <= n && pos + n <= |data|
    ensures data[pos..pos + n][..m] == data[pos..pos + m]
  {
  }

  lemma {:induction false} StartsWith(data: seq<byte>, pos: nat, a: seq<byte>, b: seq<byte>)
    requires StartsAt(data, pos, a + b)
    ensures StartsAt(data, pos, a) && StartsAt(data, pos + |a|, b)
    decreases |a|
  {
    if a == [] {
      assert a + b == b;
    } else {
      assert (a + b)[1..] == a[1..] + b;
      StartsWith(data, pos + 1, a[1..], b);
    }
  }

  /** Reading the bytes of a header block. */
  lemma BlockReads(data: seq<byte>, pos: nat, name: seq<byte>, size: nat, mtime: nat, flag: byte, o: Other)
    returns (bytes: seq<byte>)
    requires ShortName(name) && Sized(o) && size < LIMIT && mtime < LIMIT
    requires StartsAt(data, pos, Block(name, size, mtime, flag, o))
    ensures bytes == ReadAt(data, pos, HEADER) && Fields(bytes, name, size, mtime, flag)
  {
    var b := Block(name, size, mtime, flag, o);
    bytes := b[..HEADER];
    StartsAtIsSlice(data, pos, b);
    SliceHead(data, pos, |b|, HEADER);
    BlockFields(name, size, mtime, flag, o, bytes);
  }

  /** Reading a header block, with its payload after it. */
  lemma HeaderReads(data: seq<byte>, pos: nat, name: seq<byte>, mtime: nat, flag: byte, o: Other, payload: seq<byte>)
    returns (h: Header)
    requires ShortName(name) && Sized(o) && |payload| < LIMIT && mtime < LIMIT
    requires StartsAt(data, pos, Block(name, |payload|, mtime, flag, o) + Padded(payload))
    ensures ReadHeader(data, pos) == Ok(h) && Fields(h.bytes, name, |payload|, mtime, flag)
    ensures h.pos == pos + BLOCK && h.size == |payload| && StartsAt(data, h.pos, payload)
    ensures NextPos(pos, Ok(h)) == pos + BLOCK + |Padded(payload)|
  {
    StartsWith(data, pos, Block(name, |payload|, mtime, flag, o), Padded(payload));
    var bytes := BlockReads(data, pos, name, |payload|, mtime, flag, o);
    h := Header(bytes, pos + BLOCK, |payload|);
    assert StartsAt(data, h.pos, payload) by {
      StartsWith(data, h.pos, payload, Zeros(Align(|payload|) - |payload|));
    }
    AlignBlock(|payload|);
  }

  lemma AlignBlock(n: nat)
    ensures Align(BLOCK + n) == BLOCK + Align(n)
  {
    assert (BLOCK + n) / BLOCK == 1 + n / BLOCK && (BLOCK + n) % BLOCK == n % BLOCK;
  }

  /** A header that is no zero block and carries no name. */
  lemma PlainEntry(data: seq<byte>, pos: nat, h: Header, name: seq<byte>)
    requires ReadHeader(data, pos) == Ok(h) && !AllZero(h.bytes) && !CarriesName(h) && Text(h.bytes, 0) == name
    ensures ReadEntry(data, pos) == Read(ToEntry(h, name), NextPos(pos, Ok(h)))
  {
  }

  lemma HereReads(data: seq<byte>, pos: nat, e: Item)
    requires e.place.Here? && StartsAt(data, pos, Stored(e.name, e))
    ensures ReadEntry(data, pos) == Read(Ok(Expected(e, pos)), pos + Length(e))
  {
    var h := HeaderReads(data, pos, e.name, e.mtime, e.flag, e.other, e.payload);
    PlainEntry(data, pos, h, e.name);
    EntryIsExpected(e, e.name, h, pos, pos);
  }

  /** Reading an item's record gives the item back. */
  lemma RecordReads(data: seq<byte>, pos: nat, e: Item)
    requires StartsAt(data, pos, Record(e))
    ensures ReadEntry(data, pos) == Read(Ok(Expected(e, pos)), pos + Length(e))
  {
    if e.place.Here? {
      HereReads(data, pos, e);
    } else {
      LongReads(data, pos, e);
    }
  }

  /** A record with a name, and the header after it. */
  lemma NamedEntry(data: seq<byte>, pos: nat, h: Header, next: nat, g: Header, name: seq<byte>)
    requires ReadHeader(data, pos) == Ok(h) && !AllZero(h.bytes) && CarriesName(h) && NextPos(pos, Ok(h)) == next
    requires LongName(data, h) == name && ReadHeader(data, next) == Ok(g)
    ensures ReadEntry(data, pos) == Read(ToEntry(g, name), NextPos(next, Ok(g)))
  {
  }

  lemma LongNameReads(data: seq<byte>, name: seq<byte>, h: Header)
    requires h.size == |name| + 1 && StartsAt(data, h.pos, name + [0])
    ensures LongName(data, h) == name
  {
    StartsWith(data, h.pos, name, [0]);
    StartsAtIsSlice(data, h.pos, name);
    StartsAtIsSlice(data, h.pos, name + [0]);
  }

  lemma LongReads(data: seq<byte>, pos: nat, e: Item)
    requires e.place.Apart? && StartsAt(data, pos, Record(e))
    ensures ReadEntry(data, pos) == Read(Ok(Expected(e, pos)), pos + Length(e))
  {
    var long := Long(e.name, e.place.letter, e.place.mtime, e.place.other);
    StartsWith(data, pos, long, Stored(e.place.short, e));
    LongThenStored(data, pos, e, pos + |long|);
  }

  lemma LongThenStored(data: seq<byte>, pos: nat, e: Item, next: nat)
    requires e.place.Apart? && next == pos + |Long(e.name, e.place.letter, e.place.mtime, e.place.other)|
    requires StartsAt(data, pos, Long(e.name, e.place.letter, e.place.mtime, e.place.other))
    requires StartsAt(data, next, Stored(e.place.short, e))
    ensures ReadEntry(data, pos) == Read(Ok(Expected(e, pos)), pos + Length(e))
  {
    var h := LongHeaderReads(data, pos, e.name, e.place.letter, e.place.mtime, e.place.other);
    LongNameReads(data, e.name, h);
    var g := HeaderReads(data, next, e.place.short, e.mtime, e.flag, e.other, e.payload);
    NamedEntry(data, pos, h, next, g, e.name);
    EntryIsExpected(e, e.place.short, g, next, pos);
  }

  /** The header of an item gives its entry. */
  lemma EntryIsExpected(e: Item, name: seq<byte>, g: Header, at: nat, pos: nat)
    requires Fields(g.bytes, name, |e.payload|, e.mtime, e.flag)
    requires g.pos == at + BLOCK && g.size == |e.payload|
    requires at + BLOCK + Align(|e.payload|) == pos + Length(e)
    ensures ToEntry(g, e.name) == Ok(Expected(e, pos))
  {
  }

  lemma LongHeaderReads(data: seq<byte>, pos: nat, name: seq<byte>, letter: byte, mtime: nat, o: Other)
    returns (h: Header)
    requires Sized(o) && |name| + 1 < LIMIT && mtime < LIMIT && letter in [75, 76]
    requires StartsAt(data, pos, Long(name, letter, mtime, o))
    ensures ReadHeader(data, pos) == Ok(h) && !AllZero(h.bytes) && CarriesName(h)
    ensures h.size == |name| + 1 && StartsAt(data, h.pos, name + [0])
    ensures NextPos(pos, Ok(h)) == pos + |Long(name, letter, mtime, o)|
  {
    assert ShortName(LONG_LINK);
    h := HeaderReads(data, pos, LONG_LINK, mtime, letter, o, name + [0]);
  }

  lemma ZerosSplit(data: seq<byte>, pos: nat, m: nat, n: nat)
    requires StartsAt(data, pos, Zeros(m + n))
    ensures StartsAt(data, pos + m, Zeros(n))
  {
    assert Zeros(m + n) == Zeros(m) + Zeros(n);
    StartsWith(data, pos, Zeros(m), Zeros(n));
  }

  lemma ZeroHeader(data: seq<byte>, pos: nat, n: nat) returns (h: Header)
    requires StartsAt(data, pos, Zeros(n)) && n >= HEADER
    ensures ReadHeader(data, pos) == Ok(h) && AllZero(h.bytes) && h.size == 0
  {
    var bytes := Zeros(HEADER);
    StartsAtIsSlice(data, pos, Zeros(n));
    assert ReadAt(data, pos, HEADER) == bytes by {
      SliceHead(data, pos, n, HEADER);
    }
    assert Text(bytes, SIZE_AT) == [];
    h := Header(bytes, pos + BLOCK, 0);
  }

  lemma ZeroEntry(data: seq<byte>, pos: nat, h: Header)
    requires ReadHeader(data, pos) == Ok(h) && AllZero(h.bytes) && h.size == 0
    ensures ReadEntry(data, pos) == ReadEntry(data, pos + BLOCK)
  {
    assert NextPos(pos, Ok(h)) == pos + BLOCK;
  }

  lemma ZeroBlock(data: seq<byte>, pos: nat, k: nat)
    requires k > 0 && StartsAt(data, pos, Zeros(k * BLOCK))
    ensures ReadEntry(data, pos) == ReadEntry(data, pos + BLOCK)
    ensures StartsAt(data, pos + BLOCK, Zeros((k - 1) * BLOCK))
  {
    var h := ZeroHeader(data, pos, k * BLOCK);
    ZeroEntry(data, pos, h);
    ZerosSplit(data, pos, BLOCK, (k - 1) * BLOCK);
  }

  /** Zero blocks are passed over, wherever they stand. */
  lemma {:induction false} ZerosSkipped(data: seq<byte>, pos: nat, k: nat, end: nat)
    requires StartsAt(data, pos, Zeros(k * BLOCK)) && end == pos + k * BLOCK
    ensures ReadEntry(data, pos) == ReadEntry(data, end)
    decreases k
  {
    if k > 0 {
      ZeroBlock(data, pos, k);
      ZerosSkipped(data, pos + BLOCK, k - 1, end);
    }
  }

  /** Zero blocks, and the end of the archive, give no entry. */
  lemma EndReads(data: seq<byte>, pos: nat, k: nat)
    requires pos + k * BLOCK == |data| && StartsAt(data, pos, Zeros(k * BLOCK))
    ensures ReadEntry(data, pos).entry == Empty
  {
    ZerosSkipped(data, pos, k, |data|);
  }

  lemma SpacedParts(data: seq<byte>, pos: nat, e: Item, at: nat)
    requires StartsAt(data, pos, Spaced(e)) && at == pos + e.gap * BLOCK
    ensures StartsAt(data, pos, Zeros(e.gap * BLOCK)) && StartsAt(data, at, Record(e))
  {
    StartsWith(data, pos, Zeros(e.gap * BLOCK), Record(e));
  }

  lemma SkippedThenRead(data: seq<byte>, pos: nat, e: Item, at: nat)
    requires ReadEntry(data, pos) == ReadEntry(data, at) && StartsAt(data, at, Record(e))
    ensures ReadEntry(data, pos) == Read(Ok(Expected(e, at)), at + Length(e))
  {
    RecordReads(data, at, e);
  }

  /** An item's record after its zero blocks. */
  lemma SpacedReads(data: seq<byte>, pos: nat, e: Item, at: nat)
    requires StartsAt(data, pos, Spaced(e)) && at == pos + e.gap * BLOCK
    ensures ReadEntry(data, pos) == Read(Ok(Expected(e, at)), at + Length(e))
  {
    SpacedParts(data, pos, e, at);
    ZerosSkipped(data, pos, e.gap, at);
    SkippedThenRead(data, pos, e, at);
  }

  /** A record, and the archive after it. */
  lemma RecordThenRest(data: seq<byte>, pos: nat, e: Item, rest: seq<byte>, next: nat)
    requires StartsAt(data, pos, Spaced(e) + rest) && next == pos + e.gap * BLOCK + Length(e)
    ensures StartsAt(data, pos, Spaced(e)) && StartsAt(data, next, rest)
    ensures next + |rest| == pos + |Spaced(e) + rest|
  {
    RecordLength(e);
    StartsWith(data, pos, Spaced(e), rest);
  }

  lemma ArchiveParts(data: seq<byte>, pos: nat, es: seq<Item>, next: nat)
    requires es != [] && StartsAt(data, pos, Archive(es)) && next == pos + es[0].gap * BLOCK + Length(es[0])
    ensures StartsAt(data, pos, Spaced(es[0])) && StartsAt(data, next, Archive(es[1..]))
    ensures next + |Archive(es[1..])| == pos + |Archive(es)|
  {
    RecordThenRest(data, pos, es[0], Archive(es[1..]), next);
  }

  lemma ReadAllStep(data: seq<byte>, pos: nat, e: Entry, next: nat, more: seq<Result<Entry>>)
    requires ReadEntry(data, pos) == Read(Ok(e), next) && ReadAll(data, next) == more
    ensures ReadAll(data, pos) == [Ok(e)] + more
  {
  }

  lemma ExpectedUnfolds(es: seq<Item>, pos: nat, at: nat, rest: seq<Result<Entry>>)
    requires es != [] && at == pos + es[0].gap * BLOCK && rest == AllExpected(es[1..], at + Length(es[0]))
    ensures AllExpected(es, pos) == [Ok(Expected(es[0], at))] + rest
  {
  }

  lemma FirstReads(data: seq<byte>, pos: nat, e: Item, at: nat, x: Entry, next: nat, more: seq<Result<Entry>>)
    requires at == pos + e.gap * BLOCK && StartsAt(data, pos, Spaced(e))
    requires x == Expected(e, at) && next == at + Length(e) && ReadAll(data, next) == more
    ensures ReadAll(data, pos) == [Ok(x)] + more
  {
    SpacedReads(data, pos, e, at);
    ReadAllStep(data, pos, x, next, more);
  }

  lemma FirstOfArchive(data: seq<byte>, pos: nat, es: seq<Item>, at: nat, more: seq<Result<Entry>>)
    requires es != [] && StartsAt(data, pos, Archive(es)) && at == pos + es[0].gap * BLOCK
    requires ReadAll(data, at + Length(es[0])) == more
    ensures ReadAll(data, pos) == [Ok(Expected(es[0], at))] + more
  {
    ArchiveParts(data, pos, es, at + Length(es[0]));
    FirstReads(data, pos, es[0], at, Expected(es[0], at), at + Length(es[0]), more);
  }

  lemma ExpectedThenMore(es: seq<Item>, pos: nat, at: nat, rest: seq<Result<Entry>>, more: seq<Result<Entry>>)
    requires es != [] && at == pos + es[0].gap * BLOCK && rest == AllExpected(es[1..], at + Length(es[0]))
    ensures AllExpected(es, pos) + more == [Ok(Expected(es[0], at))] + (rest + more)
  {
    ExpectedUnfolds(es, pos, at, rest);
    Associate([Ok(Expected(es[0], at))], rest, more);
  }

  lemma FirstThenRest(data: seq<byte>, pos: nat, es: seq<Item>, at: nat, rest: seq<Result<Entry>>,
                      more: seq<Result<Entry>>)
    requires es != [] && StartsAt(data, pos, Archive(es)) && at == pos + es[0].gap * BLOCK
    requires rest == AllExpected(es[1..], at + Length(es[0])) && ReadAll(data, at + Length(es[0])) == rest + more
    ensures ReadAll(data, pos) == AllExpected(es, pos) + more
  {
    FirstOfArchive(data, pos, es, at, rest + more);
    ExpectedThenMore(es, pos, at, rest, more);
  }

  lemma NoItems(pos: nat, more: seq<Result<Entry>>)
    ensures Archive([]) == [] && AllExpected([], pos) + more == more
  {
  }

  /** The items are read, in order, and then whatever is read after them. */
  lemma {:induction false} ItemsRead(data: seq<byte>, pos: nat, es: seq<Item>, end: nat, more: seq<Result<Entry>>)
    requires StartsAt(data, pos, Archive(es)) && pos + |Archive(es)| == end && ReadAll(data, end) == more
    ensures ReadAll(data, pos) == AllExpected(es, pos) + more
    decreases |es|
  {
    if es == [] {
      NoItems(pos, more);
    } else {
      var at := pos + es[0].gap * BLOCK;
      var next := at + Length(es[0]);
      ArchiveParts(data, pos, es, next);
      ItemsRead(data, next, es[1..], end, more);
      FirstThenRest(data, pos, es, at, AllExpected(es[1..], next), more);
    }
  }

  lemma LastRead(data: seq<byte>, pos: nat, e: Result<Entry>)
    requires ReadEntry(data, pos).entry == e && !e.Ok?
    ensures ReadAll(data, pos) == [e]
  {
  }

  /** The round trip: reading an archive, followed by any number of zero blocks, gives
      exactly its items, in order, each with the offset of its payload, and then the
      empty result. */
  lemma ArchiveReads(data: seq<byte>, pos: nat, es: seq<Item>, k: nat)
    requires StartsAt(data, pos, Archive(es)) && pos + |Archive(es)| + k * BLOCK == |data|
    requires StartsAt(data, pos + |Archive(es)|, Zeros(k * BLOCK))
    ensures ReadAll(data, pos) == AllExpected(es, pos) + [Empty]
  {
    var end := pos + |Archive(es)|;
    EndReads(data, end, k);
    LastRead(data, end, Empty);
    ItemsRead(data, pos, es, end, [Empty]);
  }

  /** An archive that is cut within a header: the items before it are read, then the
      partial read is reported. */
  lemma CutArchiveReads(data: seq<byte>, pos: nat, es: seq<Item>)
    requires StartsAt(data, pos, Archive(es))
    requires pos + |Archive(es)| < |data| < pos + |Archive(es)| + HEADER
    ensures ReadAll(data, pos) == AllExpected(es, pos) + [Err(PartialRead)]
  {
    var end := pos + |Archive(es)|;
    assert ReadHeader(data, end) == Err(PartialRead);
    LastRead(data, end, Err(PartialRead));
    ItemsRead(data, pos, es, end, [Err(PartialRead)]);
  }

  lemma BadHeader(data: seq<byte>, pos: nat, i: nat)
    requires pos + HEADER <= |data|
    requires var size := Text(data[pos..][..HEADER], SIZE_AT); i < |size| && (size[i] < 48 || size[i] > 57)
    ensures ReadEntry(data, pos).entry == Err(OctalDecode)
  {
    assert ReadAt(data, pos, HEADER) == data[pos..][..HEADER];
    BadOctal(Text(data[pos..][..HEADER], SIZE_AT), i);
    assert ReadHeader(data, pos) == Err(OctalDecode);
  }

  /** A header whose size is no number ends the reading with that error. */
  lemma BadSizeReads(data: seq<byte>, pos: nat, es: seq<Item>, i: nat)
    requires StartsAt(data, pos, Archive(es)) && pos + |Archive(es)| + HEADER <= |data|
    requires var size := Text(data[pos + |Archive(es)|..][..HEADER], SIZE_AT);
      i < |size| && (size[i] < 48 || size[i] > 57)
    ensures ReadAll(data, pos) == AllExpected(es, pos) + [Err(OctalDecode)]
  {
    var end := pos + |Archive(es)|;
    BadHeader(data, end, i);
    LastRead(data, end, Err(OctalDecode));
    ItemsRead(data, pos, es, end, [Err(OctalDecode)]);
  }

  lemma {:induction false} BadOctal(s: seq<byte>, i: nat)
    requires i < |s| && (s[i] < 48 || s[i] > 57)
    ensures Octal(s) == Err(OctalDecode)
  {
    if i < |s| - 1 {
      BadOctal(s[..|s| - 1], i);
    } else {
      OctalOrError(s[..|s| - 1]);
    }
  }

  lemma {:induction false} OctalOrError(s: seq<byte>)
    ensures Octal(s).Ok? || Octal(s) == Err(OctalDecode)
  {
    if s != [] { OctalOrError(s[..|s| - 1]); }
  }

  /** And at that offset the payload itself is found. */
  lemma PayloadAt(data: seq<byte>, pos: nat, e: Item)
    requires StartsAt(data, pos, Record(e))
    ensures StartsAt(data, Expected(e, pos).offset, e.payload)
  {
    if e.place.Here? {
      StoredPayload(data, pos, e.name, e, Expected(e, pos).offset);
    } else {
      var long := Long(e.name, e.place.letter, e.place.mtime, e.place.other);
      StartsWith(data, pos, long, Stored(e.place.short, e));
      StoredPayload(data, pos + |long|, e.place.short, e, Expected(e, pos).offset);
    }
  }

  lemma StoredPayload(data: seq<byte>, pos: nat, name: seq<byte>, e: Item, at: nat)
    requires |name| < 100 && StartsAt(data, pos, Stored(name, e)) && at == pos + BLOCK
    ensures StartsAt(data, at, e.payload)
  {
    StartsWith(data, pos, Block(name, |e.payload|, e.mtime, e.flag, e.other), Padded(e.payload));
    StartsWith(data, at, e.payload, Zeros(Align(|e.payload|) - |e.payload|));
  }
}
