/** Reading a tar archive on values: the header fields, one header, one entry. */
module TarModel {

  type byte = x: int | 0 <= x < 256

  const BLOCK: nat := 512
  const HEADER: nat := 500
  const SIZE_AT: nat := 124
  const MTIME_AT: nat := 136
  const TYPE_AT: nat := 156

  datatype ErrorCode = PartialRead | OctalDecode

  /** A result that may also be empty. */
  datatype Result<T> = Empty | Ok(value: T) | Err(code: ErrorCode)

  datatype Kind = Unknown | File | Directory | Link

  datatype Header = Header(bytes: seq<byte>, pos: nat, size: nat)

  datatype Entry = Entry(name: seq<byte>, size: nat, kind: Kind, mtime: nat, offset: nat)

  /** The octal value of a field: every digit up to 9 is taken, anything else refused. */
  function Octal(s: seq<byte>): Result<nat> {
    if s == [] then Ok(0)
    else
      match Octal(s[..|s| - 1])
      case Ok(v) =>
        var ch := s[|s| - 1];
        if 48 <= ch <= 57 then Ok(8 * v + (ch - 48)) else Err(OctalDecode)
      case bad => bad
  }

  /** A field read as a string: up to the first zero byte. */
  function Text(h: seq<byte>, at: nat): seq<byte>
    decreases |h| - at
  {
    if at >= |h| || h[at] == 0 then [] else [h[at]] + Text(h, at + 1)
  }

  /** The next multiple of the block size. */
  function Align(n: nat): (m: nat)
    ensures n <= m < n + BLOCK && m % BLOCK == 0
  {
    var q, r := n / BLOCK, n % BLOCK;
    if r == 0 then n else (q + 1) * BLOCK
  }

  /** What a read of n bytes at a position gives. */
  function ReadAt(data: seq<byte>, pos: nat, n: nat): (r: seq<byte>)
    ensures |r| <= n && (r != [] ==> pos < |data|)
  {
    if pos >= |data| then [] else if pos + n <= |data| then data[pos..pos + n] else data[pos..]
  }

  predicate AllZero(s: seq<byte>) {
    forall i :: 0 <= i < |s| ==> s[i] == 0
  }

  function ReadHeader(data: seq<byte>, pos: nat): (r: Result<Header>)
    ensures r.Ok? ==> pos < |data| && |r.value.bytes| == HEADER
  {
    var h := ReadAt(data, pos, HEADER);
    if h == [] then Empty
    else if |h| < HEADER then Err(PartialRead)
    else
      match Octal(Text(h, SIZE_AT))
      case Ok(size) => Ok(Header(h, pos + BLOCK, size))
      case _ => Err(OctalDecode)
  }

  /** The position of the next header, after a read of the one at pos. */
  function NextPos(pos: nat, r: Result<Header>): (next: nat)
    ensures r.Ok? ==> next > pos
  {
    if r.Ok? then pos + Align(BLOCK + r.value.size) else pos
  }

  /** The type flags: '0', or a zero byte, for a file, '1' for a link and '5' for a directory;
      every other flag is unknown. */
  predicate Flags(kind: Kind, flag: byte) {
    match kind
    case File => flag == 48 || flag == 0
    case Link => flag == 49
    case Directory => flag == 53
    case Unknown => flag !in [0, 48, 49, 53]
  }

  function KindOf(flag: byte): Kind {
    if flag == 0 || flag == 48 then File
    else if flag == 49 then Link
    else if flag == 53 then Directory
    else Unknown
  }

  function ToEntry(h: Header, name: seq<byte>): Result<Entry>
    requires |h.bytes| == HEADER
  {
    match Octal(Text(h.bytes, MTIME_AT))
    case Ok(mtime) => Ok(Entry(name, h.size, KindOf(h.bytes[TYPE_AT]), mtime, h.pos))
    case _ => Err(OctalDecode)
  }

  /** The name in a long-name record, without its final zero byte. */
  function LongName(data: seq<byte>, h: Header): seq<byte> {
    ReadAt(data, h.pos, if h.size == 0 then 0 else h.size - 1)
  }

  /** A record that carries the name of the entry after it. */
  predicate CarriesName(h: Header)
    requires |h.bytes| == HEADER
  {
    h.bytes[TYPE_AT] == 75 || h.bytes[TYPE_AT] == 76
  }

  datatype Read = Read(entry: Result<Entry>, next: nat)

  function ReadEntry(data: seq<byte>, pos: nat): (r: Read)
    ensures r.next >= pos && (r.entry.Ok? ==> r.next > pos)
    decreases |data| - pos
  {
    match ReadHeader(data, pos)
    case Empty => Read(Empty, pos)
    case Err(code) => Read(Err(code), pos)
    case Ok(h) =>
      var next := NextPos(pos, Ok(h));
      if AllZero(h.bytes) then ReadEntry(data, next)
      else if CarriesName(h) then
        var inner := ReadHeader(data, next);
        match inner
        case Empty => Read(Empty, next)
        case Err(code) => Read(Err(code), next)
        case Ok(g) => Read(ToEntry(g, LongName(data, h)), NextPos(next, inner))
      else Read(ToEntry(h, Text(h.bytes, 0)), next)
  }

  /** Entry after entry, until the archive is empty or an error stops the reading. */
  function ReadAll(data: seq<byte>, pos: nat): seq<Result<Entry>>
    decreases |data| - pos
  {
    var r := ReadEntry(data, pos);
    if r.entry.Ok? then [r.entry] + ReadAll(data, r.next) else [r.entry]
  }
}
