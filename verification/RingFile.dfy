/** The ring-buffer file updated in place: bytes in a mapped region shared by a
    writer and readers, each with its own copy of the cursors. */
module RingFile {
  import opened RingModel
  import opened RingProofs

  /** The mapped file: the shared cursor and the ring of entries. */
  class Storage {
    const bytes: array<byte>
    var head: nat
    var tail: nat
    /** What has been written so far and where. */
    ghost var log: Log

    ghost function Contents(): Ring
      reads this, bytes
    {
      Ring(bytes[..], Cursor(head, tail))
    }

    ghost predicate Valid()
      reads this, bytes
    {
      Holds(Contents(), log)
    }

    constructor (size: nat)
      requires size >= PREFIX
      ensures Valid() && fresh(bytes) && bytes.Length == size && log == Log([], [0], 0)
    {
      bytes := new byte[size](_ => 0);
      head, tail := 0, 0;
      log := Log([], [0], 0);
    }

    method PutBytes(p: nat, data: seq<byte>)
      requires p + |data| <= bytes.Length
      modifies bytes
      ensures bytes[..] == Patch(old(bytes[..]), p, data)
    {
      for i := 0 to |data|
        invariant bytes[..p] == old(bytes[..p])
        invariant bytes[p..p + i] == data[..i]
        invariant bytes[p + i..] == old(bytes[p + i..])
      {
        bytes[p + i] := data[i];
      }
    }

    method ZeroFrom(p: nat)
      requires p <= bytes.Length
      modifies bytes
      ensures bytes[..] == Patch(old(bytes[..]), p, Zeros(bytes.Length - p))
    {
      for i := p to bytes.Length
        invariant bytes[..p] == old(bytes[..p])
        invariant forall j :: p <= j < i ==> bytes[j] == 0
      {
        bytes[i] := 0;
      }
    }

    function SizeField(p: nat): (size: nat)
      requires p + PREFIX <= bytes.Length
      reads bytes
      ensures size == SizeAt(bytes[..], p)
    {
      assert bytes[p..p + PREFIX] == bytes[..][p..p + PREFIX];
      BytesSize(bytes[p..p + PREFIX])
    }

    function Stretch(p: nat, q: nat): (s: seq<byte>)
      requires p <= q <= bytes.Length
      reads bytes
      ensures s == bytes[..][p..q]
    {
      bytes[p..q]
    }

    /** No entry starts at this place: the entry pointer is null, or its size zero. */
    predicate NoEntry(p: nat)
      requires p < bytes.Length
      reads bytes
    {
      p + PREFIX > bytes.Length || SizeField(p) == 0
    }
  }

  class RingBufferFile {
    const storage: Storage
    const padding: nat
    var head: nat
    var tail: nat

    /** The shared bytes under this object's own cursor. */
    ghost function Mine(): Ring
      reads this, storage, storage.bytes
    {
      Ring(storage.bytes[..], Cursor(head, tail))
    }

    /** The next record this object would read, as a position in the history. */
    ghost var next: nat

    /** The cursor stands before record next. */
    ghost predicate AtBoundary()
      reads this, storage, storage.bytes
    {
      storage.Valid() && next <= |storage.log.hist| && head == storage.log.pos[next]
    }

    /** Opening takes a copy of the file's cursor. */
    constructor (storage: Storage, padding: nat)
      requires storage.Valid()
      ensures this.storage == storage && this.padding == padding
      ensures Mine() == storage.Contents() && AtBoundary() && next == storage.log.first
    {
      this.storage, this.padding := storage, padding;
      head, tail, next := storage.head, storage.tail, storage.log.first;
    }

    /** Past a wrap: zeroes the skipped end and moves the head to the start. */
    method SkipEnd()
      requires storage.bytes.Length >= PREFIX
      modifies this`head, storage.bytes
      ensures Mine() == Ring(Cleared(old(Mine().mem), old(head)), Cursor(EntryStart(old(Mine().mem), old(head)), tail))
    {
      var n := storage.bytes.Length;
      var place := Slot(head, n);
      if storage.NoEntry(place) {
        storage.ZeroFrom(place);
        head := head + ToEnd(head, n);
      }
    }

    method EvictHead()
      requires storage.bytes.Length >= PREFIX
      modifies this`head, storage.bytes
      ensures Mine() == Evict(old(Mine()))
    {
      SkipEnd();
      var place := Slot(head, storage.bytes.Length);
      var size := storage.SizeField(place);
      storage.PutBytes(place, SizeBytes(0));
      head := head + PREFIX + size;
    }

    /** The eviction loop of a write. */
    method KeepRoom(room: nat)
      requires PREFIX <= storage.bytes.Length && room < storage.bytes.Length
      modifies this`head, storage.bytes
      ensures Mine() == MakeRoom(old(Mine()), room)
    {
      while tail - head + room >= storage.bytes.Length
        invariant MakeRoom(Mine(), room) == MakeRoom(old(Mine()), room)
        decreases tail - head
      {
        EvictHead();
      }
    }

    /** The entry at a place of the ring. */
    method PutAt(p: nat, src: seq<byte>)
      requires |src| < SIZE_LIMIT && p + PREFIX + |src| <= storage.bytes.Length
      modifies storage.bytes
      ensures storage.bytes[..] == PutEntry(old(storage.bytes[..]), p, src)
      ensures storage.bytes[p + PREFIX..p + PREFIX + |src|] == src
    {
      EntryReads(storage.bytes[..], p, src, PutEntry(storage.bytes[..], p, src));
      storage.PutBytes(p + PREFIX, src);
      storage.PutBytes(p, SizeBytes(|src|));
    }

    /** Where an entry of needed bytes goes: at the tail, or at the start of the ring
        after stamping a zero size at the tail so that readers go round. */
    method Seek(needed: nat) returns (place: nat)
      requires PREFIX <= needed <= storage.bytes.Length
      modifies this`tail, storage.bytes
      ensures place == EntryPlace(old(tail), needed, storage.bytes.Length)
      ensures tail == old(tail) + Extra(old(tail), needed, storage.bytes.Length)
      ensures storage.bytes[..] == Stamped(old(storage.bytes[..]), old(tail), needed)
    {
      var n := storage.bytes.Length;
      var toEnd := ToEnd(tail, n);
      if toEnd < needed {
        if toEnd >= PREFIX {
          storage.PutBytes(Slot(tail, n), SizeBytes(0));
        }
        tail := tail + toEnd;
      }
      place := Slot(tail, n);
    }

    /** Places the entry and publishes the cursor; returns the place of its payload. */
    method PlaceEntry(src: seq<byte>) returns (at: nat)
      requires storage.bytes.Length >= PREFIX && 0 < |src| < SIZE_LIMIT && PREFIX + |src| <= storage.bytes.Length
      modifies this`tail, storage.bytes, storage`head, storage`tail
      ensures Mine() == storage.Contents() == Place(old(Mine()), src)
      ensures at + |src| <= storage.bytes.Length && storage.bytes[at..at + |src|] == src
    {
      var place := Seek(PREFIX + |src|);
      PutAt(place, src);
      at := place + PREFIX;
      tail := tail + PREFIX + |src|;
      storage.head, storage.tail := head, tail;
    }

    /** write, by the one object whose cursor is the file's: the record is appended
        to the log, evicting oldest records only while it does not fit. */
    method Write(src: seq<byte>) returns (at: nat)
      requires storage.Valid() && Mine() == storage.Contents() && Fits(Mine(), src, padding)
      modifies this, storage, storage.bytes
      ensures Mine() == storage.Contents() == RingModel.Write(old(Mine()), src, padding)
      ensures storage.Valid()
      ensures Appended(old(Mine()), old(storage.log), src, padding, Mine(), storage.log)
      ensures at + |src| <= storage.bytes.Length && storage.bytes[at..at + |src|] == src
    {
      ghost var r, log := Mine(), storage.log;
      at := WriteBytes(src);
      ghost var log' := WriteAppends(r, log, src, padding, Mine());
      storage.log := log';
    }

    method WriteBytes(src: seq<byte>) returns (at: nat)
      requires Fits(Mine(), src, padding)
      modifies this`head, this`tail, storage`head, storage`tail, storage.bytes
      ensures Mine() == RingModel.Write(old(Mine()), src, padding)
      ensures Mine() == storage.Contents()
      ensures at + |src| <= storage.bytes.Length && storage.bytes[at..at + |src|] == src
    {
      var needed := PREFIX + |src|;
      var toEnd := ToEnd(tail, storage.bytes.Length);
      var extra := if toEnd < needed then toEnd else 0;
      var room := extra + needed + padding;
      ghost var r := Mine();
      assert room == Room(r, src, padding);
      KeepRoom(room);
      ghost var roomy := Mine();
      at := PlaceEntry(src);
      WriteIs(r, src, padding, roomy, Mine());
    }

    /** read: the next record still stored, in order, or nothing exactly when the
        cursor has reached the tail. */
    method Read() returns (data: seq<byte>)
      requires AtBoundary()
      modifies this
      ensures AtBoundary()
      ensures var at := if old(next) < storage.log.first then storage.log.first else old(next);
              if at == |storage.log.hist| then data == [] && next == at && head == storage.tail
              else data == storage.log.hist[at] != [] && next == at + 1
    {
      ghost var file, log := storage.Contents(), storage.log;
      ReadSpec(file, log, Cursor(head, tail), next);
      data := ReadBytes();
      ghost var at := if next < log.first then log.first else next;
      next := if data == [] then at else at + 1;
      assert storage.Contents() == file && storage.log == log;
    }

    method ReadBytes() returns (data: seq<byte>)
      requires Readable(storage.Contents(), Cursor(head, tail))
      modifies this`head, this`tail
      ensures RingModel.Read(old(storage.Contents()), old(Cursor(head, tail))) == ReadResult(Cursor(head, tail), data)
    {
      if storage.head > head {
        // The cursor is out of date.
        head, tail := storage.head, storage.tail;
      }
      if head >= storage.tail { return []; }
      data := ReadEntry();
    }

    /** Past a wrap: moves the head to the start, if no entry starts at its place. */
    method GoRound()
      requires storage.bytes.Length >= PREFIX
      modifies this`head
      ensures head == EntryStart(storage.bytes[..], old(head))
    {
      var n := storage.bytes.Length;
      if storage.NoEntry(Slot(head, n)) {
        head := head + ToEnd(head, n);
      }
    }

    /** The entry at a cursor that is up to date. */
    method ReadEntry() returns (data: seq<byte>)
      requires Readable(storage.Contents(), Cursor(head, tail)) && storage.head <= head < storage.tail
      modifies this`head
      ensures RingModel.Read(storage.Contents(), old(Cursor(head, tail))) == ReadResult(Cursor(head, tail), data)
    {
      GoRound();
      if head >= storage.tail { return []; }
      var place := Slot(head, storage.bytes.Length);
      var size := storage.SizeField(place);
      data := storage.Stretch(place + PREFIX, place + PREFIX + size);
      head := head + PREFIX + size;
    }
  }
}
