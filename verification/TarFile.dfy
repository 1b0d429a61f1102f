/** tar_reader: a position in an archive, moved by every header that is read. */
module TarFile {
  import opened TarModel

  /** The decimal value of an octal field, digit by digit. */
  method DecodeOctal(src: seq<byte>) returns (r: Result<nat>)
    ensures r == Octal(src)
  {
    var dec: nat := 0;
    for i := 0 to |src|
      invariant Octal(src[..i]) == Ok(dec)
    {
      assert src[..i + 1][..i] == src[..i];
      dec := 8 * dec;
      if src[i] < 48 || src[i] > 57 {
        OctalRefuses(src, i);
        return Err(OctalDecode);
      }
      dec := dec + (src[i] - 48);
    }
    assert src[..|src|] == src;
    r := Ok(dec);
  }

  /** A refused prefix refuses the whole field. */
  lemma {:induction false} OctalRefuses(s: seq<byte>, i: nat)
    requires i < |s| && Octal(s[..i]).Ok? && (s[i] < 48 || s[i] > 57)
    ensures Octal(s) == Err(OctalDecode)
    decreases |s|
  {
    if i + 1 < |s| {
      assert s[..|s| - 1][..i] == s[..i];
      OctalRefuses(s[..|s| - 1], i);
    } else {
      assert s[..|s| - 1] == s[..i];
    }
  }

  /** A field decodes if and only if it has decimal digits only: 8 and 9 are accepted
      though they are no octal digits. */
  lemma {:induction false} OctalTakesDecimalDigits(s: seq<byte>)
    ensures Octal(s).Ok? <==> forall i :: 0 <= i < |s| ==> 48 <= s[i] <= 57
    decreases |s|
  {
    if s != [] {
      OctalTakesDecimalDigits(s[..|s| - 1]);
      assert forall i :: 0 <= i < |s| - 1 ==> s[..|s| - 1][i] == s[i];
    }
  }

  class TarReader {
    const data: seq<byte>
    var nextPos: nat

    constructor (data: seq<byte>)
      ensures this.data == data && nextPos == 0
    {
      this.data := data;
      nextPos := 0;
    }

    /** Reads the header at the position and moves past it and its payload; at the end
        of the archive, or on an error, the position stays. */
    method NextHeader() returns (r: Result<Header>)
      modifies this
      ensures r == ReadHeader(data, old(nextPos)) && nextPos == NextPos(old(nextPos), r)
    {
      var h := ReadAt(data, nextPos, HEADER);
      if |h| == 0 {
        return Empty;
      }
      if |h| < HEADER {
        return Err(PartialRead);
      }
      var size := DecodeOctal(Text(h, SIZE_AT));
      if !size.Ok? {
        return Err(OctalDecode);
      }
      r := Ok(Header(h, nextPos + BLOCK, size.value));
      nextPos := nextPos + Align(BLOCK + size.value);
    }

    /** Reads the next entry: zero headers are passed over, and a record with a long name
        names the entry after it. */
    method NextEntry() returns (r: Result<Entry>)
      modifies this
      ensures Read(r, nextPos) == ReadEntry(data, old(nextPos))
    {
      ghost var start := nextPos;
      var h := NextHeader();
      while h.Ok? && AllZero(h.value.bytes)
        invariant h == ReadHeader(data, start) && nextPos == NextPos(start, h)
        invariant ReadEntry(data, start) == ReadEntry(data, old(nextPos))
        decreases |data| - start
      {
        start := nextPos;
        h := NextHeader();
      }
      match h
      case Empty => return Empty;
      case Err(code) => return Err(code);
      case Ok(g) =>
        if CarriesName(g) {
          var name := LongName(data, g);
          h := NextHeader();
          match h
          case Empty => return Empty;
          case Err(code) => return Err(code);
          case Ok(f) => r := Convert(f, name);
        } else {
          r := Convert(g, Text(g.bytes, 0));
        }
    }

    /** convert_to_entry. */
    method Convert(h: Header, name: seq<byte>) returns (r: Result<Entry>)
      requires |h.bytes| == HEADER
      ensures r == ToEntry(h, name)
      ensures r.Ok? ==> r.value.name == name && Flags(r.value.kind, h.bytes[TYPE_AT])
    {
      var mtime := DecodeOctal(Text(h.bytes, MTIME_AT));
      if !mtime.Ok? {
        return Err(OctalDecode);
      }
      r := Ok(Entry(name, h.size, KindOf(h.bytes[TYPE_AT]), mtime.value, h.pos));
    }
  }
}
