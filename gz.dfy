/** The gzip decoder of src/parser/gz.ts over the `Helper` cursor, after section 2.3 of
    RFC 1952: the ten-byte fixed header, the optional parts its FLG byte announces (extra
    field, file name, file comment, header CRC), the compressed data and the eight-byte
    trailer, all under one `gzip` region that spans the file. */
module Gz {
  import opened Wrappers
  import opened CommonUtil
  import opened Dom
  import opened Parser

  const GzipSignature: seq<byte> := [0x1F, 0x8B]

  /** The FLG bits of section 2.3.1 of RFC 1952. */
  const FTEXT := 1
  const FHCRC := 2
  const FEXTRA := 4
  const FNAME := 8
  const FCOMMENT := 16

  /** `isSupportedFile`: the file starts with 1F 8B. The byte view of a shorter buffer throws. */
  function IsSupportedFile(buf: seq<byte>): (r: Result<bool>)
    ensures r.Ok? <==> |buf| >= 2
    ensures r.Err? ==> r.error == RangeError
    ensures r.Ok? ==> (r.value <==> buf[0] == 0x1F && buf[1] == 0x8B)
  {
    if |buf| >= 2 then SliceIsData(buf, 0, GzipSignature); CheckContentSpec(buf, 0, GzipSignature)
    else CheckContentSpec(buf, 0, GzipSignature)
  }

  /** `v & bit` is not zero, for a flag byte `v` and a one-bit mask `bit`. */
  predicate HasFlag(v: int, bit: nat)
    requires bit > 0
  {
    (v / bit) % 2 == 1
  }

  /** The regions an optional part read and the position it left the cursor at. */
  datatype Run = Run(regions: seq<Region>, next: int)

  /** The regions read so far in front of the outcome of the rest of a walk. */
  function Then(done: seq<Region>, rest: Result<Run>): Result<Run>
  {
    if rest.Err? then rest else Ok(Run(done + rest.value.regions, rest.value.next))
  }

  /** The outcome of a cursor method that ends at `position`, as the spec functions state it. */
  function Carved(r: Result<seq<Region>>, position: int): Result<Run>
  {
    if r.Ok? then Ok(Run(r.value, position)) else Err(r.error)
  }

  /** `createGeneralRegion` over `[start, end)`, little-endian. */
  function GeneralRegion(id: string, start: int, end: int): Region
  {
    Region(id, General, "", start, end, Some(LE), None, None, None, NoChildren)
  }

  /** A compound region without endian or value over the given children. */
  function CompoundRegion(id: string, description: string, start: int, end: int, kids: seq<Region>): Region
  {
    Region(id, Compound, description, start, end, None, None, None, None, Sub(kids))
  }

  // The fixed header

  /** Signature [0,2), CompressionMethod 2, Flag 3, the modification time [4,8), ExtraFlag 8
      and OS 9, little-endian. */
  function FixedHeader(buf: seq<byte>): Result<seq<Region>>
  {
    var signature := Region("Signature", General, "GZip file magic header", 0, 2, Some(LE), None, None, None, NoChildren);
    var cm :- NumberRegion(buf, LE, 2, 1, "CompressionMethod", "Compression method", false, Number);
    var flag :- NumberRegion(buf, LE, 3, 1, "Flag", "", false, Flag);
    var mtime :- NumberRegion(buf, LE, 4, 4, "Motification time", "", false, Time);
    var xfl :- NumberRegion(buf, LE, 8, 1, "ExtraFlag", "", false, Flag);
    var os :- NumberRegion(buf, LE, 9, 1, "OS", "", false, Number);
    Ok([signature, cm, flag, mtime, xfl, os])
  }

  /** `Number(flag.numValue)`: the flag byte as the header read it. */
  function Flags(header: seq<Region>): int
  {
    if |header| > 2 && header[2].numValue.Some? then header[2].numValue.value else 0
  }

  // The optional parts

  /** One iteration of `parseExtraContent` at `pos`: SI (two bytes of text), LEN (two
      bytes), then LEN bytes of content, under an `ExtraField` compound spanning all three. */
  function ExtraField(text: TextDecoder, buf: seq<byte>, pos: int): (r: Result<Region>)
    ensures r.Ok? ==> r.value.startPos == pos && r.value.endPos >= pos + 4
  {
    var si := Region("SI", Str, "", pos, pos + 2, Some(LE), None, Some(StringValue(text, "utf-8", buf, pos, 2, false)),
                     None, NoChildren);
    var len :- NumberRegion(buf, LE, pos + 2, 2, "LEN", "", false, Size);
    var size := len.numValue.value;
    var content := GeneralRegion("ExtraContent", pos + 4, pos + 4 + size);
    Ok(CompoundRegion("ExtraField", "", pos, pos + 4 + size, [si, len, content]))
  }

  /** `parseExtraContent` from `pos` while the position is below `end`: the subfields and the
      position after the last one, which may lie past `end`. */
  function ExtraFields(text: TextDecoder, buf: seq<byte>, pos: int, end: int): Result<Run>
    decreases end - pos
  {
    if pos >= end then Ok(Run([], pos))
    else
      var field :- ExtraField(text, buf, pos);
      Then([field], ExtraFields(text, buf, field.endPos, end))
  }

  /** The FEXTRA block at `pos`: XLEN, then the subfields of the XLEN bytes after it, under an
      `ExtraFields` compound that starts at `pos` and ends where the subfields left the cursor. */
  function ExtraPart(text: TextDecoder, buf: seq<byte>, flags: int, pos: int): Result<Run>
  {
    if !HasFlag(flags, FEXTRA) then Ok(Run([], pos))
    else
      var xlen :- NumberRegion(buf, LE, pos, 2, "XLEN", "", false, Size);
      var fields :- ExtraFields(text, buf, pos + 2, pos + 2 + xlen.numValue.value);
      Ok(Run([CompoundRegion("ExtraFields", "", pos, fields.next, [xlen] + fields.regions)], fields.next))
  }

  /** The FNAME or FCOMMENT block at `pos`, when its flag is set: a zero-terminated string
      region named `id`, which cannot throw. */
  function StringPart(text: TextDecoder, buf: seq<byte>, flags: int, bit: nat, id: string, pos: int): Run
    requires bit > 0
  {
    if !HasFlag(flags, bit) then Run([], pos)
    else
      var end := ZeroTerminatedEnd(buf, pos);
      Run([Region(id, Str, "", pos, end, Some(LE), None, Some(StringValue(text, "utf-8", buf, pos, end - pos, true)),
                  None, NoChildren)], end)
  }

  /** The two-byte header CRC at `pos`, read when flag bit `crcBit` is set. */
  function HeaderCrcPart(buf: seq<byte>, flags: int, crcBit: nat, pos: int): Result<Run>
    requires crcBit > 0
  {
    if !HasFlag(flags, crcBit) then Ok(Run([], pos))
    else
      var crc :- NumberRegion(buf, LE, pos, 2, "FHCRC", "", false, Number);
      Ok(Run([crc], pos + 2))
  }

  // The trailer

  /** Where the compressed data that starts at `pos` ends: eight bytes before the end of the
      buffer, unless its length `byteLength - 8 - pos` is -1, which reads as "to the end". */
  function DataEnd(buf: seq<byte>, pos: int): int
  {
    if |buf| - 8 - pos == -1 then |buf| else |buf| - 8
  }

  /** The compressed data from `pos`, then CRC32 and ISIZE, four bytes each. */
  function Trailer(buf: seq<byte>, pos: int): Result<seq<Region>>
  {
    var end := DataEnd(buf, pos);
    var data := GeneralRegion("Compressed Data", pos, end);
    var crc :- NumberRegion(buf, LE, end, 4, "CRC32", "", false, Number);
    var isize :- NumberRegion(buf, LE, end + 4, 4, "ISIZE", "", false, Number);
    Ok([data, crc, isize])
  }

  // The whole file

  /** What `parse` returns when the header CRC is gated on flag bit `crcBit`: one `gzip`
      region spanning its children, which are the fixed header, the optional parts the flags
      announce, in the order extra field, file name, file comment, header CRC, and the
      trailer. */
  function Layout(text: TextDecoder, buf: seq<byte>, crcBit: nat): Result<seq<Region>>
    requires crcBit > 0
  {
    var header :- FixedHeader(buf);
    var flags := Flags(header);
    var extra :- ExtraPart(text, buf, flags, 10);
    var name := StringPart(text, buf, flags, FNAME, "FileName", extra.next);
    var comment := StringPart(text, buf, flags, FCOMMENT, "FileComment", name.next);
    var crc :- HeaderCrcPart(buf, flags, crcBit, comment.next);
    var trailer :- Trailer(buf, crc.next);
    var all := header + extra.regions + name.regions + comment.regions + crc.regions + trailer;
    Ok([CompoundRegion("gzip", "gzip file format", all[0].startPos, all[|all| - 1].endPos, all)])
  }

  /** `parse` as written: the header CRC is read when the FTEXT bit (1) is set. */
  function GzipRegions(text: TextDecoder, buf: seq<byte>): Result<seq<Region>>
  {
    Layout(text, buf, FTEXT)
  }

  /** `parse` with the header CRC gated on FHCRC (2), as section 2.3.1 of RFC 1952 has it. */
  function CorrectedGzipRegions(text: TextDecoder, buf: seq<byte>): Result<seq<Region>>
  {
    Layout(text, buf, FHCRC)
  }

  lemma ThenNil(rest: Result<Run>)
    ensures Then([], rest) == rest
  {
    if rest.Ok? {
      assert [] + rest.value.regions == rest.value.regions;
    }
  }

  /** Putting regions in front twice is putting them in front once. */
  lemma ThenThen(done: seq<Region>, more: seq<Region>, rest: Result<Run>)
    ensures Then(done, Then(more, rest)) == Then(done + more, rest)
  {
    if rest.Ok? {
      assert done + (more + rest.value.regions) == done + more + rest.value.regions;
    }
  }

  /** `parse` given the outcome of each of its parts. */
  lemma LayoutIs(text: TextDecoder, buf: seq<byte>, crcBit: nat, header: seq<Region>, extra: Run, name: Run,
                 comment: Run, crc: Run, trailer: seq<Region>)
    requires crcBit > 0
    requires FixedHeader(buf) == Ok(header) && ExtraPart(text, buf, Flags(header), 10) == Ok(extra)
    requires name == StringPart(text, buf, Flags(header), FNAME, "FileName", extra.next)
    requires comment == StringPart(text, buf, Flags(header), FCOMMENT, "FileComment", name.next)
    requires HeaderCrcPart(buf, Flags(header), crcBit, comment.next) == Ok(crc)
    requires Trailer(buf, crc.next) == Ok(trailer)
    ensures var all := header + extra.regions + name.regions + comment.regions + crc.regions + trailer;
            Layout(text, buf, crcBit) == Ok([CompoundRegion("gzip", "gzip file format", all[0].startPos, all[|all| - 1].endPos, all)])
  {
    var all := header + extra.regions + name.regions + comment.regions + crc.regions + trailer;
    assert Layout(text, buf, crcBit).value == [CompoundRegion("gzip", "gzip file format", all[0].startPos, all[|all| - 1].endPos, all)];
  }

  // The decoder, call by call

  /** The six rows of the fixed header. */
  method ParseFixedHeader(p: Helper, ghost buf: seq<byte>) returns (r: Result<seq<Region>>)
    requires p.buffer == buf && p.endian == LE
    modifies p
    ensures r == FixedHeader(buf)
    ensures r.Ok? ==> p.position == 10
    ensures p.endian == LE && p.textEncoding == old(p.textEncoding)
  {
    var signature := p.CreateGeneralRegion(0, 2, "Signature", "GZip file magic header");
    var cm := p.CreateNumberRegion(2, 1, "CompressionMethod", "Compression method", false, Number);
    if cm.Err? {
      return Err(cm.error);
    }
    var flag := p.CreateFlagRegion(3, 1, "Flag", "");
    if flag.Err? {
      return Err(flag.error);
    }
    var mtime := p.CreateTimeRegion(4, 4, "Motification time", "");
    if mtime.Err? {
      return Err(mtime.error);
    }
    var xfl := p.CreateFlagRegion(8, 1, "ExtraFlag", "");
    if xfl.Err? {
      return Err(xfl.error);
    }
    var os := p.CreateNumberRegion(9, 1, "OS", "", false, Number);
    if os.Err? {
      return Err(os.error);
    }
    return Ok([signature, cm.value, flag.value, mtime.value, xfl.value, os.value]);
  }

  /** One iteration of the `parseExtraContent` loop; the length of the content is read back
      from the cached LEN region. */
  method ParseExtraField(p: Helper, ghost text: TextDecoder, ghost buf: seq<byte>) returns (r: Result<Region>)
    requires p.buffer == buf && p.text == text && p.endian == LE && p.textEncoding == "utf-8"
    modifies p
    ensures r == ExtraField(text, buf, old(p.position))
    ensures r.Ok? ==> p.position == r.value.endPos
    ensures p.endian == LE && p.textEncoding == "utf-8"
  {
    var si := p.CreateStringRegion(-1, 2, "SI", "", None, false);
    var len := p.CreateSizeRegion(-1, 2, "LEN", "");
    if len.Err? {
      return Err(len.error);
    }
    var size := p.regionCache["LEN"].numValue.value;
    var content := p.CreateGeneralRegion(-1, size, "ExtraContent", "");
    var field := p.CreateCompoundRegion(-1, -1, "ExtraField", "", [si, len.value, content]);
    return Ok(field);
  }

  /** `parseExtraContent(p, len)`: subfields while the position is below its start plus `len`. */
  method ParseExtraContent(p: Helper, len: int, ghost text: TextDecoder, ghost buf: seq<byte>)
    returns (r: Result<seq<Region>>)
    requires p.buffer == buf && p.text == text && p.endian == LE && p.textEncoding == "utf-8"
    modifies p
    ensures Carved(r, p.position) == ExtraFields(text, buf, old(p.position), old(p.position) + len)
    ensures p.endian == LE && p.textEncoding == "utf-8"
  {
    ghost var start := p.position;
    var regions: seq<Region> := [];
    var endPos := p.position + len;
    ThenNil(ExtraFields(text, buf, start, endPos));
    while p.position < endPos
      invariant p.buffer == buf && p.text == text && p.endian == LE && p.textEncoding == "utf-8"
      invariant ExtraFields(text, buf, start, endPos) == Then(regions, ExtraFields(text, buf, p.position, endPos))
      decreases endPos - p.position
    {
      ghost var pos := p.position;
      var field := ParseExtraField(p, text, buf);
      if field.Err? {
        return Err(field.error);
      }
      ThenThen(regions, [field.value], ExtraFields(text, buf, p.position, endPos));
      regions := regions + [field.value];
    }
    assert regions + [] == regions;
    return Ok(regions);
  }

  /** The FEXTRA block: an `ExtraFields` compound opened empty at the cursor, then XLEN and the
      subfields, and its end set to where they left the cursor. */
  method ParseExtraPart(p: Helper, flags: int, ghost text: TextDecoder, ghost buf: seq<byte>)
    returns (r: Result<seq<Region>>)
    requires p.buffer == buf && p.text == text && p.endian == LE && p.textEncoding == "utf-8"
    modifies p
    ensures Carved(r, p.position) == ExtraPart(text, buf, flags, old(p.position))
    ensures p.endian == LE && p.textEncoding == "utf-8"
  {
    if !HasFlag(flags, FEXTRA) {
      return Ok([]);
    }
    ghost var pos := p.position;
    var extra := p.CreateCompoundRegion(-1, 0, "ExtraFields", "", []);
    var xlen := p.CreateSizeRegion(-1, 2, "XLEN", "");
    if xlen.Err? {
      return Err(xlen.error);
    }
    var fields := ParseExtraContent(p, xlen.value.numValue.value, text, buf);
    if fields.Err? {
      return Err(fields.error);
    }
    extra := extra.(children := Sub([xlen.value] + fields.value), endPos := p.position);
    assert extra == CompoundRegion("ExtraFields", "", pos, p.position, [xlen.value] + fields.value);
    return Ok([extra]);
  }

  /** The FNAME or FCOMMENT block: a zero-terminated string when its flag is set. */
  method ParseStringPart(p: Helper, flags: int, bit: nat, id: string, ghost text: TextDecoder, ghost buf: seq<byte>)
    returns (regions: seq<Region>)
    requires bit > 0
    requires p.buffer == buf && p.text == text && p.endian == LE && p.textEncoding == "utf-8"
    modifies p
    ensures Run(regions, p.position) == StringPart(text, buf, flags, bit, id, old(p.position))
    ensures p.endian == LE && p.textEncoding == "utf-8"
  {
    if !HasFlag(flags, bit) {
      return [];
    }
    var s := p.CreateZeroTerminatedStringRegion(-1, id, "", None);
    return [s];
  }

  /** The header CRC block as written: two bytes read when the FTEXT bit is set. */
  method ParseHeaderCrc(p: Helper, flags: int, ghost buf: seq<byte>) returns (r: Result<seq<Region>>)
    requires p.buffer == buf && p.endian == LE
    modifies p
    ensures Carved(r, p.position) == HeaderCrcPart(buf, flags, FTEXT, old(p.position))
    ensures p.endian == LE && p.textEncoding == old(p.textEncoding)
  {
    if !HasFlag(flags, FTEXT) {
      return Ok([]);
    }
    var crc := p.CreateNumberRegion(-1, 2, "FHCRC", "", false, Number);
    if crc.Err? {
      return Err(crc.error);
    }
    return Ok([crc.value]);
  }

  /** The compressed data up to eight bytes before the end, then CRC32 and ISIZE. */
  method ParseTrailer(p: Helper, ghost buf: seq<byte>) returns (r: Result<seq<Region>>)
    requires p.buffer == buf && p.endian == LE
    modifies p
    ensures r == Trailer(buf, old(p.position))
  {
    var data := p.CreateGeneralRegion(p.position, |p.buffer| - 8 - p.position, "Compressed Data", "");
    var crc := p.CreateNumberRegion(-1, 4, "CRC32", "", false, Number);
    if crc.Err? {
      return Err(crc.error);
    }
    // CRC32 fitted, so the four ISIZE bytes after it end at the end of the buffer.
    var isize := p.CreateNumberRegion(-1, 4, "ISIZE", "", false, Number);
    return Ok([data, crc.value, isize.value]);
  }

  /** `parse(buffer)`: the regions `GzipRegions` describes. */
  method Parse(text: TextDecoder, buffer: seq<byte>) returns (r: Result<seq<Region>>)
    ensures r == GzipRegions(text, buffer)
  {
    var p := new Helper(text, buffer);
    p.SetEndian(LE);
    var header := ParseFixedHeader(p, buffer);
    if header.Err? {
      return Err(header.error);
    }
    var v := header.value[2].numValue.value;
    assert v == Flags(header.value);
    var extra := ParseExtraPart(p, v, text, buffer);
    if extra.Err? {
      return Err(extra.error);
    }
    ghost var extraRun := Run(extra.value, p.position);
    var name := ParseStringPart(p, v, FNAME, "FileName", text, buffer);
    ghost var nameRun := Run(name, p.position);
    var comment := ParseStringPart(p, v, FCOMMENT, "FileComment", text, buffer);
    ghost var commentRun := Run(comment, p.position);
    var crc := ParseHeaderCrc(p, v, buffer);
    if crc.Err? {
      return Err(crc.error);
    }
    ghost var crcRun := Run(crc.value, p.position);
    var trailer := ParseTrailer(p, buffer);
    if trailer.Err? {
      return Err(trailer.error);
    }
    var subRegions := header.value + extra.value + name + comment + crc.value + trailer.value;
    var gz := p.CreateCompoundRegion(0, -1, "gzip", "gzip file format", subRegions);
    LayoutIs(text, buffer, FTEXT, header.value, extraRun, nameRun, commentRun, crcRun, trailer.value);
    assert gz == CompoundRegion("gzip", "gzip file format", subRegions[0].startPos, subRegions[|subRegions| - 1].endPos, subRegions);
    return Ok([gz]);
  }

  // What the decoder reads

  /** One byte read little-endian is that byte. */
  lemma OneByte(buf: seq<byte>, p: int)
    requires 0 <= p < |buf|
    ensures CommonUtil.LE(buf[p..p + 1]) == buf[p]
  {
    assert buf[p..p + 1][1..] == [];
  }

  /** The fixed header is read exactly when the buffer has ten bytes; its rows cover [0,2), 2,
      3, [4,8), 8 and 9, the flags are byte 3 and the modification time is bytes 4 to 8
      little-endian. */
  lemma FixedHeaderLayout(buf: seq<byte>)
    ensures FixedHeader(buf).Ok? <==> |buf| >= 10
    ensures FixedHeader(buf).Err? ==> FixedHeader(buf).error == ReadPastEnd
    ensures FixedHeader(buf).Ok? ==>
              var h := FixedHeader(buf).value;
              && |h| == 6
              && h[0].startPos == 0 && h[0].endPos == 2 && h[1].startPos == 2 && h[1].endPos == 3
              && h[2].startPos == 3 && h[2].endPos == 4 && h[3].startPos == 4 && h[3].endPos == 8
              && h[4].startPos == 8 && h[4].endPos == 9 && h[5].startPos == 9 && h[5].endPos == 10
              && Flags(h) == buf[3] && h[3].numValue == Some(CommonUtil.LE(buf[4..8]))
  {
    NumberRegionSpan(buf, LE, 2, 1, "CompressionMethod", "Compression method", false, Number);
    NumberRegionSpan(buf, LE, 3, 1, "Flag", "", false, Flag);
    NumberRegionSpan(buf, LE, 4, 4, "Motification time", "", false, Time);
    NumberRegionSpan(buf, LE, 8, 1, "ExtraFlag", "", false, Flag);
    NumberRegionSpan(buf, LE, 9, 1, "OS", "", false, Number);
    if |buf| >= 10 {
      NumberRegionUnsigned(buf, LE, 3, 1, "Flag", "", Flag);
      NumberRegionUnsigned(buf, LE, 4, 4, "Motification time", "", Time);
      OneByte(buf, 3);
    }
  }

  /** An extra subfield needs its four header bytes inside the buffer, but its content is not
      checked against the buffer: SI covers [pos, pos+2), LEN [pos+2, pos+4) and the content
      the LEN bytes after them, little-endian. */
  lemma ExtraFieldLayout(text: TextDecoder, buf: seq<byte>, pos: int)
    ensures ExtraField(text, buf, pos).Ok? <==> 0 <= pos + 2 && pos + 4 <= |buf|
    ensures ExtraField(text, buf, pos).Err? ==> ExtraField(text, buf, pos).error == ReadPastEnd
    ensures ExtraField(text, buf, pos).Ok? ==>
              var f := ExtraField(text, buf, pos).value;
              var size := CommonUtil.LE(buf[pos + 2..pos + 4]);
              && f.endPos == pos + 4 + size && f.children.Sub? && |f.children.regions| == 3
              && f.children.regions[0].startPos == pos && f.children.regions[0].endPos == pos + 2
              && f.children.regions[1].startPos == pos + 2 && f.children.regions[1].endPos == pos + 4
              && f.children.regions[2].startPos == pos + 4 && f.children.regions[2].endPos == pos + 4 + size
  {
    NumberRegionSpan(buf, LE, pos + 2, 2, "LEN", "", false, Size);
    if 0 <= pos + 2 && pos + 4 <= |buf| {
      NumberRegionUnsigned(buf, LE, pos + 2, 2, "LEN", "", Size);
    }
  }

  /** `fields` are the subfields read one after another from `start`, the last ending at `next`. */
  ghost predicate FieldsFrom(text: TextDecoder, buf: seq<byte>, fields: seq<Region>, start: int, next: int)
    decreases |fields|
  {
    if fields == [] then start == next
    else
      var field := ExtraField(text, buf, start);
      field.Ok? && field.value == fields[0] && FieldsFrom(text, buf, fields[1..], fields[0].endPos, next)
  }

  /** The subfield walk reads each field where the previous one ended, stops at or past `end`
      (the last field may overrun it), and reads nothing when it starts at or past `end`. */
  lemma {:induction false} ExtraFieldsChain(text: TextDecoder, buf: seq<byte>, pos: int, end: int)
    ensures var r := ExtraFields(text, buf, pos, end);
            && (r.Err? ==> r.error == ReadPastEnd)
            && (r.Ok? ==> FieldsFrom(text, buf, r.value.regions, pos, r.value.next) && r.value.next >= end
                          && (r.value.regions == [] <==> pos >= end))
    decreases end - pos
  {
    if pos < end {
      ExtraFieldLayout(text, buf, pos);
      var field := ExtraField(text, buf, pos);
      if field.Ok? {
        ExtraFieldsChain(text, buf, field.value.endPos, end);
        var rest := ExtraFields(text, buf, field.value.endPos, end);
        if rest.Ok? {
          assert ([field.value] + rest.value.regions)[1..] == rest.value.regions;
        }
      }
    }
  }

  /** A set FNAME or FCOMMENT bit yields one string region from `pos` through the first 0
      byte; when no 0 byte follows, the region runs one byte past the end of the buffer. */
  lemma StringPartSpan(text: TextDecoder, buf: seq<byte>, flags: int, bit: nat, id: string, pos: int)
    requires bit > 0 && HasFlag(flags, bit) && 0 <= pos <= |buf|
    ensures var s := StringPart(text, buf, flags, bit, id, pos);
            && |s.regions| == 1 && s.regions[0].id == id && s.regions[0].startPos == pos
            && s.regions[0].endPos == s.next
            && (forall z :: pos <= z < |buf| && buf[z] == 0 && (forall y :: pos <= y < z ==> buf[y] != 0)
                  ==> s.next == z + 1)
            && ((forall y :: pos <= y < |buf| ==> buf[y] != 0) ==> s.next == |buf| + 1)
  {
    ZeroTerminatedSpan(buf, pos);
  }

  /** The trailer: CRC32 and ISIZE are the last eight bytes and the compressed data runs from
      `pos` up to them. A buffer under eight bytes throws, and so does a data length of -1,
      which would push CRC32 to the end of the buffer. */
  lemma TrailerLayout(buf: seq<byte>, pos: int)
    ensures pos == |buf| - 7 ==> Trailer(buf, pos).Err?
    ensures pos != |buf| - 7 ==> (Trailer(buf, pos).Ok? <==> |buf| >= 8)
    ensures Trailer(buf, pos).Ok? ==>
              var t := Trailer(buf, pos).value;
              && |t| == 3 && t[0].id == "Compressed Data" && t[0].startPos == pos && t[0].endPos == |buf| - 8
              && t[1].startPos == |buf| - 8 && t[1].endPos == |buf| - 4
              && t[2].startPos == |buf| - 4 && t[2].endPos == |buf|
              && t[1].numValue == Some(CommonUtil.LE(buf[|buf| - 8..|buf| - 4]))
              && t[2].numValue == Some(CommonUtil.LE(buf[|buf| - 4..|buf|]))
  {
    var end := DataEnd(buf, pos);
    NumberRegionSpan(buf, LE, end, 4, "CRC32", "", false, Number);
    NumberRegionSpan(buf, LE, end + 4, 4, "ISIZE", "", false, Number);
    if |buf| >= 8 && pos != |buf| - 7 {
      NumberRegionUnsigned(buf, LE, end, 4, "CRC32", "", Number);
      NumberRegionUnsigned(buf, LE, end + 4, 4, "ISIZE", "", Number);
    }
  }

  /** Whatever the CRC gate, a decoded file is one `gzip` region over the whole buffer, which
      holds at least the fixed header, whose first child is the signature and whose last
      three are the compressed data, CRC32 and ISIZE. */
  lemma LayoutSpan(text: TextDecoder, buf: seq<byte>, crcBit: nat)
    requires crcBit > 0
    ensures var r := Layout(text, buf, crcBit);
            r.Ok? ==> && |buf| >= 10 && |r.value| == 1 && r.value[0].id == "gzip"
                      && r.value[0].startPos == 0 && r.value[0].endPos == |buf|
                      && r.value[0].children.Sub?
                      && var kids := r.value[0].children.regions;
                         && |kids| >= 9 && kids[0].id == "Signature"
                         && kids[|kids| - 3].id == "Compressed Data" && kids[|kids| - 1].endPos == |buf|
  {
    if Layout(text, buf, crcBit).Ok? {
      FixedHeaderLayout(buf);
      var header := FixedHeader(buf).value;
      var flags := Flags(header);
      var extra := ExtraPart(text, buf, flags, 10).value;
      var name := StringPart(text, buf, flags, FNAME, "FileName", extra.next);
      var comment := StringPart(text, buf, flags, FCOMMENT, "FileComment", name.next);
      var crc := HeaderCrcPart(buf, flags, crcBit, comment.next).value;
      var trailer := Trailer(buf, crc.next).value;
      TrailerLayout(buf, crc.next);
      LayoutIs(text, buf, crcBit, header, extra, name, comment, crc, trailer);
    }
  }

  // The header CRC gate

  /** As written, a file whose only flag is FHCRC gets no FHCRC region: the compressed data
      starts right after the fixed header and takes in the two CRC bytes. */
  lemma HeaderCrcSkipped(text: TextDecoder, buf: seq<byte>)
    requires |buf| >= 20 && buf[3] == FHCRC
    ensures var r := GzipRegions(text, buf);
            && r.Ok? && |r.value| == 1 && r.value[0].children.Sub?
            && var kids := r.value[0].children.regions;
               && |kids| == 9 && kids[6].id == "Compressed Data" && kids[6].startPos == 10
  {
    FixedHeaderLayout(buf);
    var header := FixedHeader(buf).value;
    var crc := Run([], 10);
    TrailerLayout(buf, 10);
    LayoutIs(text, buf, FTEXT, header, Run([], 10), Run([], 10), Run([], 10), crc, Trailer(buf, 10).value);
  }

  /** As written, a file whose only flag is FTEXT has its first two bytes of compressed data
      read as a header CRC. */
  lemma TextFlagReadsCrc(text: TextDecoder, buf: seq<byte>)
    requires |buf| >= 20 && buf[3] == FTEXT
    ensures var r := GzipRegions(text, buf);
            && r.Ok? && |r.value| == 1 && r.value[0].children.Sub?
            && var kids := r.value[0].children.regions;
               && |kids| == 10 && kids[6].id == "FHCRC" && kids[6].startPos == 10
               && kids[7].id == "Compressed Data" && kids[7].startPos == 12
  {
    FixedHeaderLayout(buf);
    var header := FixedHeader(buf).value;
    NumberRegionSpan(buf, LE, 10, 2, "FHCRC", "", false, Number);
    var crc := HeaderCrcPart(buf, FTEXT, FTEXT, 10).value;
    TrailerLayout(buf, 12);
    LayoutIs(text, buf, FTEXT, header, Run([], 10), Run([], 10), Run([], 10), crc, Trailer(buf, 12).value);
  }

  /** Gated on FHCRC, the same FHCRC-only file gets its two-byte header CRC at [10, 12) and
      the compressed data after it. */
  lemma CorrectedHeaderCrcRead(text: TextDecoder, buf: seq<byte>)
    requires |buf| >= 20 && buf[3] == FHCRC
    ensures var r := CorrectedGzipRegions(text, buf);
            && r.Ok? && |r.value| == 1 && r.value[0].children.Sub?
            && var kids := r.value[0].children.regions;
               && |kids| == 10 && kids[6].id == "FHCRC" && kids[6].startPos == 10 && kids[6].endPos == 12
               && kids[7].id == "Compressed Data" && kids[7].startPos == 12
  {
    FixedHeaderLayout(buf);
    var header := FixedHeader(buf).value;
    NumberRegionSpan(buf, LE, 10, 2, "FHCRC", "", false, Number);
    var crc := HeaderCrcPart(buf, FHCRC, FHCRC, 10).value;
    TrailerLayout(buf, 12);
    LayoutIs(text, buf, FHCRC, header, Run([], 10), Run([], 10), Run([], 10), crc, Trailer(buf, 12).value);
  }

  /** Gated on FHCRC, a header CRC region is read exactly when the FHCRC bit is set, and it is
      the two bytes at the position where the optional parts before it stopped. */
  lemma CorrectedHeaderCrcGate(buf: seq<byte>, flags: int, pos: int)
    requires 0 <= pos && pos + 2 <= |buf|
    ensures var c := HeaderCrcPart(buf, flags, FHCRC, pos);
            && c.Ok?
            && (|c.value.regions| == 1 <==> (flags / 2) % 2 == 1)
            && (c.value.regions == [] <==> (flags / 2) % 2 != 1)
            && (c.value.regions != [] ==> c.value.regions[0].id == "FHCRC" && c.value.regions[0].startPos == pos
                                          && c.value.regions[0].endPos == pos + 2 == c.value.next)
  {
    NumberRegionSpan(buf, LE, pos, 2, "FHCRC", "", false, Number);
  }
}
