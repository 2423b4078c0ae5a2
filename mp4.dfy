/** The MP4 decoder of src/parser/mp4.ts over the `ParseHelper` cursor in big-endian order.
    The file is a run of boxes from byte 0 to the end of the buffer, each starting where the
    previous one ends. A box header is Size(4) and Type(4); a Size of 0 is followed by an
    8-byte LargeSize that gives the length, a Size of 1 stretches the box to the end of the
    buffer, and a `uuid` box adds a 16-byte UserType. Only `ftyp` boxes have their payload
    decoded: a major brand, a minor version and a list of compatible brands. */
module Mp4 {
  import opened Wrappers
  import opened CommonUtil
  import opened Dom
  import opened CommonParser

  /** `isSupportedFile`: by extension only. */
  predicate IsSupportedFile(ext: string)
  {
    ext == "mp4"
  }

  /** The header rows of a box, the length the box claims and its type. */
  datatype Header = Header(rows: seq<Region>, length: int, tag: string)

  /** The Size and Type rows at `offset`, then the LargeSize row when Size is 0; the length
      is LargeSize, the rest of the buffer when Size is 1, and Size otherwise. */
  function BoxHeader(text: TextDecoder, buf: seq<byte>, offset: int): Result<Header>
  {
    var size :- FieldAt(text, buf, BE, offset, N(4, "Size"));
    var kind := StringAt(text, buf, BE, offset + 4, 4, "Type", "");
    var n := size.numValue.value;
    if n == 0 then
      var large :- FieldAt(text, buf, BE, offset + 8, N(8, "LargeSize"));
      Ok(Header([size, kind, large], large.numValue.value, kind.strValue.value))
    else
      Ok(Header([size, kind], if n == 1 then |buf| - offset else n, kind.strValue.value))
  }

  /** Where the header rows end, as an absolute position in the buffer. */
  function HeaderEnd(rows: seq<Region>): int
  {
    if rows == [] then 0 else rows[|rows| - 1].endPos
  }

  /** The header rows, with the UserType row after them in a `uuid` box. */
  function HeaderRows(text: TextDecoder, buf: seq<byte>, h: Header): seq<Region>
  {
    if h.tag == "uuid" then h.rows + [StringAt(text, buf, BE, HeaderEnd(h.rows), 16, "UserType", "")]
    else h.rows
  }

  /** The compatible brands of an `ftyp` payload at `at`, as the brand loop collects them:
      `done` holds the brands read so far, and one 4-byte brand at `at + i` follows for each
      `i = from, from + 4, ...` below `length`. */
  function Brands(text: TextDecoder, buf: seq<byte>, at: int, from: int, length: int, done: seq<Region>): seq<Region>
    decreases length - from
  {
    if from >= length then done
    else Brands(text, buf, at, from + 4, length, done + [StringAt(text, buf, BE, at + from, 4, "Brand", "")])
  }

  /** `parseFileTypeBox(p, offset, length)`: MajorBrand(4), MinorVersion(4), then the empty
      CompatibleBrands compound at `offset + 8` holding the brands. */
  function FileType(text: TextDecoder, buf: seq<byte>, offset: int, length: int): Result<seq<Region>>
  {
    var major := StringAt(text, buf, BE, offset, 4, "MajorBrand", "");
    var minor :- FieldAt(text, buf, BE, offset + 4, N(4, "MinorVersion"));
    Ok([major, minor, Region("CompatibleBrands", Compound, "", offset + 8, offset + 8, Some(BE), None, None, None,
                             Sub(Brands(text, buf, offset, 8, length, [])))])
  }

  /** `parseBox(p, offset)`: a `Box` compound over `[offset, offset + length)` holding the
      header rows and, for `ftyp`, the decoded payload. The payload is read at `offset` plus
      the absolute end of the header, over the length minus that end. */
  function BoxAt(text: TextDecoder, buf: seq<byte>, offset: int): (r: Result<Region>)
    ensures r.Ok? ==> r.value.startPos == offset && r.value.id == "Box" && r.value.kind == Compound
  {
    var h :- BoxHeader(text, buf, offset);
    var rows := HeaderRows(text, buf, h);
    var payload :- Payload(text, buf, offset, h.tag, h.length, HeaderEnd(rows));
    Ok(Region("Box", Compound, "", offset, offset + h.length, Some(BE), None, None, None, Sub(rows + payload)))
  }

  /** The decoded payload of a box of type `tag` whose header ends at `hdrSize`: the file
      type of an `ftyp` box, nothing for any other type. */
  function Payload(text: TextDecoder, buf: seq<byte>, offset: int, tag: string, length: int, hdrSize: int): Result<seq<Region>>
  {
    if tag == "ftyp" then FileType(text, buf, offset + hdrSize, length - hdrSize) else Ok([])
  }

  /** The boxes from `pos` to the end of the buffer, each at the end of the one before. A
      box of length 0 would make the source loop for ever. */
  function Boxes(text: TextDecoder, buf: seq<byte>, pos: nat): Result<seq<Region>>
    decreases |buf| - pos
  {
    if pos >= |buf| then Ok([])
    else
      var box :- BoxAt(text, buf, pos);
      if box.endPos <= pos then Err(Diverges)
      else Prepend([box], Boxes(text, buf, box.endPos))
  }

  /** What `parse` returns: one empty `Boxes` compound at 0 holding every box. */
  function Mp4Regions(text: TextDecoder, buf: seq<byte>): Result<seq<Region>>
  {
    var boxes :- Boxes(text, buf, 0);
    Ok([Region("Boxes", Compound, "", 0, 0, Some(BE), None, None, None, Sub(boxes))])
  }

  // Layout

  /** The header of a box: Size is the big-endian number at `offset`, Type the four bytes
      after it; a Size of 0 adds the LargeSize row right after Type and makes it the length,
      a Size of 1 gives the rest of the buffer, any other Size is the length itself. The read
      fails exactly when Size, or LargeSize when it is needed, leaves the buffer. */
  lemma HeaderLayout(text: TextDecoder, buf: seq<byte>, offset: nat)
    ensures var r := BoxHeader(text, buf, offset);
            && (offset + 4 > |buf| ==> r == Err(ReadPastEnd))
            && (offset + 4 <= |buf| ==>
                  var size := CommonUtil.BE(buf[offset..offset + 4]);
                  && (r.Ok? <==> size != 0 || offset + 16 <= |buf|)
                  && (r.Ok? ==>
                        && BigNumberRowAt(buf, r.value.rows[0], offset, offset + 4)
                        && r.value.rows[1] == StringAt(text, buf, BE, offset + 4, 4, "Type", "")
                        && r.value.tag == r.value.rows[1].strValue.value
                        && (size == 0 ==> |r.value.rows| == 3 && BigNumberRowAt(buf, r.value.rows[2], offset + 8, offset + 16)
                                          && r.value.length == CommonUtil.BE(buf[offset + 8..offset + 16]))
                        && (size == 1 ==> |r.value.rows| == 2 && r.value.length == |buf| - offset)
                        && (size > 1 ==> |r.value.rows| == 2 && r.value.length == size)))
  {
    BigNumberRow(text, buf, offset, 4, "Size", "");
    BigNumberRow(text, buf, offset + 8, 8, "LargeSize", "");
  }

  /** The header ends 8 bytes after the box start, 16 with LargeSize, and a `uuid` box adds
      16 more for UserType, which starts where the header rows end. */
  lemma HeaderEndLayout(text: TextDecoder, buf: seq<byte>, offset: nat)
    requires BoxHeader(text, buf, offset).Ok?
    ensures var h := BoxHeader(text, buf, offset).value;
            var base := if |h.rows| == 3 then offset + 16 else offset + 8;
            && HeaderEnd(h.rows) == base
            && HeaderEnd(HeaderRows(text, buf, h)) == (if h.tag == "uuid" then base + 16 else base)
            && (h.tag == "uuid" ==> HeaderRows(text, buf, h)[|h.rows|] == StringAt(text, buf, BE, base, 16, "UserType", ""))
  {
    HeaderLayout(text, buf, offset);
  }

  /** After the brands read so far, brand k sits at `at + from + 4k`, and there is one per
      started group of 4 bytes between `from` and `length`. */
  lemma {:induction false} BrandsLayout(text: TextDecoder, buf: seq<byte>, at: int, from: int, length: int, done: seq<Region>)
    ensures var bs := Brands(text, buf, at, from, length, done);
            && |bs| == |done| + (if from >= length then 0 else (length - from + 3) / 4)
            && bs[..|done|] == done
            && forall k :: |done| <= k < |bs| ==> bs[k] == StringAt(text, buf, BE, at + from + 4 * (k - |done|), 4, "Brand", "")
    decreases length - from
  {
    if from < length {
      var more := done + [StringAt(text, buf, BE, at + from, 4, "Brand", "")];
      BrandsLayout(text, buf, at, from + 4, length, more);
      var bs := Brands(text, buf, at, from, length, done);
      assert bs == Brands(text, buf, at, from + 4, length, more);
      assert bs[..|done|] == more[..|done|] == done;
      forall k | |done| <= k < |bs|
        ensures bs[k] == StringAt(text, buf, BE, at + from + 4 * (k - |done|), 4, "Brand", "")
      {
        if k > |done| {
          assert at + (from + 4) + 4 * (k - |more|) == at + from + 4 * (k - |done|);
        } else {
          assert bs[k] == more[k];
        }
      }
    }
  }

  /** An `ftyp` box decodes its payload at `offset` plus the absolute end of its header, not
      at the end of the header: for a box with a plain 8-byte header the major brand is read at
      `2 * offset + 8`, which is the header end only for the box at offset 0. The box itself
      still spans `[offset, offset + length)`. */
  lemma FileTypePayloadAt(text: TextDecoder, buf: seq<byte>, offset: nat)
    requires BoxHeader(text, buf, offset).Ok?
    requires var h := BoxHeader(text, buf, offset).value; h.tag == "ftyp" && |h.rows| == 2
    requires BoxAt(text, buf, offset).Ok?
    ensures var h := BoxHeader(text, buf, offset).value;
            var b := BoxAt(text, buf, offset).value;
            && b.endPos == offset + h.length
            && b.Kids()[..2] == h.rows
            && b.Kids()[2] == StringAt(text, buf, BE, 2 * offset + 8, 4, "MajorBrand", "")
  {
    HeaderEndLayout(text, buf, offset);
    var h := BoxHeader(text, buf, offset).value;
    assert HeaderRows(text, buf, h) == h.rows;
    assert Payload(text, buf, offset, h.tag, h.length, offset + 8).Ok?;
  }

  /** A box claims length 0, and so would stall the walk, exactly when Size and LargeSize
      are both 0. */
  lemma ZeroLength(text: TextDecoder, buf: seq<byte>, offset: nat)
    requires offset < |buf| && BoxAt(text, buf, offset).Ok?
    ensures offset + 4 <= |buf|
    ensures BoxAt(text, buf, offset).value.endPos == offset
            <==> CommonUtil.BE(buf[offset..offset + 4]) == 0 && offset + 16 <= |buf| && CommonUtil.BE(buf[offset + 8..offset + 16]) == 0
  {
    HeaderLayout(text, buf, offset);
  }

  /** Boxes `rs` follow each other from `pos` without gap: each starts inside the buffer and
      ends after it starts, and the last ends at or beyond the end of the buffer. */
  ghost predicate Tiled(rs: seq<Region>, pos: int, end: int)
    decreases |rs|
  {
    if rs == [] then pos >= end
    else rs[0].startPos == pos < end && rs[0].endPos > pos && rs[0].id == "Box" && Tiled(rs[1..], rs[0].endPos, end)
  }

  /** A successful walk tiles the buffer from `pos`. */
  lemma {:induction false} BoxesTile(text: TextDecoder, buf: seq<byte>, pos: nat)
    requires Boxes(text, buf, pos).Ok?
    ensures Tiled(Boxes(text, buf, pos).value, pos, |buf|)
    decreases |buf| - pos
  {
    if pos < |buf| {
      var box := BoxAt(text, buf, pos).value;
      BoxesTile(text, buf, box.endPos);
      var rest := Boxes(text, buf, box.endPos).value;
      assert Boxes(text, buf, pos).value == [box] + rest;
      assert ([box] + rest)[1..] == rest;
    }
  }

  /** The walk fails exactly at the first box that cannot be read or claims length 0; a
      stalled box makes the whole decode diverge. */
  lemma StalledWalk(text: TextDecoder, buf: seq<byte>, pos: nat)
    requires pos < |buf| && BoxAt(text, buf, pos).Ok? && BoxAt(text, buf, pos).value.endPos == pos
    ensures Boxes(text, buf, pos) == Err(Diverges)
    ensures CommonUtil.BE(buf[pos..pos + 4]) == 0
  {
    ZeroLength(text, buf, pos);
  }

  // The decoder

  /** `parse`: the `Boxes` compound at 0, then one box after another until the end of the
      buffer. */
  method Parse(text: TextDecoder, buffer: seq<byte>) returns (r: Result<seq<Region>>)
    ensures r == Mp4Regions(text, buffer)
  {
    var p := new ParseHelper(text, buffer);
    p.SetEndian(BE);
    var boxes := p.CreateCompound(0, 0, "Boxes", "");
    var walked := ParseBoxes(p, text, buffer);
    if walked.Err? {
      return Err(walked.error);
    }
    return Ok([boxes.(children := Sub(walked.value))]);
  }

  /** The box loop of `parse`: each box starts where the previous one ends. A box that does
      not move the walk forward is reported as `Diverges`, where the source loops for ever. */
  method ParseBoxes(p: ParseHelper, ghost text: TextDecoder, ghost buf: seq<byte>) returns (r: Result<seq<Region>>)
    requires p.text == text && p.buffer == buf && p.endian == BE
    modifies p
    ensures r == Boxes(text, buf, 0)
  {
    var boxes: seq<Region> := [];
    var pos: nat := 0;
    PrependNil(Boxes(text, buf, 0));
    while pos < |p.buffer|
      invariant p.endian == BE
      invariant Boxes(text, buf, 0) == Prepend(boxes, Boxes(text, buf, pos))
      decreases |buf| - pos
    {
      var box := ParseBox(p, pos, text, buf);
      if box.Err? {
        return Err(box.error);
      }
      if box.value.endPos <= pos {
        return Err(Diverges);
      }
      assert Boxes(text, buf, pos) == Prepend([box.value], Boxes(text, buf, box.value.endPos));
      PrependPrepend(boxes, [box.value], Boxes(text, buf, box.value.endPos));
      boxes := boxes + [box.value];
      pos := box.value.endPos;
    }
    return Ok(boxes + []);
  }

  /** The Size, Type and (when Size is 0) LargeSize rows at `offset`; the cursor ends after
      the last of them. */
  method ParseBoxHeader(p: ParseHelper, offset: nat, ghost text: TextDecoder, ghost buf: seq<byte>) returns (r: Result<Header>)
    requires p.text == text && p.buffer == buf && p.endian == BE
    modifies p
    ensures p.endian == BE
    ensures r == BoxHeader(text, buf, offset)
    ensures r.Ok? ==> p.position == HeaderEnd(r.value.rows)
  {
    var size := p.CreateRegion(Number, offset, 4, "Size", "", NoCallback);
    if size.Err? {
      return Err(size.error);
    }
    var kind := p.CreateStringRegion(-1, 4, "Type", "");
    var length := size.value.numValue.value;
    if length == 0 {
      var large := p.CreateRegion(Number, -1, 8, "LargeSize", "", NoCallback);
      if large.Err? {
        return Err(large.error);
      }
      return Ok(Header([size.value, kind, large.value], large.value.numValue.value, kind.strValue.value));
    } else if length == 1 {
      length := |p.buffer| - offset;
    }
    return Ok(Header([size.value, kind], length, kind.strValue.value));
  }

  /** `parseBox(p, offset)`: the `Box` compound, its header rows, then its payload; the box
      is then stretched to the length the header claims. */
  method ParseBox(p: ParseHelper, offset: nat, ghost text: TextDecoder, ghost buf: seq<byte>) returns (r: Result<Region>)
    requires p.text == text && p.buffer == buf && p.endian == BE
    modifies p
    ensures p.endian == BE
    ensures r == BoxAt(text, buf, offset)
  {
    var box := p.CreateCompound(offset, 0, "Box", "");
    var h, rows := ParseHeaderRows(p, offset, text, buf);
    if h.Err? {
      return Err(h.error);
    }
    var payload := ParsePayload(p, offset, h.value.tag, h.value.length, rows[|rows| - 1].endPos, text, buf);
    if payload.Err? {
      return Err(payload.error);
    }
    return Ok(box.(endPos := offset + h.value.length, children := Sub(rows + payload.value)));
  }

  /** The header rows at `offset` and, in a `uuid` box, UserType where they end. */
  method ParseHeaderRows(p: ParseHelper, offset: nat, ghost text: TextDecoder, ghost buf: seq<byte>)
    returns (h: Result<Header>, rows: seq<Region>)
    requires p.text == text && p.buffer == buf && p.endian == BE
    modifies p
    ensures p.endian == BE
    ensures h == BoxHeader(text, buf, offset)
    ensures h.Ok? ==> rows == HeaderRows(text, buf, h.value) && |rows| > 0 && rows[|rows| - 1].endPos >= 0
  {
    h := ParseBoxHeader(p, offset, text, buf);
    if h.Err? {
      return h, [];
    }
    HeaderEndLayout(text, buf, offset);
    rows := h.value.rows;
    if h.value.tag == "uuid" {
      var userType := p.CreateStringRegion(-1, 16, "UserType", "");
      rows := rows + [userType];
    }
  }

  /** The payload step of `parseBox`: the `parsers` table holds only `ftyp`. */
  method ParsePayload(p: ParseHelper, offset: nat, tag: string, length: int, hdrSize: nat, ghost text: TextDecoder, ghost buf: seq<byte>)
    returns (r: Result<seq<Region>>)
    requires p.text == text && p.buffer == buf && p.endian == BE
    modifies p
    ensures p.endian == BE
    ensures r == Payload(text, buf, offset, tag, length, hdrSize)
  {
    if tag == "ftyp" {
      r := ParseFileTypeBox(p, offset + hdrSize, length - hdrSize, text, buf);
    } else {
      r := Ok([]);
    }
  }

  /** One brand, four bytes at `pos`. */
  method ParseBrand(p: ParseHelper, pos: nat, ghost text: TextDecoder, ghost buf: seq<byte>) returns (brand: Region)
    requires p.text == text && p.buffer == buf && p.endian == BE
    modifies p
    ensures p.endian == BE
    ensures brand == StringAt(text, buf, BE, pos, 4, "Brand", "")
  {
    brand := p.CreateStringRegion(pos, 4, "Brand", "");
  }

  /** `parseFileTypeBox(p, offset, length)`. */
  method ParseFileTypeBox(p: ParseHelper, offset: nat, length: int, ghost text: TextDecoder, ghost buf: seq<byte>)
    returns (r: Result<seq<Region>>)
    requires p.text == text && p.buffer == buf && p.endian == BE
    modifies p
    ensures p.endian == BE
    ensures r == FileType(text, buf, offset, length)
  {
    var major := p.CreateStringRegion(offset, 4, "MajorBrand", "");
    var minor := p.CreateRegion(Number, -1, 4, "MinorVersion", "", NoCallback);
    if minor.Err? {
      return Err(minor.error);
    }
    var compatible := p.CreateCompound(-1, 0, "CompatibleBrands", "");
    var brands := ParseBrands(p, offset, length, text, buf);
    return Ok([major, minor.value, compatible.(children := Sub(brands))]);
  }

  /** The brand loop of `parseFileTypeBox`: `i` runs from 8 in steps of 4 while below
      `length`. */
  method ParseBrands(p: ParseHelper, offset: nat, length: int, ghost text: TextDecoder, ghost buf: seq<byte>)
    returns (brands: seq<Region>)
    requires p.text == text && p.buffer == buf && p.endian == BE
    modifies p
    ensures p.endian == BE
    ensures brands == Brands(text, buf, offset, 8, length, [])
  {
    brands := [];
    var i := 8;
    while i < length
      invariant p.endian == BE
      invariant Brands(text, buf, offset, 8, length, []) == Brands(text, buf, offset, i, length, brands)
      decreases length - i
    {
      var brand := ParseBrand(p, offset + i, text, buf);
      brands := brands + [brand];
      i := i + 4;
    }
  }
}
