/** The PNG decoder of src/parser/png.ts over the `ParseHelper` cursor in big-endian order.
    The file must start with the 8-byte PNG signature. Chunks follow it up to the end of the
    buffer: Length(4), Type(4), Length data bytes and a CRC(4), so a chunk spans 12 + Length
    bytes. The data is decoded by a cursor forked over the buffer prefix that ends with the
    data: IHDR as seven numbers, tEXt as key, separator and value, anything else as one
    span. */
module Png {
  import opened Wrappers
  import opened CommonUtil
  import opened Dom
  import opened CommonParser

  const PngSignature: seq<byte> := [0x89, 0x50, 0x4e, 0x47, 0x0d, 0x0a, 0x1a, 0x0a]

  /** `isSupportedFile`: the extension `png`, or else the signature at byte 0; the signature
      test throws on a buffer shorter than 8 bytes. */
  function IsSupportedFile(ext: string, buf: seq<byte>): Result<bool>
  {
    if ext == "png" then Ok(true) else CheckContentSpec(buf, 0, PngSignature)
  }

  /** Width(4) and Height(4) of an IHDR chunk at `start`. */
  function Dimensions(text: TextDecoder, data: seq<byte>, start: int): Result<seq<Region>>
  {
    var width :- FieldAt(text, data, BE, start, N(4, "Width"));
    var height :- FieldAt(text, data, BE, start + 4, N(4, "Height"));
    Ok([width, height])
  }

  /** Bit depth(1) and Color type(1), after the dimensions. */
  function DepthAndColor(text: TextDecoder, data: seq<byte>, start: int): Result<seq<Region>>
  {
    var depth :- FieldAt(text, data, BE, start + 8, N(1, "Bit depth"));
    var color :- FieldAt(text, data, BE, start + 9, N(1, "Color type"));
    Ok([depth, color])
  }

  /** Compress method(1), Filter method(1) and Interlace method(1), the last three bytes. */
  function Methods(text: TextDecoder, data: seq<byte>, start: int): Result<seq<Region>>
  {
    var compress :- FieldAt(text, data, BE, start + 10, N(1, "Compress method"));
    var filter :- FieldAt(text, data, BE, start + 11, N(1, "Filter method"));
    var interlace :- FieldAt(text, data, BE, start + 12, N(1, "Interlace method"));
    Ok([compress, filter, interlace])
  }

  /** The seven IHDR numbers, each right after the one before. */
  function ImageHeader(text: TextDecoder, data: seq<byte>, start: int): Result<seq<Region>>
  {
    var dimensions :- Dimensions(text, data, start);
    var modes :- DepthAndColor(text, data, start);
    var methods :- Methods(text, data, start);
    Ok(dimensions + modes + methods)
  }

  /** Where the key of a tEXt chunk ends: the first 0 byte at or after `s`, or the end of
      the data. */
  function KeyEnd(data: seq<byte>, s: nat): nat
    decreases |data| - s
  {
    if s < |data| && data[s] != 0 then KeyEnd(data, s + 1) else s
  }

  /** A tEXt chunk: the key up to the first 0 byte, the 1-byte separator, the value up to the
      end of the data, and "key:value" as the text of the whole. */
  function TextData(text: TextDecoder, data: seq<byte>, start: nat): Region
  {
    var e := KeyEnd(data, start);
    var key := StringAt(text, data, BE, start, e - start, "key", "");
    var value := StringAt(text, data, BE, e + 1, |data| - (e + 1), "value", "");
    Region("Data", Compound, "", start, |data|, None, None, Some(key.strValue.value + ":" + value.strValue.value), None,
           Sub([key, GeneralAt(BE, e, 1, "sep", ""), value]))
  }

  /** `parseTrunkData(p, type)` on a cursor over `data` at `start`. */
  function TrunkData(text: TextDecoder, data: seq<byte>, start: nat, tag: string): Result<Region>
  {
    if tag == "IHDR" then
      var rows :- ImageHeader(text, data, start);
      Ok(Region("Data - Header", Compound, "", start, |data|, None, None, None, None, Sub(rows)))
    else if tag == "tEXt" then Ok(TextData(text, data, start))
    else Ok(GeneralAt(BE, start, |data| - start, "Data", ""))
  }

  /** The chunk at `pos`: Length, Type, the data decoded over the prefix of the buffer that
      ends with it, and the CRC after the data, under a `trunk` compound over
      `[pos, pos + 12 + Length)` whose text is the type. */
  function ChunkAt(text: TextDecoder, buf: seq<byte>, pos: nat): (r: Result<Region>)
    ensures r.Ok? ==> r.value.startPos == pos && r.value.endPos >= pos + 12
  {
    var length :- FieldAt(text, buf, BE, pos, Field(Size, 4, "Length", "", NoCallback));
    var n: nat := length.numValue.value;
    var kind := StringAt(text, buf, BE, pos + 4, 4, "Type", "");
    var tail :- ChunkTail(text, buf, pos, n, kind.strValue.value);
    Ok(Region("trunk", Compound, "", pos, pos + 12 + n, None, None, kind.strValue, None, Sub([length, kind] + tail)))
  }

  /** The data of a chunk of type `tag` and Length `n`, decoded over the prefix of the
      buffer that ends with it, and the CRC after it. */
  function ChunkTail(text: TextDecoder, buf: seq<byte>, pos: nat, n: nat, tag: string): Result<seq<Region>>
  {
    var data :- TrunkData(text, Slice(buf, 0, pos + 8 + n), pos + 8, tag);
    var crc :- FieldAt(text, buf, BE, pos + 8 + n, N(4, "CRC"));
    Ok([data, crc])
  }

  /** The chunks from `pos` to the end of the buffer, each at the end of the one before. */
  function Chunks(text: TextDecoder, buf: seq<byte>, pos: nat): Result<seq<Region>>
    decreases |buf| - pos
  {
    if pos >= |buf| then Ok([])
    else
      var chunk :- ChunkAt(text, buf, pos);
      Prepend([chunk], Chunks(text, buf, chunk.endPos))
  }

  /** What `parse` returns or throws: the signature check, the signature span, then the
      chunks. */
  function PngRegions(text: TextDecoder, buf: seq<byte>): Result<seq<Region>>
  {
    var signed :- CheckContentSpec(buf, 0, PngSignature);
    if !signed then Err(ContentMismatch)
    else
      var chunks :- Chunks(text, buf, 8);
      Ok([GeneralAt(BE, 0, 8, "signature", "")] + chunks)
  }

  // Properties

  /** The sniffer accepts the extension without looking at the buffer; otherwise it accepts
      exactly a buffer that starts with the signature, and throws on one shorter than it. */
  lemma SnifferAccepts(ext: string, buf: seq<byte>)
    ensures IsSupportedFile(ext, buf).Err? <==> ext != "png" && |buf| < 8
    ensures IsSupportedFile(ext, buf) == Ok(true) <==> ext == "png" || (|buf| >= 8 && buf[..8] == PngSignature)
  {
  }

  /** `parse` throws unless the signature leads: RangeError on a buffer shorter than it,
      a content mismatch on other bytes; a decoded file starts with the signature span. */
  lemma SignatureLeads(text: TextDecoder, buf: seq<byte>)
    ensures |buf| < 8 ==> PngRegions(text, buf) == Err(RangeError)
    ensures |buf| >= 8 && buf[..8] != PngSignature ==> PngRegions(text, buf) == Err(ContentMismatch)
    ensures PngRegions(text, buf).Ok? ==>
              && buf[..8] == PngSignature
              && PngRegions(text, buf).value[0] == GeneralAt(BE, 0, 8, "signature", "")
  {
  }

  /** The key ends at the first 0 byte at or after `s`, or at the end of the data, and
      holds no 0 byte. */
  lemma {:induction false} KeyEndFacts(data: seq<byte>, s: nat)
    ensures var e := KeyEnd(data, s);
            && s <= e && (s <= |data| ==> e <= |data|)
            && (e < |data| ==> data[e] == 0)
            && forall y :: s <= y < e ==> data[y] != 0
    decreases |data| - s
  {
    if s < |data| && data[s] != 0 {
      KeyEndFacts(data, s + 1);
    }
  }

  /** A tEXt chunk: the key `[start, e)` holds no 0 byte and `e` is the first 0 byte or the
      end of the data, the separator is `[e, e + 1)`, the value runs from `e + 1` to the end
      of the data, and the text of the whole is the key, ':' and the value. */
  lemma TextDataLayout(text: TextDecoder, data: seq<byte>, start: nat)
    requires start <= |data|
    ensures var r := TextData(text, data, start);
            var e := KeyEnd(data, start);
            var key := r.Kids()[0];
            var value := r.Kids()[2];
            && start <= e <= |data| && (e < |data| ==> data[e] == 0)
            && (forall y :: start <= y < e ==> data[y] != 0)
            && |r.Kids()| == 3
            && key.startPos == start && key.endPos == e && key.id == "key"
            && r.Kids()[1].startPos == e && r.Kids()[1].endPos == e + 1
            && value.startPos == e + 1 && value.endPos == |data| && value.id == "value"
            && r.strValue == Some(key.strValue.value + ":" + value.strValue.value)
            && r.startPos == start && r.endPos == |data|
  {
    KeyEndFacts(data, start);
  }

  /** IHDR: Width and Height of 4 bytes and five single bytes, in order from `start`; the
      read succeeds exactly when all 13 bytes are in the data. */
  lemma ImageHeaderLayout(text: TextDecoder, data: seq<byte>, start: nat)
    ensures var r := ImageHeader(text, data, start);
            && (r.Ok? <==> start + 13 <= |data|)
            && (r.Ok? ==>
                  && |r.value| == 7
                  && BigNumberRowAt(data, r.value[0], start, start + 4) && r.value[0].id == "Width"
                  && BigNumberRowAt(data, r.value[1], start + 4, start + 8) && r.value[1].id == "Height"
                  && forall k :: 2 <= k < 7 ==> BigNumberRowAt(data, r.value[k], start + 6 + k, start + 7 + k))
  {
    BigNumberRow(text, data, start, 4, "Width", "");
    BigNumberRow(text, data, start + 4, 4, "Height", "");
    BigNumberRow(text, data, start + 8, 1, "Bit depth", "");
    BigNumberRow(text, data, start + 9, 1, "Color type", "");
    BigNumberRow(text, data, start + 10, 1, "Compress method", "");
    BigNumberRow(text, data, start + 11, 1, "Filter method", "");
    BigNumberRow(text, data, start + 12, 1, "Interlace method", "");
  }

  /** The chunk header: Length is the big-endian number at `pos`, Type the four bytes after
      it; the chunk fails when Length leaves the buffer, and a decoded chunk spans
      `[pos, pos + 12 + Length)`, lies in the buffer, carries its type as text, and ends
      with the CRC number stored in its last four bytes. */
  lemma ChunkLayout(text: TextDecoder, buf: seq<byte>, pos: nat)
    ensures pos + 4 > |buf| ==> ChunkAt(text, buf, pos) == Err(ReadPastEnd)
    ensures var r := ChunkAt(text, buf, pos);
            r.Ok? ==>
              var n := CommonUtil.BE(buf[pos..pos + 4]);
              var kids := r.value.Kids();
              && r.value.endPos == pos + 12 + n <= |buf|
              && |kids| == 4
              && kids[0].kind == Size && kids[0].startPos == pos && kids[0].endPos == pos + 4 && kids[0].numValue == Some(n)
              && kids[1] == StringAt(text, buf, BE, pos + 4, 4, "Type", "")
              && r.value.strValue == kids[1].strValue
              && kids[2].startPos == pos + 8
              && BigNumberRowAt(buf, kids[3], pos + 8 + n, pos + 12 + n) && kids[3].id == "CRC"
  {
    FieldAtFacts(text, buf, BE, pos, Field(Size, 4, "Length", "", NoCallback));
    if pos + 4 <= |buf| {
      UnsignedValue(buf, pos, pos + 4, true);
      BEIsPositional(buf[pos..pos + 4]);
      var n := CommonUtil.BE(buf[pos..pos + 4]);
      BigNumberRow(text, buf, pos + 8 + n, 4, "CRC", "");
    }
  }

  /** The data decoder sees only the buffer up to the end of the chunk's data: an IHDR
      chunk whose Length is below 13 fails even when the buffer holds the bytes after it. */
  lemma ShortHeaderFails(text: TextDecoder, buf: seq<byte>, pos: nat)
    requires pos + 8 <= |buf|
    requires StringAt(text, buf, BE, pos + 4, 4, "Type", "").strValue.value == "IHDR"
    requires CommonUtil.BE(buf[pos..pos + 4]) < 13
    ensures ChunkAt(text, buf, pos) == Err(ReadPastEnd)
  {
    FieldAtFacts(text, buf, BE, pos, Field(Size, 4, "Length", "", NoCallback));
    UnsignedValue(buf, pos, pos + 4, true);
    BEIsPositional(buf[pos..pos + 4]);
    var n := CommonUtil.BE(buf[pos..pos + 4]);
    var data := Slice(buf, 0, pos + 8 + n);
    assert |data| <= pos + 8 + n;
    ImageHeaderLayout(text, data, pos + 8);
  }

  /** Chunks `rs` follow each other from `pos` without gap and each ends within `end`; the
      last one ends exactly at `end`. */
  ghost predicate Tiled(rs: seq<Region>, pos: int, end: int)
    decreases |rs|
  {
    if rs == [] then pos == end
    else rs[0].startPos == pos && pos + 12 <= rs[0].endPos <= end && rs[0].id == "trunk" && Tiled(rs[1..], rs[0].endPos, end)
  }

  /** A decoded chunk list covers the buffer from `pos` exactly, chunk after chunk. */
  lemma {:induction false} ChunksTile(text: TextDecoder, buf: seq<byte>, pos: nat)
    requires pos <= |buf| && Chunks(text, buf, pos).Ok?
    ensures Tiled(Chunks(text, buf, pos).value, pos, |buf|)
    decreases |buf| - pos
  {
    if pos < |buf| {
      var chunk := ChunkAt(text, buf, pos).value;
      ChunkLayout(text, buf, pos);
      ChunksTile(text, buf, chunk.endPos);
      var rest := Chunks(text, buf, chunk.endPos).value;
      assert Chunks(text, buf, pos).value == [chunk] + rest;
      assert ([chunk] + rest)[1..] == rest;
    }
  }

  // The decoder

  /** `parse`: the signature check, then the signature span and the chunk loop. */
  method Parse(text: TextDecoder, buffer: seq<byte>) returns (r: Result<seq<Region>>)
    ensures r == PngRegions(text, buffer)
  {
    var signed := EnsureContent(buffer, 0, PngSignature);
    if signed.Fail? {
      return Err(signed.error);
    }
    var p := new ParseHelper(text, buffer);
    p.SetEndian(BE);
    var signature := p.CreateGeneralRegion(0, |PngSignature|, "signature", "");
    var chunks := ParseChunks(p, text, buffer);
    if chunks.Err? {
      return Err(chunks.error);
    }
    return Ok([signature] + chunks.value);
  }

  /** The chunk loop of `parse`, driven by the cursor position. */
  method ParseChunks(p: ParseHelper, ghost text: TextDecoder, ghost buf: seq<byte>) returns (r: Result<seq<Region>>)
    requires p.text == text && p.buffer == buf && p.endian == BE && p.position == 8
    modifies p
    ensures r == Chunks(text, buf, 8)
  {
    var chunks: seq<Region> := [];
    PrependNil(Chunks(text, buf, 8));
    while p.position < |p.buffer|
      invariant p.endian == BE && p.position >= 8
      invariant Chunks(text, buf, 8) == Prepend(chunks, Chunks(text, buf, p.position))
      decreases |buf| - p.position
    {
      var chunk := ParseChunk(p, p.position, text, buf);
      if chunk.Err? {
        return Err(chunk.error);
      }
      PrependPrepend(chunks, [chunk.value], Chunks(text, buf, chunk.value.endPos));
      chunks := chunks + [chunk.value];
    }
    return Ok(chunks + []);
  }

  /** Length and Type at `pos`; the memo holds the length and the cache the type. */
  method ParseChunkHeader(p: ParseHelper, pos: nat, ghost text: TextDecoder, ghost buf: seq<byte>)
    returns (length: Result<Region>, kind: Region)
    requires p.text == text && p.buffer == buf && p.endian == BE && p.position == pos
    modifies p
    ensures p.endian == BE
    ensures length == FieldAt(text, buf, BE, pos, Field(Size, 4, "Length", "", NoCallback))
    ensures length.Ok? ==>
              && kind == StringAt(text, buf, BE, pos + 4, 4, "Type", "") && p.position == pos + 8
              && "Length" in p.num && p.num["Length"] == length.value.numValue.value >= 0
              && "Type" in p.regionCache && p.regionCache["Type"] == kind
  {
    length := p.CreateRegion(Size, -1, 4, "Length", "", NoCallback);
    if length.Err? {
      return length, Blank("Type", Str, "", pos + 4, pos + 4);
    }
    FieldAtFacts(text, buf, BE, pos, Field(Size, 4, "Length", "", NoCallback));
    UnsignedRange(buf, pos, pos + 4, true);
    kind := p.CreateStringRegion(-1, 4, "Type", "");
  }

  /** One turn of the chunk loop: the `trunk` compound, its header, then data and CRC; the
      compound takes the cursor position as its end and the cached type as its text. */
  method ParseChunk(p: ParseHelper, pos: nat, ghost text: TextDecoder, ghost buf: seq<byte>) returns (r: Result<Region>)
    requires p.text == text && p.buffer == buf && p.endian == BE && p.position == pos
    modifies p
    ensures p.endian == BE
    ensures r == ChunkAt(text, buf, pos)
    ensures r.Ok? ==> p.position == r.value.endPos
  {
    var trunk := p.CreateCompoundRegion(-1, 0, "trunk", "", []);
    var length, kind := ParseChunkHeader(p, pos, text, buf);
    if length.Err? {
      return Err(length.error);
    }
    var tail := ParseChunkTail(p, pos, kind.endPos, kind.strValue.value, length.value.numValue.value, text, buf);
    if tail.Err? {
      ChunkAtFails(text, buf, pos, length.value);
      return Err(tail.error);
    }
    trunk := trunk.(endPos := p.position, strValue := p.regionCache["Type"].strValue,
                    children := Sub([length.value, kind] + tail.value));
    ChunkAtOf(text, buf, pos, length.value, tail.value);
    return Ok(trunk);
  }

  /** A chunk whose tail cannot be read. */
  lemma ChunkAtFails(text: TextDecoder, buf: seq<byte>, pos: nat, length: Region)
    requires FieldAt(text, buf, BE, pos, Field(Size, 4, "Length", "", NoCallback)) == Ok(length)
    requires length.numValue.Some? && length.numValue.value >= 0
    requires ChunkTail(text, buf, pos, length.numValue.value, StringAt(text, buf, BE, pos + 4, 4, "Type", "").strValue.value).Err?
    ensures ChunkAt(text, buf, pos)
         == Err(ChunkTail(text, buf, pos, length.numValue.value, StringAt(text, buf, BE, pos + 4, 4, "Type", "").strValue.value).error)
  {
  }

  /** A chunk whose Length row and tail have been read. */
  lemma ChunkAtOf(text: TextDecoder, buf: seq<byte>, pos: nat, length: Region, tail: seq<Region>)
    requires FieldAt(text, buf, BE, pos, Field(Size, 4, "Length", "", NoCallback)) == Ok(length)
    requires length.numValue.Some? && length.numValue.value >= 0
    requires ChunkTail(text, buf, pos, length.numValue.value, StringAt(text, buf, BE, pos + 4, 4, "Type", "").strValue.value) == Ok(tail)
    ensures ChunkAt(text, buf, pos)
         == Ok(Region("trunk", Compound, "", pos, pos + 12 + length.numValue.value, None, None,
                      StringAt(text, buf, BE, pos + 4, 4, "Type", "").strValue, None,
                      Sub([length, StringAt(text, buf, BE, pos + 4, 4, "Type", "")] + tail)))
  {
  }

  /** The data read by a cursor forked at the end of the type over Length bytes, then the
      CRC read at the end of the type plus Length. */
  method ParseChunkTail(p: ParseHelper, pos: nat, typeEnd: int, tag: string, ghost n: nat, ghost text: TextDecoder, ghost buf: seq<byte>)
    returns (r: Result<seq<Region>>)
    requires p.text == text && p.buffer == buf && p.endian == BE && p.position == pos + 8 && typeEnd == pos + 8
    requires "Length" in p.num && p.num["Length"] == n && "Type" in p.regionCache
    modifies p
    ensures p.endian == BE
    ensures r == ChunkTail(text, buf, pos, n, tag)
    ensures r.Ok? ==> p.position == pos + 12 + n
    ensures "Type" in p.regionCache && p.regionCache["Type"] == old(p.regionCache["Type"])
  {
    var q := p.Fork(-1, p.num["Length"]);
    ghost var prefix := Slice(buf, 0, pos + 8 + n);
    assert q.buffer == prefix;
    var data := ParseTrunkData(q, pos + 8, tag, text, prefix);
    if data.Err? {
      ChunkTailFails(text, buf, pos, n, tag);
      return Err(data.error);
    }
    var crc := p.CreateRegion(Number, typeEnd + p.num["Length"], 4, "CRC", "", NoCallback);
    ChunkTailOf(text, buf, pos, n, tag, data.value, crc);
    if crc.Err? {
      return Err(crc.error);
    }
    return Ok([data.value, crc.value]);
  }

  /** A chunk tail whose data cannot be read. */
  lemma ChunkTailFails(text: TextDecoder, buf: seq<byte>, pos: nat, n: nat, tag: string)
    requires TrunkData(text, Slice(buf, 0, pos + 8 + n), pos + 8, tag).Err?
    ensures ChunkTail(text, buf, pos, n, tag) == Err(TrunkData(text, Slice(buf, 0, pos + 8 + n), pos + 8, tag).error)
  {
  }

  /** A chunk tail whose data has been read. */
  lemma ChunkTailOf(text: TextDecoder, buf: seq<byte>, pos: nat, n: nat, tag: string, data: Region, crc: Result<Region>)
    requires TrunkData(text, Slice(buf, 0, pos + 8 + n), pos + 8, tag) == Ok(data)
    requires FieldAt(text, buf, BE, pos + 8 + n, N(4, "CRC")) == crc
    ensures ChunkTail(text, buf, pos, n, tag) == if crc.Err? then Err(crc.error) else Ok([data, crc.value])
  {
  }

  /** `parseTrunkData(p, type)` on a forked cursor at `start`. */
  method ParseTrunkData(q: ParseHelper, start: nat, tag: string, ghost text: TextDecoder, ghost data: seq<byte>)
    returns (r: Result<Region>)
    requires q.text == text && q.buffer == data && q.endian == BE && q.position == start
    modifies q
    ensures r == TrunkData(text, data, start, tag)
  {
    if tag == "IHDR" {
      var header := q.CreateCompoundRegion(-1, -1, "Data - Header", "", []);
      var rows := ParseImageHeader(q, start, text, data);
      if rows.Err? {
        return Err(rows.error);
      }
      return Ok(header.(children := Sub(rows.value)));
    } else if tag == "tEXt" {
      var entry := ParseTextData(q, start, text, data);
      return Ok(entry);
    } else {
      var span := q.CreateGeneralRegion(-1, |q.buffer| - q.position, "Data", "");
      return Ok(span);
    }
  }

  /** The seven IHDR numbers. */
  method ParseImageHeader(q: ParseHelper, start: nat, ghost text: TextDecoder, ghost data: seq<byte>)
    returns (r: Result<seq<Region>>)
    requires q.text == text && q.buffer == data && q.endian == BE && q.position == start
    modifies q
    ensures r == ImageHeader(text, data, start)
  {
    var dimensions := ParseDimensions(q, start, text, data);
    if dimensions.Err? {
      return Err(dimensions.error);
    }
    var modes := ParseDepthAndColor(q, start, text, data);
    if modes.Err? {
      return Err(modes.error);
    }
    var methods := ParseMethods(q, start, text, data);
    if methods.Err? {
      return Err(methods.error);
    }
    return Ok(dimensions.value + modes.value + methods.value);
  }

  method ParseDimensions(q: ParseHelper, start: nat, ghost text: TextDecoder, ghost data: seq<byte>)
    returns (r: Result<seq<Region>>)
    requires q.text == text && q.buffer == data && q.endian == BE && q.position == start
    modifies q
    ensures q.endian == BE
    ensures r == Dimensions(text, data, start)
    ensures r.Ok? ==> q.position == start + 8
  {
    var width := q.CreateRegion(Number, -1, 4, "Width", "", NoCallback);
    if width.Err? {
      return Err(width.error);
    }
    var height := q.CreateRegion(Number, -1, 4, "Height", "", NoCallback);
    if height.Err? {
      return Err(height.error);
    }
    return Ok([width.value, height.value]);
  }

  method ParseDepthAndColor(q: ParseHelper, start: int, ghost text: TextDecoder, ghost data: seq<byte>)
    returns (r: Result<seq<Region>>)
    requires q.text == text && q.buffer == data && q.endian == BE && q.position == start + 8
    modifies q
    ensures q.endian == BE
    ensures r == DepthAndColor(text, data, start)
    ensures r.Ok? ==> q.position == start + 10
  {
    var depth := q.CreateRegion(Number, -1, 1, "Bit depth", "", NoCallback);
    if depth.Err? {
      return Err(depth.error);
    }
    var color := q.CreateRegion(Number, -1, 1, "Color type", "", NoCallback);
    if color.Err? {
      return Err(color.error);
    }
    return Ok([depth.value, color.value]);
  }

  method ParseMethods(q: ParseHelper, start: int, ghost text: TextDecoder, ghost data: seq<byte>)
    returns (r: Result<seq<Region>>)
    requires q.text == text && q.buffer == data && q.endian == BE && q.position == start + 10
    modifies q
    ensures r == Methods(text, data, start)
  {
    var compress := q.CreateRegion(Number, -1, 1, "Compress method", "", NoCallback);
    if compress.Err? {
      return Err(compress.error);
    }
    var filter := q.CreateRegion(Number, -1, 1, "Filter method", "", NoCallback);
    if filter.Err? {
      return Err(filter.error);
    }
    var interlace := q.CreateRegion(Number, -1, 1, "Interlace method", "", NoCallback);
    if interlace.Err? {
      return Err(interlace.error);
    }
    return Ok([compress.value, filter.value, interlace.value]);
  }

  /** The key scan of a tEXt chunk: `s` moves on while it is inside the data and on a
      non-zero byte. */
  method ScanKey(data: seq<byte>, start: nat) returns (s: nat)
    ensures s == KeyEnd(data, start) && start <= s
  {
    s := start;
    while s < |data| && data[s] != 0
      invariant start <= s && KeyEnd(data, start) == KeyEnd(data, s)
      decreases |data| - s
    {
      s := s + 1;
    }
  }

  /** A tEXt chunk: the `Data` compound over the rest of the data, then key, separator and
      value, and the text built from the cached key and value. */
  method ParseTextData(q: ParseHelper, start: nat, ghost text: TextDecoder, ghost data: seq<byte>) returns (r: Region)
    requires q.text == text && q.buffer == data && q.endian == BE && q.position == start
    modifies q
    ensures r == TextData(text, data, start)
  {
    r := q.CreateCompoundRegion(-1, -1, "Data", "", []);
    var e := ScanKey(q.buffer, q.position);
    var key, sep := ParseKey(q, start, e, text, data);
    var value := q.CreateStringRegion(-1, -1, "value", "");
    r := r.(children := Sub([key, sep, value]),
            strValue := Some(q.regionCache["key"].strValue.value + ":" + q.regionCache["value"].strValue.value));
  }

  /** The key up to `e` and the separator after it; the key lands in the cache. */
  method ParseKey(q: ParseHelper, start: nat, e: nat, ghost text: TextDecoder, ghost data: seq<byte>) returns (key: Region, sep: Region)
    requires q.text == text && q.buffer == data && q.endian == BE && q.position == start <= e
    modifies q
    ensures q.endian == BE && q.position == e + 1
    ensures key == StringAt(text, data, BE, start, e - start, "key", "") && sep == GeneralAt(BE, e, 1, "sep", "")
    ensures "key" in q.regionCache && q.regionCache["key"] == key
  {
    key := q.CreateStringRegion(-1, e - q.position, "key", "");
    sep := q.CreateGeneralRegion(-1, 1, "sep", "");
  }
}
