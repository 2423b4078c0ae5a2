/** The ICO decoder of src/parser/ico.ts: the 4-byte signature 00 00 01 00, the image count,
    then one 16-byte directory per image from byte 6 on, each naming the span of its image
    data. All numbers are little-endian. */
module Ico {
  import opened Wrappers
  import opened CommonUtil
  import opened Dom
  import opened CommonParser
  import Text

  const Signature: seq<byte> := [0, 0, 1, 0]

  const SignatureField := Field(General, 4, "signature", "ICO file signature (00 00 01 00)", Expect(Signature))
  const CountField := N(2, "imageSize", "number of images the ico contains")
  const WidthField := Field(Number, 1, "width", "image width in pixels", ZeroMeans256)
  const HeightField := Field(Number, 1, "height", "image height in pixels", ZeroMeans256)

  /** The signature, checked by `CV`, and the image count. */
  function Head(text: TextDecoder, buf: seq<byte>): Result<seq<Region>>
  {
    var signature :- FieldAt(text, buf, LE, 0, SignatureField);
    var count :- FieldAt(text, buf, LE, 4, CountField);
    Ok([signature, count])
  }

  /** The first two rows of a directory: width and height, where a stored 0 means 256. */
  function DirSize(text: TextDecoder, buf: seq<byte>, pos: int): Result<seq<Region>>
  {
    var width :- FieldAt(text, buf, LE, pos, WidthField);
    var height :- FieldAt(text, buf, LE, pos + 1, HeightField);
    Ok([width, height])
  }

  /** paletteNumber(1) and reserved(1). */
  function DirPalette(text: TextDecoder, buf: seq<byte>, pos: int): Result<seq<Region>>
  {
    var palette :- FieldAt(text, buf, LE, pos + 2, N(1, "paletteNumber", "number of colors in the color palette"));
    var reserved :- FieldAt(text, buf, LE, pos + 3, N(1, "reserved", "should be 0"));
    Ok([palette, reserved])
  }

  /** planes(2) and bits(2). */
  function DirPlanes(text: TextDecoder, buf: seq<byte>, pos: int): Result<seq<Region>>
  {
    var planes :- FieldAt(text, buf, LE, pos + 4, N(2, "planes", "color planes"));
    var bits :- FieldAt(text, buf, LE, pos + 6, N(2, "bits", "bits per pixel"));
    Ok([planes, bits])
  }

  /** size(4) and offset(4) of the image data. */
  function DirData(text: TextDecoder, buf: seq<byte>, pos: int): Result<seq<Region>>
  {
    var size :- FieldAt(text, buf, LE, pos + 8, N(4, "size", "image size in bytes"));
    var offset :- FieldAt(text, buf, LE, pos + 12, N(4, "offset", "offset of the image data"));
    Ok([size, offset])
  }

  /** The first four rows of a directory at `pos`. */
  function DirFront(text: TextDecoder, buf: seq<byte>, pos: int): Result<seq<Region>>
  {
    var a :- DirSize(text, buf, pos);
    var b :- DirPalette(text, buf, pos);
    Ok(a + b)
  }

  /** The last four rows of a directory at `pos`. */
  function DirBack(text: TextDecoder, buf: seq<byte>, pos: int): Result<seq<Region>>
  {
    var c :- DirPlanes(text, buf, pos);
    var d :- DirData(text, buf, pos);
    Ok(c + d)
  }

  /** The eight rows of a directory at `pos`, each where the previous one ends. */
  function DirFields(text: TextDecoder, buf: seq<byte>, pos: int): Result<seq<Region>>
  {
    var front :- DirFront(text, buf, pos);
    var back :- DirBack(text, buf, pos);
    Ok(front + back)
  }

  /** The memo values a directory leaves behind: the numbers as stored, before the 0-to-256
      callback. */
  datatype IconMemo = IconMemo(width: int, height: int, bits: int, size: int, offset: int)

  function Memo(buf: seq<byte>, pos: int): Result<IconMemo>
  {
    var width :- Raw(buf, pos, 1);
    var height :- Raw(buf, pos + 1, 1);
    var bits :- Raw(buf, pos + 6, 2);
    var size :- Raw(buf, pos + 8, 4);
    var offset :- Raw(buf, pos + 12, 4);
    Ok(IconMemo(width, height, bits, size, offset))
  }

  /** The memo values are unsigned reads. */
  lemma MemoUnsigned(buf: seq<byte>, pos: int)
    requires Memo(buf, pos).Ok?
    ensures var m := Memo(buf, pos).value;
            0 <= m.width < 256 && 0 <= m.height < 256 && 0 <= m.bits && 0 <= m.size && 0 <= m.offset
  {
    UnsignedRange(buf, pos, pos + 1, false);
    UnsignedRange(buf, pos + 1, pos + 2, false);
    UnsignedRange(buf, pos + 6, pos + 8, false);
    UnsignedRange(buf, pos + 8, pos + 12, false);
    UnsignedRange(buf, pos + 12, pos + 16, false);
  }

  /** `${width}x${height} ${bits} bits`, from the memo. */
  function Description(m: IconMemo): string
  {
    Text.Decimal(m.width) + "x" + Text.Decimal(m.height) + " " + Text.Decimal(m.bits) + " bits"
  }

  /** A directory and the image it points at. */
  datatype IconEntry = IconEntry(dir: Region, image: Region)

  /** The directory at `pos` with its rows and description, and the `images` region over the
      `size` bytes at `offset`. */
  function EntryOf(pos: int, fields: seq<Region>, m: IconMemo): IconEntry
  {
    IconEntry(Region("iconDirectory", Compound, Description(m), pos, pos + 16, Some(LE), None, None, None, Sub(fields)),
              Region("images", General, "", m.offset, m.offset + m.size, Some(LE), None, None, None, NoChildren))
  }

  /** One turn of the loop of `parse`, for the directory at `pos`. */
  function Entry(text: TextDecoder, buf: seq<byte>, pos: int): Result<IconEntry>
  {
    var fields :- DirFields(text, buf, pos);
    var m :- Memo(buf, pos);
    Ok(EntryOf(pos, fields, m))
  }

  /** The directories and images read so far. */
  datatype Icons = Icons(dirs: seq<Region>, images: seq<Region>)

  /** The entry read at an offset. */
  type ReadEntryAt = int -> Result<IconEntry>

  function EntryReader(text: TextDecoder, buf: seq<byte>): ReadEntryAt
  {
    (pos: int) => Entry(text, buf, pos)
  }

  /** `read` reads the directory entry at `pos`. Stated per offset, so that a proof about
      the loop sees an entry's fields only at the offsets it asks about. */
  ghost predicate ReadsEntry(read: ReadEntryAt, text: TextDecoder, buf: seq<byte>, pos: int)
  {
    read(pos) == Entry(text, buf, pos)
  }

  /** `read` reads the directory entry at every offset. */
  ghost predicate IsEntryReader(read: ReadEntryAt, text: TextDecoder, buf: seq<byte>)
  {
    forall pos :: ReadsEntry(read, text, buf, pos)
  }

  /** The reader of `parse` reads entries at every offset. */
  lemma ReaderReadsEntries(text: TextDecoder, buf: seq<byte>)
    ensures IsEntryReader(EntryReader(text, buf), text, buf)
  {
  }

  /** Turn i of the loop reads the directory at 6 + 16i. */
  function Row(read: ReadEntryAt, i: int): Result<IconEntry>
  {
    read(6 + 16 * i)
  }

  /** The first `k` turns of the loop; the first failing directory decides the outcome. */
  function Entries(read: ReadEntryAt, k: nat): (r: Result<Icons>)
    ensures r.Ok? ==> |r.value.dirs| == k && |r.value.images| == k
  {
    if k == 0 then Ok(Icons([], []))
    else
      var prev :- Entries(read, k - 1);
      var e :- Row(read, k - 1);
      Ok(Icons(prev.dirs + [e.dir], prev.images + [e.image]))
  }

  /** The directories under `iconDirectories`, declared over `16 * n` bytes from 6, and the
      images under `images`, declared empty at 0. */
  function Body(read: ReadEntryAt, n: int): Result<seq<Region>>
  {
    var icons :- Entries(read, if n < 0 then 0 else n);
    Ok([Region("iconDirectories", Compound, "", 6, 6 + 16 * n, Some(LE), None, None, None, Sub(icons.dirs)),
        Region("images", Compound, "", 0, 0, Some(LE), None, None, None, Sub(icons.images))])
  }

  /** What `parse` returns: the signature, the count, then the directories and images of
      `count` entries. */
  function IcoRegions(text: TextDecoder, buf: seq<byte>): Result<seq<Region>>
  {
    var head :- Head(text, buf);
    var n :- Raw(buf, 4, 2);
    var body :- Body(EntryReader(text, buf), n);
    Ok(head + body)
  }

  /** The loop grows by the entry just read. */
  lemma EntriesStep(read: ReadEntryAt, i: nat, prev: Icons, e: IconEntry)
    requires Entries(read, i) == Ok(prev) && Row(read, i) == Ok(e)
    ensures Entries(read, i + 1) == Ok(Icons(prev.dirs + [e.dir], prev.images + [e.image]))
  {
  }

  /** The loop fails with the error of its first failing entry. */
  lemma {:induction false} EntriesFail(read: ReadEntryAt, i: nat, k: nat)
    requires i < k && Entries(read, i).Ok? && Row(read, i).Err?
    ensures Entries(read, k) == Err(Row(read, i).error)
  {
    if k > i + 1 {
      EntriesFail(read, i, k - 1);
    }
  }

  /** width and height; both memo values land in the memo. */
  method ParseDirSize(p: ParseHelper, pos: int, ghost text: TextDecoder, ghost buf: seq<byte>)
    returns (r: Result<seq<Region>>)
    requires p.text == text && p.buffer == buf && p.endian == LE && pos >= 0
    modifies p
    ensures r == DirSize(text, buf, pos)
    ensures r.Ok? ==> "width" in p.num && Ok(p.num["width"]) == Raw(buf, pos, 1)
                      && "height" in p.num && Ok(p.num["height"]) == Raw(buf, pos + 1, 1)
                      && p.position == pos + 2
    ensures Same(old(p.num), p.num, "imageSize") && p.endian == LE
  {
    var width := p.CreateRegion(Number, pos, 1, "width", "image width in pixels", ZeroMeans256);
    if width.Err? {
      return Err(width.error);
    }
    var height := p.CreateRegion(Number, -1, 1, "height", "image height in pixels", ZeroMeans256);
    if height.Err? {
      return Err(height.error);
    }
    return Ok([width.value, height.value]);
  }

  /** paletteNumber and reserved. */
  method ParseDirPalette(p: ParseHelper, pos: int, ghost text: TextDecoder, ghost buf: seq<byte>)
    returns (r: Result<seq<Region>>)
    requires p.text == text && p.buffer == buf && p.endian == LE && pos >= 0 && p.position == pos + 2
    modifies p
    ensures r == DirPalette(text, buf, pos)
    ensures r.Ok? ==> p.position == pos + 4
    ensures Same(old(p.num), p.num, "imageSize") && Same(old(p.num), p.num, "width") && Same(old(p.num), p.num, "height")
    ensures p.endian == LE
  {
    var palette := p.CreateRegion(Number, -1, 1, "paletteNumber", "number of colors in the color palette", NoCallback);
    if palette.Err? {
      return Err(palette.error);
    }
    var reserved := p.CreateRegion(Number, -1, 1, "reserved", "should be 0", NoCallback);
    if reserved.Err? {
      return Err(reserved.error);
    }
    return Ok([palette.value, reserved.value]);
  }

  /** planes and bits; the bit count lands in the memo. */
  method ParseDirPlanes(p: ParseHelper, pos: int, ghost text: TextDecoder, ghost buf: seq<byte>)
    returns (r: Result<seq<Region>>)
    requires p.text == text && p.buffer == buf && p.endian == LE && pos >= 0 && p.position == pos + 4
    modifies p
    ensures r == DirPlanes(text, buf, pos)
    ensures r.Ok? ==> "bits" in p.num && Ok(p.num["bits"]) == Raw(buf, pos + 6, 2) && p.position == pos + 8
    ensures Same(old(p.num), p.num, "imageSize") && Same(old(p.num), p.num, "width") && Same(old(p.num), p.num, "height")
    ensures p.endian == LE
  {
    var planes := p.CreateRegion(Number, -1, 2, "planes", "color planes", NoCallback);
    if planes.Err? {
      return Err(planes.error);
    }
    var bits := p.CreateRegion(Number, -1, 2, "bits", "bits per pixel", NoCallback);
    if bits.Err? {
      return Err(bits.error);
    }
    return Ok([planes.value, bits.value]);
  }

  /** size and offset of the image data; both land in the memo. */
  method ParseDirData(p: ParseHelper, pos: int, ghost text: TextDecoder, ghost buf: seq<byte>)
    returns (r: Result<seq<Region>>)
    requires p.text == text && p.buffer == buf && p.endian == LE && pos >= 0 && p.position == pos + 8
    modifies p
    ensures r == DirData(text, buf, pos)
    ensures r.Ok? ==> "size" in p.num && Ok(p.num["size"]) == Raw(buf, pos + 8, 4)
                      && "offset" in p.num && Ok(p.num["offset"]) == Raw(buf, pos + 12, 4)
    ensures Same(old(p.num), p.num, "imageSize") && Same(old(p.num), p.num, "width") && Same(old(p.num), p.num, "height")
    ensures Same(old(p.num), p.num, "bits") && p.endian == LE
  {
    var size := p.CreateRegion(Number, -1, 4, "size", "image size in bytes", NoCallback);
    if size.Err? {
      return Err(size.error);
    }
    var offset := p.CreateRegion(Number, -1, 4, "offset", "offset of the image data", NoCallback);
    if offset.Err? {
      return Err(offset.error);
    }
    return Ok([size.value, offset.value]);
  }

  /** The first four rows of a directory; width and height land in the memo. */
  method ParseDirFront(p: ParseHelper, pos: int, ghost text: TextDecoder, ghost buf: seq<byte>)
    returns (r: Result<seq<Region>>)
    requires p.text == text && p.buffer == buf && p.endian == LE && pos >= 0
    modifies p
    ensures r == DirFront(text, buf, pos)
    ensures r.Ok? ==> "width" in p.num && Ok(p.num["width"]) == Raw(buf, pos, 1)
                      && "height" in p.num && Ok(p.num["height"]) == Raw(buf, pos + 1, 1)
                      && p.position == pos + 4
    ensures Same(old(p.num), p.num, "imageSize") && p.endian == LE
  {
    var a := ParseDirSize(p, pos, text, buf);
    if a.Err? {
      return Err(a.error);
    }
    var b := ParseDirPalette(p, pos, text, buf);
    if b.Err? {
      return Err(b.error);
    }
    return Ok(a.value + b.value);
  }

  /** The last four rows of a directory; bits, size and offset land in the memo, and the
      earlier width and height stay. */
  method ParseDirBack(p: ParseHelper, pos: int, ghost text: TextDecoder, ghost buf: seq<byte>)
    returns (r: Result<seq<Region>>)
    requires p.text == text && p.buffer == buf && p.endian == LE && pos >= 0 && p.position == pos + 4
    modifies p
    ensures r == DirBack(text, buf, pos)
    ensures r.Ok? ==> && "bits" in p.num && Ok(p.num["bits"]) == Raw(buf, pos + 6, 2)
                      && "size" in p.num && Ok(p.num["size"]) == Raw(buf, pos + 8, 4)
                      && "offset" in p.num && Ok(p.num["offset"]) == Raw(buf, pos + 12, 4)
    ensures Same(old(p.num), p.num, "imageSize") && Same(old(p.num), p.num, "width") && Same(old(p.num), p.num, "height")
    ensures p.endian == LE
  {
    var c := ParseDirPlanes(p, pos, text, buf);
    if c.Err? {
      return Err(c.error);
    }
    var d := ParseDirData(p, pos, text, buf);
    if d.Err? {
      return Err(d.error);
    }
    return Ok(c.value + d.value);
  }

  /** The eight rows of a directory, which leave its memo values behind. */
  method ParseDirFields(p: ParseHelper, pos: int, ghost text: TextDecoder, ghost buf: seq<byte>)
    returns (r: Result<seq<Region>>)
    requires p.text == text && p.buffer == buf && p.endian == LE && pos >= 0
    modifies p
    ensures r == DirFields(text, buf, pos)
    ensures r.Ok? ==> && "width" in p.num && "height" in p.num && "bits" in p.num && "size" in p.num && "offset" in p.num
                      && Memo(buf, pos) == Ok(IconMemo(p.num["width"], p.num["height"], p.num["bits"], p.num["size"], p.num["offset"]))
    ensures Same(old(p.num), p.num, "imageSize") && p.endian == LE
  {
    var front := ParseDirFront(p, pos, text, buf);
    if front.Err? {
      return Err(front.error);
    }
    var back := ParseDirBack(p, pos, text, buf);
    if back.Err? {
      return Err(back.error);
    }
    return Ok(front.value + back.value);
  }

  /** One turn of the loop: the directory at 6 + 16i, its rows, its description from the
      memo, and the image region it points at. */
  method ParseDirectory(p: ParseHelper, pos: int, ghost text: TextDecoder, ghost buf: seq<byte>)
    returns (r: Result<IconEntry>)
    requires p.text == text && p.buffer == buf && p.endian == LE && pos >= 0
    modifies p
    ensures r == Entry(text, buf, pos)
    ensures Same(old(p.num), p.num, "imageSize") && p.endian == LE
  {
    var dir := p.CreateCompound(pos, 16, "iconDirectory", "");
    var fields := ParseDirFields(p, pos, text, buf);
    if fields.Err? {
      return Err(fields.error);
    }
    var m := IconMemo(p.num["width"], p.num["height"], p.num["bits"], p.num["size"], p.num["offset"]);
    MemoUnsigned(buf, pos);
    var image := p.CreateGeneralRegion(p.num["offset"], p.num["size"], "images", "");
    assert image == EntryOf(pos, fields.value, m).image;
    return Ok(IconEntry(dir.(description := Description(m), children := Sub(fields.value)), image));
  }

  /** Turn i of the loop of `parse`. */
  method ParseEntry(p: ParseHelper, i: nat, ghost read: ReadEntryAt, ghost text: TextDecoder, ghost buf: seq<byte>)
    returns (r: Result<IconEntry>)
    requires p.text == text && p.buffer == buf && p.endian == LE
    requires IsEntryReader(read, text, buf)
    modifies p
    ensures r == Row(read, i)
    ensures Same(old(p.num), p.num, "imageSize") && p.endian == LE
  {
    r := ParseDirectory(p, 6 + 16 * i, text, buf);
    assert ReadsEntry(read, text, buf, 6 + 16 * i);
  }

  /** The loop of `parse`; its bound is re-read from the memo on every turn, and no entry
      overwrites it. */
  method ParseEntries(p: ParseHelper, n: int, ghost read: ReadEntryAt, ghost text: TextDecoder, ghost buf: seq<byte>)
    returns (r: Result<Icons>)
    requires p.text == text && p.buffer == buf
    requires p.endian == LE && "imageSize" in p.num && p.num["imageSize"] == n && n >= 0
    requires IsEntryReader(read, text, buf)
    modifies p
    ensures r == Entries(read, n)
  {
    var icons := Icons([], []);
    var i := 0;
    while i < p.num["imageSize"]
      invariant 0 <= i <= n
      invariant p.endian == LE
      invariant "imageSize" in p.num && p.num["imageSize"] == n
      invariant Entries(read, i) == Ok(icons)
      decreases n - i
    {
      var e := ParseEntry(p, i, read, text, buf);
      if e.Err? {
        EntriesFail(read, i, n);
        return Err(e.error);
      }
      EntriesStep(read, i, icons, e.value);
      icons := Icons(icons.dirs + [e.value.dir], icons.images + [e.value.image]);
      i := i + 1;
    }
    assert i == n;
    return Ok(icons);
  }

  /** The signature and the count; the count lands in the memo. */
  method ParseHead(p: ParseHelper, ghost text: TextDecoder, ghost buf: seq<byte>) returns (r: Result<seq<Region>>)
    requires p.text == text && p.buffer == buf && p.endian == LE
    modifies p
    ensures r == Head(text, buf)
    ensures r.Ok? ==> "imageSize" in p.num && Ok(p.num["imageSize"]) == Raw(buf, 4, 2)
    ensures p.endian == LE
  {
    var signature := p.CreateRegion(General, 0, 4, "signature", "ICO file signature (00 00 01 00)", Expect(Signature));
    if signature.Err? {
      return Err(signature.error);
    }
    var count := p.CreateRegion(Number, 4, 2, "imageSize", "number of images the ico contains", NoCallback);
    if count.Err? {
      return Err(count.error);
    }
    return Ok([signature.value, count.value]);
  }

  /** The two compound regions, then the loop that fills them. */
  method ParseBody(p: ParseHelper, n: int, ghost read: ReadEntryAt, ghost text: TextDecoder, ghost buf: seq<byte>)
    returns (r: Result<seq<Region>>)
    requires p.text == text && p.buffer == buf
    requires p.endian == LE && "imageSize" in p.num && p.num["imageSize"] == n && n >= 0
    requires IsEntryReader(read, text, buf)
    modifies p
    ensures r == Body(read, n)
  {
    var dirs := p.CreateCompound(6, 16 * n, "iconDirectories", "");
    var images := p.CreateCompound(0, 0, "images", "");
    var icons := ParseEntries(p, n, read, text, buf);
    if icons.Err? {
      return Err(icons.error);
    }
    return Ok([dirs.(children := Sub(icons.value.dirs)), images.(children := Sub(icons.value.images))]);
  }

  /** `parse(buffer)`. */
  method Parse(text: TextDecoder, buffer: seq<byte>) returns (r: Result<seq<Region>>)
    ensures r == IcoRegions(text, buffer)
  {
    var p := new ParseHelper(text, buffer);
    p.SetEndian(LE);
    var head := ParseHead(p, text, buffer);
    if head.Err? {
      return Err(head.error);
    }
    UnsignedRange(buffer, 4, 6, false);
    ReaderReadsEntries(text, buffer);
    var body := ParseBody(p, p.num["imageSize"], EntryReader(text, buffer), text, buffer);
    if body.Err? {
      return Err(body.error);
    }
    return Ok(head.value + body.value);
  }

  /** A row named `id` over the `width` bytes at `start`. */
  predicate RowAt(r: Region, id: string, start: int, width: int)
  {
    r.id == id && r.startPos == start && r.endPos == start + width
  }

  /** A stored width or height of 0 means 256. */
  function Dimension(b: byte): int
  {
    if b == 0 then 256 else b
  }

  /** The facts a directory at `pos` and its image carry: the 16 bytes of the directory hold
      eight rows of widths 1, 1, 1, 1, 2, 2, 4, 4; width and height read 0 as 256, but the
      description shows the stored numbers; the image spans the `size` bytes at `offset`. */
  ghost predicate IconDirectory(buf: seq<byte>, pos: int, e: IconEntry)
  {
    && 0 <= pos && pos + 16 <= |buf|
    && var kids := e.dir.Kids();
    && e.dir.id == "iconDirectory" && e.dir.startPos == pos && e.dir.endPos == pos + 16 && |kids| == 8
    && DirectoryRows(buf, pos, kids)
    && e.dir.description == Description(IconMemo(buf[pos], buf[pos + 1], CommonUtil.LE(buf[pos + 6..pos + 8]),
                                                 CommonUtil.LE(buf[pos + 8..pos + 12]), CommonUtil.LE(buf[pos + 12..pos + 16])))
    && e.image.id == "images" && e.image.kind == General
    && e.image.startPos == CommonUtil.LE(buf[pos + 12..pos + 16])
    && e.image.endPos == e.image.startPos + CommonUtil.LE(buf[pos + 8..pos + 12])
  }

  /** A one-byte little-endian read is the byte. */
  lemma OneByte(buf: seq<byte>, pos: int)
    requires 0 <= pos < |buf|
    ensures CommonUtil.LE(buf[pos..pos + 1]) == buf[pos]
  {
    assert buf[pos..pos + 1][1..] == [];
  }

  /** The eight rows of a directory at `pos`, as the directory lists them. */
  ghost predicate DirectoryRows(buf: seq<byte>, pos: int, kids: seq<Region>)
    requires 0 <= pos && pos + 16 <= |buf|
  {
    && |kids| == 8
    && RowAt(kids[0], "width", pos, 1) && RowAt(kids[1], "height", pos + 1, 1)
    && RowAt(kids[2], "paletteNumber", pos + 2, 1) && RowAt(kids[3], "reserved", pos + 3, 1)
    && RowAt(kids[4], "planes", pos + 4, 2) && RowAt(kids[5], "bits", pos + 6, 2)
    && RowAt(kids[6], "size", pos + 8, 4) && RowAt(kids[7], "offset", pos + 12, 4)
    && kids[0].numValue == Some(Dimension(buf[pos])) && kids[1].numValue == Some(Dimension(buf[pos + 1]))
    && kids[5].numValue == Some(CommonUtil.LE(buf[pos + 6..pos + 8]))
    && kids[6].numValue == Some(CommonUtil.LE(buf[pos + 8..pos + 12]))
    && kids[7].numValue == Some(CommonUtil.LE(buf[pos + 12..pos + 16]))
  }

  /** The first four rows read exactly when their four bytes lie in the buffer. */
  lemma DirFrontFacts(text: TextDecoder, buf: seq<byte>, pos: int)
    requires pos >= 0
    ensures var r := DirFront(text, buf, pos);
            && (r.Ok? <==> pos + 4 <= |buf|)
            && (r.Ok? ==>
                  && |r.value| == 4
                  && RowAt(r.value[0], "width", pos, 1) && RowAt(r.value[1], "height", pos + 1, 1)
                  && RowAt(r.value[2], "paletteNumber", pos + 2, 1) && RowAt(r.value[3], "reserved", pos + 3, 1)
                  && r.value[0].numValue == Some(Dimension(buf[pos]))
                  && r.value[1].numValue == Some(Dimension(buf[pos + 1])))
  {
    if pos + 4 <= |buf| {
      OneByte(buf, pos);
      OneByte(buf, pos + 1);
    }
  }

  /** The last four rows read exactly when bytes `pos + 4 .. pos + 16` lie in the buffer. */
  lemma DirBackFacts(text: TextDecoder, buf: seq<byte>, pos: int)
    requires pos >= 0
    ensures var r := DirBack(text, buf, pos);
            && (r.Ok? <==> pos + 16 <= |buf|)
            && (r.Ok? ==>
                  && |r.value| == 4
                  && RowAt(r.value[0], "planes", pos + 4, 2) && RowAt(r.value[1], "bits", pos + 6, 2)
                  && RowAt(r.value[2], "size", pos + 8, 4) && RowAt(r.value[3], "offset", pos + 12, 4)
                  && r.value[1].numValue == Some(CommonUtil.LE(buf[pos + 6..pos + 8]))
                  && r.value[2].numValue == Some(CommonUtil.LE(buf[pos + 8..pos + 12]))
                  && r.value[3].numValue == Some(CommonUtil.LE(buf[pos + 12..pos + 16])))
  {
    if pos + 16 > |buf| {
      assert DirData(text, buf, pos).Err?;
    }
  }

  /** A directory reads exactly when its 16 bytes lie in the buffer. */
  lemma EntryOk(text: TextDecoder, buf: seq<byte>, pos: int)
    requires pos >= 0
    ensures Entry(text, buf, pos).Ok? <==> pos + 16 <= |buf|
  {
    DirFrontFacts(text, buf, pos);
    DirBackFacts(text, buf, pos);
    if pos + 16 <= |buf| {
      assert Memo(buf, pos).Ok?;
    }
  }

  /** A directory that reads carries the facts of `IconDirectory`. */
  lemma EntryFacts(text: TextDecoder, buf: seq<byte>, pos: int)
    requires pos >= 0 && Entry(text, buf, pos).Ok?
    ensures IconDirectory(buf, pos, Entry(text, buf, pos).value)
  {
    EntryOk(text, buf, pos);
    DirFrontFacts(text, buf, pos);
    DirBackFacts(text, buf, pos);
    OneByte(buf, pos);
    OneByte(buf, pos + 1);
    assert DirectoryRows(buf, pos, DirFields(text, buf, pos).value);
  }

  /** Turn i of the loop reads exactly when directory i lies in the buffer, and then carries
      its facts. */
  lemma RowFacts(text: TextDecoder, buf: seq<byte>, read: ReadEntryAt, i: nat)
    requires IsEntryReader(read, text, buf)
    ensures Row(read, i).Ok? <==> 6 + 16 * i + 16 <= |buf|
    ensures Row(read, i).Ok? ==> IconDirectory(buf, 6 + 16 * i, Row(read, i).value)
  {
    assert ReadsEntry(read, text, buf, 6 + 16 * i);
    EntryOk(text, buf, 6 + 16 * i);
    if Row(read, i).Ok? {
      EntryFacts(text, buf, 6 + 16 * i);
    }
  }

  /** The loop reads completely iff each of its turns does, and then holds the directory and
      image of turn i at index i. */
  lemma {:induction false} EntriesOkIff(read: ReadEntryAt, k: nat)
    ensures Entries(read, k).Ok? <==> forall i :: 0 <= i < k ==> Row(read, i).Ok?
    ensures Entries(read, k).Ok? ==> forall i :: 0 <= i < k ==>
              Row(read, i) == Ok(IconEntry(Entries(read, k).value.dirs[i], Entries(read, k).value.images[i]))
  {
    if k > 0 {
      EntriesOkIff(read, k - 1);
    }
  }

  /** `n` directories read exactly when their 16n bytes from 6 on lie in the buffer; the list
      then spans them and holds directory i, read at 6 + 16i, with its image at index i. */
  lemma BodyLayout(text: TextDecoder, buf: seq<byte>, read: ReadEntryAt, n: nat)
    requires IsEntryReader(read, text, buf)
    ensures var r := Body(read, n);
            && (r.Ok? <==> n == 0 || 6 + 16 * n <= |buf|)
            && (r.Ok? ==>
                  && |r.value| == 2
                  && r.value[0].startPos == 6 && r.value[0].endPos == 6 + 16 * n
                  && |r.value[0].Kids()| == n && |r.value[1].Kids()| == n
                  && forall i :: 0 <= i < n ==>
                       IconDirectory(buf, 6 + 16 * i, IconEntry(r.value[0].Kids()[i], r.value[1].Kids()[i])))
  {
    EntriesOkIff(read, n);
    if n == 0 || 6 + 16 * n <= |buf| {
      forall i | 0 <= i < n
        ensures Row(read, i).Ok? && IconDirectory(buf, 6 + 16 * i, Row(read, i).value)
      {
        RowFacts(text, buf, read, i);
      }
    } else {
      RowFacts(text, buf, read, n - 1);
    }
  }

  /** The head reads exactly when the buffer starts with the signature and holds the count;
      the count is then read little-endian from bytes 4..6. */
  lemma HeadOk(text: TextDecoder, buf: seq<byte>)
    ensures var h := Head(text, buf);
            && (h.Ok? <==> |buf| >= 6 && buf[..4] == Signature)
            && (h.Ok? ==>
                  && |h.value| == 2
                  && RowAt(h.value[0], "signature", 0, 4)
                  && RowAt(h.value[1], "imageSize", 4, 2)
                  && h.value[1].numValue == Some(CommonUtil.LE(buf[4..6]))
                  && Raw(buf, 4, 2) == Ok(CommonUtil.LE(buf[4..6])))
  {
    if |buf| >= 4 {
      assert buf[0..4] == buf[..4];
    }
  }

  /** The whole decode: it succeeds exactly when the buffer starts with 00 00 01 00 and holds
      the count and all `count` directories; it then gives the signature, the count, the
      directories, of which the i-th sits at 6 + 16i, and their images in the same order. */
  lemma IcoLayout(text: TextDecoder, buf: seq<byte>)
    ensures var r := IcoRegions(text, buf);
            && (r.Ok? <==> |buf| >= 6 && buf[..4] == Signature && 6 + 16 * CommonUtil.LE(buf[4..6]) <= |buf|)
            && (r.Ok? ==>
                  var n := CommonUtil.LE(buf[4..6]);
                  && |r.value| == 4
                  && RowAt(r.value[0], "signature", 0, 4)
                  && RowAt(r.value[1], "imageSize", 4, 2) && r.value[1].numValue == Some(n)
                  && r.value[2].startPos == 6 && r.value[2].endPos == 6 + 16 * n
                  && |r.value[2].Kids()| == n && |r.value[3].Kids()| == n
                  && forall i :: 0 <= i < n ==>
                       IconDirectory(buf, 6 + 16 * i, IconEntry(r.value[2].Kids()[i], r.value[3].Kids()[i])))
  {
    HeadOk(text, buf);
    if Head(text, buf).Ok? {
      var n := CommonUtil.LE(buf[4..6]);
      var read := EntryReader(text, buf);
      ReaderReadsEntries(text, buf);
      BodyLayout(text, buf, read, n);
    }
  }

  /** `isSupportedFile`: by extension only. */
  predicate IsSupportedFile(ext: string)
  {
    ext == "ico"
  }
}
