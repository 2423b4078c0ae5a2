/** The TrueType decoder of src/parser/ttf.ts: the 12-byte offset subtable at the start of
    the font, then the table directory of `numTables` 16-byte entries right after it. All
    numbers are big-endian. */
module Ttf {
  import opened Wrappers
  import opened CommonUtil
  import opened Dom
  import opened CommonParser

  const SubTableDescription := " keeps record of the tables in the font and provides offset information to access each table in the directory"
  const DirectoryDescription := "Contains entries for each table in the font"
  const ScalarTypeDescription := "A tag to indicate the OFA scaler to be used to rasterize this font"

  /** The first two rows of the offset subtable: scalarType(4) and numTables(2), typed as a
      size. */
  function SubTableCounts(text: TextDecoder, buf: seq<byte>): Result<seq<Region>>
  {
    var scalarType :- FieldAt(text, buf, BE, 0, N(4, "scalarType", ScalarTypeDescription));
    var numTables :- FieldAt(text, buf, BE, 4, Field(Size, 2, "numTables", "", NoCallback));
    Ok([scalarType, numTables])
  }

  /** The last three rows of the offset subtable: searchRange(2), entrySelector(2),
      rangeShift(2). */
  function SubTableSearch(text: TextDecoder, buf: seq<byte>): Result<seq<Region>>
  {
    var searchRange :- FieldAt(text, buf, BE, 6, N(2, "searchRange"));
    var entrySelector :- FieldAt(text, buf, BE, 8, N(2, "entrySelector"));
    var rangeShift :- FieldAt(text, buf, BE, 10, N(2, "rangeShift"));
    Ok([searchRange, entrySelector, rangeShift])
  }

  /** The offset subtable: its five rows, each read where the previous one ends. */
  function OffsetSubTable(text: TextDecoder, buf: seq<byte>): Result<Region>
  {
    var counts :- SubTableCounts(text, buf);
    var search :- SubTableSearch(text, buf);
    Ok(Region("offsetSubTable", Compound, SubTableDescription, 0, 12, Some(BE), None, None, None,
              Sub(counts + search)))
  }

  /** The first two rows of a directory entry: tag(4) and checksum(4). */
  function EntryHead(text: TextDecoder, buf: seq<byte>, offset: int): Result<seq<Region>>
  {
    var tag :- FieldAt(text, buf, BE, offset, Field(Str, 4, "tag", "", NoCallback));
    var checksum :- FieldAt(text, buf, BE, offset + 4, N(4, "checksum"));
    Ok([tag, checksum])
  }

  /** The last two rows of a directory entry: offset(4) typed as a pointer and length(4)
      typed as a size. */
  function EntryTail(text: TextDecoder, buf: seq<byte>, offset: int): Result<seq<Region>>
  {
    var pointer :- FieldAt(text, buf, BE, offset + 8, Field(Offset, 4, "offset", "", NoCallback));
    var length :- FieldAt(text, buf, BE, offset + 12, Field(Size, 4, "length", "", NoCallback));
    Ok([pointer, length])
  }

  /** `parseTableDirectory(p, offset)`: one 16-byte entry of four rows, labelled with its
      tag. */
  function TableInfo(text: TextDecoder, buf: seq<byte>, offset: int): Result<Region>
  {
    var head :- EntryHead(text, buf, offset);
    var tail :- EntryTail(text, buf, offset);
    Ok(Region("TableInfo", Compound, "", offset, offset + 16, Some(BE), None, head[0].strValue, None,
              Sub(head + tail)))
  }

  /** The directory entry read at an offset. */
  function EntryReader(text: TextDecoder, buf: seq<byte>): ReadRecordAt
  {
    (offset: int) => TableInfo(text, buf, offset)
  }

  /** The table directory: `numTables` entries from byte 12 on, spanning `16 * numTables`
      bytes. */
  function Directory(text: TextDecoder, buf: seq<byte>, n: int): Result<Region>
  {
    var entries :- Table(EntryReader(text, buf), 12, 16, if n < 0 then 0 else n);
    Ok(Region("TableDirectory", Compound, DirectoryDescription, 12, 12 + 16 * n, Some(BE),
              None, None, None, Sub(entries)))
  }

  /** What `parse` returns: the offset subtable and the table directory. */
  function TtfRegions(text: TextDecoder, buf: seq<byte>): Result<seq<Region>>
  {
    var head :- OffsetSubTable(text, buf);
    var n :- ParseValueSpec(buf, 4, 6, true, false);
    var directory :- Directory(text, buf, n);
    Ok([head, directory])
  }

  /** The tag and checksum rows of an entry; the tag lands in the cache. */
  method ParseEntryHead(p: ParseHelper, offset: int, ghost text: TextDecoder, ghost buf: seq<byte>)
    returns (r: Result<seq<Region>>)
    requires p.text == text && p.buffer == buf && p.endian == BE
    modifies p
    requires offset >= 0
    ensures r == EntryHead(text, buf, offset)
    ensures r.Ok? ==> "tag" in p.regionCache && p.regionCache["tag"] == r.value[0] && p.position == offset + 8
    ensures "numTables" in old(p.num) ==> "numTables" in p.num && p.num["numTables"] == old(p.num["numTables"])
    ensures p.endian == BE
  {
    var tag := p.CreateRegion(Str, offset, 4, "tag", "", NoCallback);
    if tag.Err? {
      return Err(tag.error);
    }
    var checksum := p.CreateRegion(Number, -1, 4, "checksum", "", NoCallback);
    if checksum.Err? {
      return Err(checksum.error);
    }
    return Ok([tag.value, checksum.value]);
  }

  /** The offset and length rows of an entry, read where the checksum ends. */
  method ParseEntryTail(p: ParseHelper, offset: int, ghost text: TextDecoder, ghost buf: seq<byte>)
    returns (r: Result<seq<Region>>)
    requires p.text == text && p.buffer == buf && p.endian == BE && p.position == offset + 8
    modifies p
    ensures r == EntryTail(text, buf, offset)
    ensures "tag" in old(p.regionCache) ==> "tag" in p.regionCache && p.regionCache["tag"] == old(p.regionCache["tag"])
    ensures "numTables" in old(p.num) ==> "numTables" in p.num && p.num["numTables"] == old(p.num["numTables"])
    ensures p.endian == BE
  {
    var pointer := p.CreateRegion(Offset, -1, 4, "offset", "", NoCallback);
    if pointer.Err? {
      return Err(pointer.error);
    }
    var length := p.CreateRegion(Size, -1, 4, "length", "", NoCallback);
    if length.Err? {
      return Err(length.error);
    }
    return Ok([pointer.value, length.value]);
  }

  /** `parseTableDirectory`: the compound region, then its four rows from `offset` on; the
      entry takes the string of the `tag` region in the cache. */
  method ParseTableDirectory(p: ParseHelper, offset: int, ghost text: TextDecoder, ghost buf: seq<byte>)
    returns (r: Result<Region>)
    requires p.text == text && p.buffer == buf && p.endian == BE && offset >= 0
    modifies p
    ensures r == TableInfo(text, buf, offset)
    ensures "numTables" in old(p.num) ==> "numTables" in p.num && p.num["numTables"] == old(p.num["numTables"])
    ensures p.endian == BE
  {
    var entry := p.CreateCompound(offset, 16, "TableInfo", "");
    var head := ParseEntryHead(p, offset, text, buf);
    if head.Err? {
      return Err(head.error);
    }
    var tail := ParseEntryTail(p, offset, text, buf);
    if tail.Err? {
      return Err(tail.error);
    }
    entry := entry.(children := Sub(head.value + tail.value));
    return Ok(entry.(strValue := p.regionCache["tag"].strValue));
  }

  /** Entry i of the directory is the entry read at 12 + 16i. */
  lemma EntryRow(text: TextDecoder, buf: seq<byte>, i: int)
    ensures TableRow(EntryReader(text, buf), 12, 16, i) == TableInfo(text, buf, 12 + 16 * i)
  {
  }

  /** Entry i of the directory, read at 12 + 16i. */
  method ParseEntry(p: ParseHelper, i: nat, ghost text: TextDecoder, ghost buf: seq<byte>)
    returns (r: Result<Region>)
    requires p.text == text && p.buffer == buf && p.endian == BE
    modifies p
    ensures r == TableRow(EntryReader(text, buf), 12, 16, i)
    ensures "numTables" in old(p.num) ==> "numTables" in p.num && p.num["numTables"] == old(p.num["numTables"])
    ensures p.endian == BE
  {
    r := ParseTableDirectory(p, 12 + 16 * i, text, buf);
    EntryRow(text, buf, i);
  }

  /** The loop of `parse` over the `numTables` entries; the bound is re-read from the memo on
      every turn, and no entry overwrites it. */
  method ParseEntries(p: ParseHelper, n: int, ghost text: TextDecoder, ghost buf: seq<byte>) returns (r: Result<seq<Region>>)
    requires p.text == text && p.buffer == buf
    requires p.endian == BE && "numTables" in p.num && p.num["numTables"] == n && n >= 0
    modifies p
    ensures r == Table(EntryReader(text, buf), 12, 16, n)
  {
    var entries: seq<Region> := [];
    var i := 0;
    while i < p.num["numTables"]
      invariant 0 <= i <= n
      invariant p.endian == BE
      invariant "numTables" in p.num && p.num["numTables"] == n
      invariant Table(EntryReader(text, buf), 12, 16, i) == Ok(entries)
      decreases n - i
    {
      var e := ParseEntry(p, i, text, buf);
      if e.Err? {
        TableFails(EntryReader(text, buf), 12, 16, i, n);
        return Err(e.error);
      }
      TableStep(EntryReader(text, buf), 12, 16, i, entries, e.value);
      entries := entries + [e.value];
      i := i + 1;
    }
    return Ok(entries);
  }

  /** scalarType and numTables; the table count lands in the memo. */
  method ParseSubTableCounts(p: ParseHelper, ghost text: TextDecoder, ghost buf: seq<byte>) returns (r: Result<seq<Region>>)
    requires p.text == text && p.buffer == buf && p.endian == BE
    modifies p
    ensures r == SubTableCounts(text, buf)
    ensures r.Ok? ==> "numTables" in p.num && Ok(p.num["numTables"]) == ParseValueSpec(buf, 4, 6, true, false) && p.position == 6
    ensures p.endian == BE
  {
    var scalarType := p.CreateRegion(Number, 0, 4, "scalarType", ScalarTypeDescription, NoCallback);
    if scalarType.Err? {
      return Err(scalarType.error);
    }
    var numTables := p.CreateRegion(Size, -1, 2, "numTables", "", NoCallback);
    if numTables.Err? {
      return Err(numTables.error);
    }
    return Ok([scalarType.value, numTables.value]);
  }

  /** searchRange, entrySelector and rangeShift, from byte 6 on. */
  method ParseSubTableSearch(p: ParseHelper, ghost text: TextDecoder, ghost buf: seq<byte>) returns (r: Result<seq<Region>>)
    requires p.text == text && p.buffer == buf && p.endian == BE && p.position == 6
    modifies p
    ensures r == SubTableSearch(text, buf)
    ensures "numTables" in old(p.num) ==> "numTables" in p.num && p.num["numTables"] == old(p.num["numTables"])
    ensures p.endian == BE
  {
    var searchRange := p.CreateRegion(Number, -1, 2, "searchRange", "", NoCallback);
    if searchRange.Err? {
      return Err(searchRange.error);
    }
    var entrySelector := p.CreateRegion(Number, -1, 2, "entrySelector", "", NoCallback);
    if entrySelector.Err? {
      return Err(entrySelector.error);
    }
    var rangeShift := p.CreateRegion(Number, -1, 2, "rangeShift", "", NoCallback);
    if rangeShift.Err? {
      return Err(rangeShift.error);
    }
    return Ok([searchRange.value, entrySelector.value, rangeShift.value]);
  }

  /** The offset subtable: the compound region, then its five rows from 0 on. */
  method ParseOffsetSubTable(p: ParseHelper, ghost text: TextDecoder, ghost buf: seq<byte>) returns (head: Result<Region>)
    requires p.text == text && p.buffer == buf && p.endian == BE
    modifies p
    ensures head == OffsetSubTable(text, buf)
    ensures head.Ok? ==> "numTables" in p.num && Ok(p.num["numTables"]) == ParseValueSpec(buf, 4, 6, true, false)
    ensures p.endian == BE
  {
    var c := p.CreateCompound(0, 12, "offsetSubTable", SubTableDescription);
    var counts := ParseSubTableCounts(p, text, buf);
    if counts.Err? {
      return Err(counts.error);
    }
    var search := ParseSubTableSearch(p, text, buf);
    if search.Err? {
      return Err(search.error);
    }
    return Ok(c.(children := Sub(counts.value + search.value)));
  }

  /** The table directory: its compound region, then the loop over its entries. */
  method ParseDirectory(p: ParseHelper, n: int, ghost text: TextDecoder, ghost buf: seq<byte>) returns (r: Result<Region>)
    requires p.text == text && p.buffer == buf
    requires p.endian == BE && "numTables" in p.num && p.num["numTables"] == n && n >= 0
    modifies p
    ensures r == Directory(text, buf, n)
  {
    var directory := p.CreateCompound(12, 16 * n, "TableDirectory", DirectoryDescription);
    var entries := ParseEntries(p, n, text, buf);
    if entries.Err? {
      return Err(entries.error);
    }
    return Ok(directory.(children := Sub(entries.value)));
  }

  /** `parse(buffer)`. */
  method Parse(text: TextDecoder, buffer: seq<byte>) returns (r: Result<seq<Region>>)
    ensures r == TtfRegions(text, buffer)
  {
    var p := new ParseHelper(text, buffer);
    p.SetEndian(BE);
    var head := ParseOffsetSubTable(p, text, buffer);
    if head.Err? {
      return Err(head.error);
    }
    var directory := ParseDirectory(p, p.num["numTables"], text, buffer);
    if directory.Err? {
      return Err(directory.error);
    }
    return Ok([head.value, directory.value]);
  }

  /** The facts a table directory entry at `offset` carries: its span, its tag, and the
      pointer and size it holds, read big-endian. */
  predicate TableEntry(text: TextDecoder, buf: seq<byte>, offset: int, e: Region)
  {
    && 0 <= offset && offset + 16 <= |buf|
    && e.id == "TableInfo" && e.startPos == offset && e.endPos == offset + 16
    && e.children.Sub? && |e.children.regions| == 4
    && var kids := e.children.regions;
    && kids[0].id == "tag" && kids[0].kind == Str && kids[0].strValue == Some(text("utf-8", buf[offset..offset + 4]))
    && e.strValue == kids[0].strValue
    && kids[1].id == "checksum" && kids[1].numValue == Some(CommonUtil.BE(buf[offset + 4..offset + 8]))
    && kids[2].id == "offset" && kids[2].kind == Offset && kids[2].numValue == Some(CommonUtil.BE(buf[offset + 8..offset + 12]))
    && kids[3].id == "length" && kids[3].kind == Size && kids[3].numValue == Some(CommonUtil.BE(buf[offset + 12..offset + 16]))
    && (forall k :: 0 <= k < 4 ==> kids[k].startPos == offset + 4 * k && kids[k].endPos == offset + 4 * k + 4)
  }

  /** An entry reads exactly when its 16 bytes lie in the buffer. */
  lemma TableInfoOk(text: TextDecoder, buf: seq<byte>, offset: int)
    requires offset >= 0
    ensures TableInfo(text, buf, offset).Ok? <==> offset + 16 <= |buf|
  {
  }

  /** A successful entry carries the facts above. */
  lemma TableInfoEntry(text: TextDecoder, buf: seq<byte>, offset: int)
    requires offset >= 0 && TableInfo(text, buf, offset).Ok?
    ensures TableEntry(text, buf, offset, TableInfo(text, buf, offset).value)
  {
  }

  /** Row i of the directory, in terms of the table's reader. */
  lemma EntryRowFacts(text: TextDecoder, buf: seq<byte>, i: nat)
    ensures var e := TableRow(EntryReader(text, buf), 12, 16, i);
            && (e.Ok? <==> 12 + 16 * i + 16 <= |buf|)
            && (e.Ok? ==> TableEntry(text, buf, 12 + 16 * i, e.value))
  {
    EntryRow(text, buf, i);
    TableInfoOk(text, buf, 12 + 16 * i);
    if TableInfo(text, buf, 12 + 16 * i).Ok? {
      TableInfoEntry(text, buf, 12 + 16 * i);
    }
  }

  /** The directory of n entries reads exactly when it is empty or its 16n bytes from 12 on
      lie in the buffer; it then spans [12, 12 + 16n) and holds entry i, read at 12 + 16i, at index i. */
  lemma DirectoryLayout(text: TextDecoder, buf: seq<byte>, n: nat)
    ensures var r := Directory(text, buf, n);
            && (r.Ok? <==> n == 0 || 12 + 16 * n <= |buf|)
            && (r.Ok? ==>
                  && r.value.startPos == 12 && r.value.endPos == 12 + 16 * n
                  && r.value.children.Sub? && |r.value.children.regions| == n
                  && forall i :: 0 <= i < n ==> TableEntry(text, buf, 12 + 16 * i, r.value.children.regions[i]))
  {
    var read := EntryReader(text, buf);
    TableOkIff(read, 12, 16, n);
    if n == 0 || 12 + 16 * n <= |buf| {
      forall i | 0 <= i < n
        ensures TableRow(read, 12, 16, i).Ok?
      {
        EntryRowFacts(text, buf, i);
      }
      var entries := Table(read, 12, 16, n).value;
      forall i | 0 <= i < n
        ensures TableEntry(text, buf, 12 + 16 * i, entries[i])
      {
        EntryRowFacts(text, buf, i);
      }
    } else {
      EntryRowFacts(text, buf, n - 1);
    }
  }

  /** The whole decode: it succeeds exactly when the offset subtable and all `numTables`
      entries lie inside the buffer; the subtable spans [0, 12) with its five big-endian
      fields, and the directory spans [12, 12 + 16 numTables) with entry i at 12 + 16i. */
  lemma TtfLayout(text: TextDecoder, buf: seq<byte>)
    ensures var r := TtfRegions(text, buf);
            && (r.Ok? <==> |buf| >= 12 && 12 + 16 * CommonUtil.BE(buf[4..6]) <= |buf|)
            && (r.Ok? ==>
                  var n := CommonUtil.BE(buf[4..6]);
                  var head := r.value[0];
                  var dir := r.value[1];
                  && |r.value| == 2
                  && head.startPos == 0 && head.endPos == 12 && |head.children.regions| == 5
                  && head.children.regions[1].id == "numTables" && head.children.regions[1].numValue == Some(n)
                  && dir.startPos == 12 && dir.endPos == 12 + 16 * n
                  && dir.children.Sub? && |dir.children.regions| == n
                  && forall i :: 0 <= i < n ==> TableEntry(text, buf, 12 + 16 * i, dir.children.regions[i]))
  {
    HeadOk(text, buf);
    if |buf| >= 12 {
      var n := CommonUtil.BE(buf[4..6]);
      assert ParseValueSpec(buf, 4, 6, true, false) == Ok(n);
      DirectoryLayout(text, buf, n);
    }
  }

  /** The offset subtable reads exactly when the buffer holds 12 bytes, and then holds the
      table count read big-endian from bytes 4..6. */
  lemma HeadOk(text: TextDecoder, buf: seq<byte>)
    ensures var head := OffsetSubTable(text, buf);
            && (head.Ok? <==> |buf| >= 12)
            && (head.Ok? ==> head.value.startPos == 0 && head.value.endPos == 12
                             && head.value.children.Sub? && |head.value.children.regions| == 5
                             && head.value.children.regions[1].id == "numTables"
                             && head.value.children.regions[1].numValue == Some(CommonUtil.BE(buf[4..6])))
  {
  }

  /** `isSupportedFile`: by extension only. */
  predicate IsSupportedFile(ext: string)
  {
    ext == "ttf"
  }
}
