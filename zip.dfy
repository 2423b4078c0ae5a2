/** The ZIP decoder of src/parser/zip.ts. The end-of-central-directory record (EOCD) is the
    last occurrence of 50 4B 05 06; it names the central directory, whose records and the
    local files they point at are decoded on demand, one index at a time, by two fetchers.
    All numbers are little-endian. */
module Zip {
  import opened Wrappers
  import opened CommonUtil
  import opened Dom
  import opened CommonParser

  const EocdSignature: seq<byte> := [0x50, 0x4B, 0x05, 0x06]
  const CentralSignature: seq<byte> := [0x50, 0x4B, 0x01, 0x02]
  const LocalSignature: seq<byte> := [0x50, 0x4B, 0x03, 0x04]

  const EocdDescription := "End of central directory record"
  const CentralDescription := "central directory record"
  const LocalDescription := "local file record"

  /** The `CV`-checked signature row at `offset`. */
  function Signature(content: seq<byte>): Field
  {
    Field(General, 4, "signature", "", Expect(content))
  }

  // The end-of-central-directory record

  /** signature(4), num(2), cdnum(2). */
  function EocdCounts(text: TextDecoder, buf: seq<byte>, offset: int): Result<seq<Region>>
  {
    var signature :- FieldAt(text, buf, LE, offset, Signature(EocdSignature));
    var num :- FieldAt(text, buf, LE, offset + 4, N(2, "num"));
    var cdnum :- FieldAt(text, buf, LE, offset + 6, N(2, "cdnum"));
    Ok([signature, num, cdnum])
  }

  /** cdrecords(2), totalrecords(2), cdsize(4). */
  function EocdSizes(text: TextDecoder, buf: seq<byte>, offset: int): Result<seq<Region>>
  {
    var cdrecords :- FieldAt(text, buf, LE, offset + 8, N(2, "cdrecords"));
    var totalrecords :- FieldAt(text, buf, LE, offset + 10, N(2, "totalrecords"));
    var cdsize :- FieldAt(text, buf, LE, offset + 12, N(4, "cdsize"));
    Ok([cdrecords, totalrecords, cdsize])
  }

  /** cdoffset(4), commentLength(2), then the comment of commentLength bytes. */
  function EocdTail(text: TextDecoder, buf: seq<byte>, offset: int): Result<seq<Region>>
  {
    var cdoffset :- FieldAt(text, buf, LE, offset + 16, N(4, "cdoffset"));
    var commentLength :- FieldAt(text, buf, LE, offset + 20, N(2, "commentLength"));
    var k :- Raw(buf, offset + 20, 2);
    Ok([cdoffset, commentLength, StringAt(text, buf, LE, offset + 22, k, "comment", "")])
  }

  /** `parseEOCD(p, offset, end)`: the record spans `[offset, end)` and holds its nine rows. */
  function Eocd(text: TextDecoder, buf: seq<byte>, offset: int, end: int): Result<Region>
  {
    var counts :- EocdCounts(text, buf, offset);
    var sizes :- EocdSizes(text, buf, offset);
    var tail :- EocdTail(text, buf, offset);
    Ok(Region("EOCD", Compound, EocdDescription, offset, offset + ResolveLength(end - offset, offset, |buf|),
              Some(LE), None, None, None, Sub(counts + sizes + tail)))
  }

  // One record of the central directory

  /** signature(4), version(2), versionMin(2). */
  function CentralVersions(text: TextDecoder, buf: seq<byte>, offset: int): Result<seq<Region>>
  {
    var signature :- FieldAt(text, buf, LE, offset, Signature(CentralSignature));
    var version :- FieldAt(text, buf, LE, offset + 4, N(2, "version"));
    var versionMin :- FieldAt(text, buf, LE, offset + 6, N(2, "versionMin"));
    Ok([signature, version, versionMin])
  }

  /** generalPurpose(2), compressionMethod(2), mtime(2). */
  function CentralMethod(text: TextDecoder, buf: seq<byte>, offset: int): Result<seq<Region>>
  {
    var generalPurpose :- FieldAt(text, buf, LE, offset + 8, N(2, "generalPurpose"));
    var compressionMethod :- FieldAt(text, buf, LE, offset + 10, N(2, "compressionMethod"));
    var mtime :- FieldAt(text, buf, LE, offset + 12, N(2, "mtime"));
    Ok([generalPurpose, compressionMethod, mtime])
  }

  /** mdate(2), crc32(4), compressedSize(4), uncompressedSize(4). */
  function CentralChecks(text: TextDecoder, buf: seq<byte>, offset: int): Result<seq<Region>>
  {
    var mdate :- FieldAt(text, buf, LE, offset + 14, N(2, "mdate"));
    var crc32 :- FieldAt(text, buf, LE, offset + 16, N(4, "crc32"));
    var compressedSize :- FieldAt(text, buf, LE, offset + 20, N(4, "compressedSize"));
    var uncompressedSize :- FieldAt(text, buf, LE, offset + 24, N(4, "uncompressedSize"));
    Ok([mdate, crc32, compressedSize, uncompressedSize])
  }

  /** filenameLength(2), extraFieldLength(2), commentLength(2). */
  function CentralLengths(text: TextDecoder, buf: seq<byte>, offset: int): Result<seq<Region>>
  {
    var filenameLength :- FieldAt(text, buf, LE, offset + 28, N(2, "filenameLength"));
    var extraFieldLength :- FieldAt(text, buf, LE, offset + 30, N(2, "extraFieldLength"));
    var commentLength :- FieldAt(text, buf, LE, offset + 32, N(2, "commentLength"));
    Ok([filenameLength, extraFieldLength, commentLength])
  }

  /** diskNum(2), internalAttr(2), externalAttr(4), localHeaderOffset(4). */
  function CentralAttributes(text: TextDecoder, buf: seq<byte>, offset: int): Result<seq<Region>>
  {
    var diskNum :- FieldAt(text, buf, LE, offset + 34, N(2, "diskNum"));
    var internalAttr :- FieldAt(text, buf, LE, offset + 36, N(2, "internalAttr"));
    var externalAttr :- FieldAt(text, buf, LE, offset + 38, N(4, "externalAttr"));
    var localHeaderOffset :- FieldAt(text, buf, LE, offset + 42, N(4, "localHeaderOffset"));
    Ok([diskNum, internalAttr, externalAttr, localHeaderOffset])
  }

  /** The ten fixed rows before the lengths. */
  function CentralFront(text: TextDecoder, buf: seq<byte>, offset: int): Result<seq<Region>>
  {
    var a :- CentralVersions(text, buf, offset);
    var b :- CentralMethod(text, buf, offset);
    var c :- CentralChecks(text, buf, offset);
    Ok(a + b + c)
  }

  /** The seven fixed rows from the lengths on. */
  function CentralBack(text: TextDecoder, buf: seq<byte>, offset: int): Result<seq<Region>>
  {
    var d :- CentralLengths(text, buf, offset);
    var e :- CentralAttributes(text, buf, offset);
    Ok(d + e)
  }

  /** The variable part: the filename of `n` bytes at 46, then the extra field of `m` bytes
      and the comment of `k` bytes, each where the previous one ends. */
  function CentralNames(text: TextDecoder, buf: seq<byte>, offset: int, n: int, m: int, k: int): seq<Region>
  {
    [StringAt(text, buf, LE, offset + 46, n, "filename", ""),
     GeneralAt(LE, offset + 46 + n, m, "extraField", ""),
     StringAt(text, buf, LE, offset + 46 + n + m, k, "comment", "")]
  }

  /** `parseCD(p, offset)`: the twenty rows of one record; the record ends where its comment
      ends and is labelled with its filename. */
  function CentralRecord(text: TextDecoder, buf: seq<byte>, offset: int): Result<Region>
  {
    var front :- CentralFront(text, buf, offset);
    var back :- CentralBack(text, buf, offset);
    var n :- Raw(buf, offset + 28, 2);
    var m :- Raw(buf, offset + 30, 2);
    var k :- Raw(buf, offset + 32, 2);
    var names := CentralNames(text, buf, offset, n, m, k);
    Ok(Region("CD", Compound, CentralDescription, offset, offset + 46 + n + m + k, Some(LE),
              None, names[0].strValue, None, Sub(front + back + names)))
  }

  /** `CentralRecord` from the values of its parts. */
  lemma CentralRecordIs(text: TextDecoder, buf: seq<byte>, offset: int, front: seq<Region>, back: seq<Region>,
                        n: int, m: int, k: int)
    requires CentralFront(text, buf, offset) == Ok(front) && CentralBack(text, buf, offset) == Ok(back)
    requires Raw(buf, offset + 28, 2) == Ok(n) && Raw(buf, offset + 30, 2) == Ok(m)
    requires Raw(buf, offset + 32, 2) == Ok(k)
    ensures var names := CentralNames(text, buf, offset, n, m, k);
            CentralRecord(text, buf, offset)
            == Ok(Region("CD", Compound, CentralDescription, offset, offset + 46 + n + m + k, Some(LE),
                         None, names[0].strValue, None, Sub(front + back + names)))
  {
    var names := CentralNames(text, buf, offset, n, m, k);
    var v := Region("CD", Compound, CentralDescription, offset, offset + 46 + n + m + k, Some(LE),
                         None, names[0].strValue, None, Sub(front + back + names));
    assert CentralRecord(text, buf, offset).value == v;
  }

  // One local file header

  /** signature(4), version(2), generalPurpose(2). */
  function LocalVersions(text: TextDecoder, buf: seq<byte>, offset: int): Result<seq<Region>>
  {
    var signature :- FieldAt(text, buf, LE, offset, Signature(LocalSignature));
    var version :- FieldAt(text, buf, LE, offset + 4, N(2, "version"));
    var generalPurpose :- FieldAt(text, buf, LE, offset + 6, N(2, "generalPurpose"));
    Ok([signature, version, generalPurpose])
  }

  /** compressionMethod(2), mtime(2), mdate(2). */
  function LocalMethod(text: TextDecoder, buf: seq<byte>, offset: int): Result<seq<Region>>
  {
    var compressionMethod :- FieldAt(text, buf, LE, offset + 8, N(2, "compressionMethod"));
    var mtime :- FieldAt(text, buf, LE, offset + 10, N(2, "mtime"));
    var mdate :- FieldAt(text, buf, LE, offset + 12, N(2, "mdate"));
    Ok([compressionMethod, mtime, mdate])
  }

  /** crc32(4), compressedSize(4), uncompressedSize(4). */
  function LocalSizes(text: TextDecoder, buf: seq<byte>, offset: int): Result<seq<Region>>
  {
    var crc32 :- FieldAt(text, buf, LE, offset + 14, N(4, "crc32"));
    var compressedSize :- FieldAt(text, buf, LE, offset + 18, N(4, "compressedSize"));
    var uncompressedSize :- FieldAt(text, buf, LE, offset + 22, N(4, "uncompressedSize"));
    Ok([crc32, compressedSize, uncompressedSize])
  }

  /** filenameLength(2), extraFieldLength(2). */
  function LocalLengths(text: TextDecoder, buf: seq<byte>, offset: int): Result<seq<Region>>
  {
    var filenameLength :- FieldAt(text, buf, LE, offset + 26, N(2, "filenameLength"));
    var extraFieldLength :- FieldAt(text, buf, LE, offset + 28, N(2, "extraFieldLength"));
    Ok([filenameLength, extraFieldLength])
  }

  /** The six fixed rows up to the date. */
  function LocalFront(text: TextDecoder, buf: seq<byte>, offset: int): Result<seq<Region>>
  {
    var a :- LocalVersions(text, buf, offset);
    var b :- LocalMethod(text, buf, offset);
    Ok(a + b)
  }

  /** The five fixed rows from the checksum on. */
  function LocalBack(text: TextDecoder, buf: seq<byte>, offset: int): Result<seq<Region>>
  {
    var c :- LocalSizes(text, buf, offset);
    var d :- LocalLengths(text, buf, offset);
    Ok(c + d)
  }

  /** The filename of `n` bytes at 30, then the extra field of `m` bytes and the compressed
      data of `size` bytes, each where the previous one ends. */
  function LocalData(text: TextDecoder, buf: seq<byte>, offset: int, n: int, m: int, size: int): seq<Region>
  {
    [StringAt(text, buf, LE, offset + 30, n, "filename", ""),
     GeneralAt(LE, offset + 30 + n, m, "extraField", ""),
     GeneralAt(LE, offset + 30 + n + m, size, "compressedData", "")]
  }

  /** `parseLocalFile(p, offset)`: the fourteen rows of one local file; it ends where its
      compressed data ends and is labelled with its filename. */
  function LocalFile(text: TextDecoder, buf: seq<byte>, offset: int): Result<Region>
  {
    var front :- LocalFront(text, buf, offset);
    var back :- LocalBack(text, buf, offset);
    var size :- Raw(buf, offset + 18, 4);
    var n :- Raw(buf, offset + 26, 2);
    var m :- Raw(buf, offset + 28, 2);
    var data := LocalData(text, buf, offset, n, m, size);
    Ok(Region("FILE", Compound, LocalDescription, offset, offset + 30 + n + m + size, Some(LE),
              None, data[0].strValue, None, Sub(front + back + data)))
  }

  /** `LocalFile` from the values of its parts. */
  lemma LocalFileIs(text: TextDecoder, buf: seq<byte>, offset: int, front: seq<Region>, back: seq<Region>,
                    size: int, n: int, m: int)
    requires LocalFront(text, buf, offset) == Ok(front) && LocalBack(text, buf, offset) == Ok(back)
    requires Raw(buf, offset + 18, 4) == Ok(size) && Raw(buf, offset + 26, 2) == Ok(n)
    requires Raw(buf, offset + 28, 2) == Ok(m)
    ensures var data := LocalData(text, buf, offset, n, m, size);
            LocalFile(text, buf, offset)
            == Ok(Region("FILE", Compound, LocalDescription, offset, offset + 30 + n + m + size, Some(LE),
                         None, data[0].strValue, None, Sub(front + back + data)))
  {
    var data := LocalData(text, buf, offset, n, m, size);
    var v := Region("FILE", Compound, LocalDescription, offset, offset + 30 + n + m + size, Some(LE),
                    None, data[0].strValue, None, Sub(front + back + data));
    assert LocalFile(text, buf, offset).value == v;
  }

  // The two fetchers

  /** The length of the central record at `pos`: 46 plus its three variable lengths. */
  function RecordLength(buf: seq<byte>, pos: int): Result<int>
  {
    var n :- Raw(buf, pos + 28, 2);
    var m :- Raw(buf, pos + 30, 2);
    var k :- Raw(buf, pos + 32, 2);
    Ok(46 + n + m + k)
  }

  /** Where central record `i` starts: the directory start plus the lengths of the `i`
      records before it. */
  function RecordStart(buf: seq<byte>, cdStart: int, i: nat): (r: Result<int>)
    ensures r.Ok? ==> r.value >= cdStart
  {
    if i == 0 then Ok(cdStart)
    else
      var prev :- RecordStart(buf, cdStart, i - 1);
      var length :- RecordLength(buf, prev);
      RawUnsigned(buf, prev + 28, 2);
      RawUnsigned(buf, prev + 30, 2);
      RawUnsigned(buf, prev + 32, 2);
      Ok(prev + length)
  }

  /** What the central-directory fetcher returns for `index`. */
  function CentralFetch(text: TextDecoder, buf: seq<byte>, cdStart: int, index: int): Result<Region>
  {
    var start :- RecordStart(buf, cdStart, if index < 0 then 0 else index);
    CentralRecord(text, buf, start)
  }

  /** What the local-file fetcher returns for `index`: the local file at the
      `localHeaderOffset` of central record `index`. */
  function LocalFetch(text: TextDecoder, buf: seq<byte>, cdStart: int, index: int): Result<Region>
  {
    var record :- CentralFetch(text, buf, cdStart, index);
    // `getNumber` gives 0 for a missing row and NaN for a row without a number; a record
    // always has a numeric `localHeaderOffset` row (`LocalOffsetRow`), so neither happens.
    match FindRegion(record.Kids(), "localHeaderOffset")
    case None => LocalFile(text, buf, 0)
    case Some(r) => if r.numValue.Some? then LocalFile(text, buf, r.numValue.value) else Err(ReadPastEnd)
  }

  // The whole decode

  /** What `parse` returns: the local files over `[0, cdoffset)`, the central directory over
      `[cdoffset, cdoffset + cdsize)`, both with `cdrecords` slots filled on demand, and the
      EOCD found by the backward search. */
  function ZipRegions(text: TextDecoder, buf: seq<byte>): Result<seq<Region>>
  {
    var pos := LastMatch(buf, EocdSignature, |buf| - 4);
    if pos == -1 then Err(NotFound)
    else
      var eocd :- Eocd(text, buf, pos, |buf|);
      var records :- Raw(buf, pos + 8, 2);
      var size :- Raw(buf, pos + 12, 4);
      var cdoffset :- Raw(buf, pos + 16, 4);
      Ok(ZipOk(eocd, records, size, cdoffset))
  }

  /** The three top-level regions once the EOCD and its three numbers are read. */
  function ZipOk(eocd: Region, records: int, size: int, cdoffset: int): seq<Region>
  {
    [Region("LocalFiles", Compound, "", 0, cdoffset, Some(LE), None, None, None, Lazy(records, LocalFiles(cdoffset))),
     Region("CD", Compound, "central directory", cdoffset, cdoffset + size, Some(LE), None, None, None,
            Lazy(records, CentralRecords(cdoffset))),
     eocd]
  }

  /** `ZipRegions` from the values of its parts. */
  lemma ZipRegionsIs(text: TextDecoder, buf: seq<byte>, pos: int, eocd: Region, records: int, size: int,
                     cdoffset: int)
    requires pos == LastMatch(buf, EocdSignature, |buf| - 4) && pos != -1
    requires Eocd(text, buf, pos, |buf|) == Ok(eocd) && Raw(buf, pos + 8, 2) == Ok(records)
    requires Raw(buf, pos + 12, 4) == Ok(size) && Raw(buf, pos + 16, 4) == Ok(cdoffset)
    ensures ZipRegions(text, buf) == Ok(ZipOk(eocd, records, size, cdoffset))
  {
    assert ZipRegions(text, buf).value == ZipOk(eocd, records, size, cdoffset);
  }

  /** `isSupportedFile`: the extension `zip`, or else the local-file signature at 0, whose
      check throws on a buffer of fewer than four bytes. */
  function IsSupportedFile(ext: string, buf: seq<byte>): (r: Result<bool>)
    ensures ext == "zip" ==> r == Ok(true)
    ensures ext != "zip" && |buf| < 4 ==> r == Err(RangeError)
    ensures ext != "zip" && |buf| >= 4 ==> r == Ok(buf[..4] == LocalSignature)
  {
    if ext == "zip" then Ok(true)
    else
      assert |buf| >= 4 ==> buf[0..4] == buf[..4];
      CheckContentSpec(buf, 0, LocalSignature)
  }

  // The cursor-driven decode

  method ParseEocdCounts(p: ParseHelper, offset: int, ghost text: TextDecoder, ghost buf: seq<byte>)
    returns (r: Result<seq<Region>>)
    requires p.text == text && p.buffer == buf && p.endian == LE && offset >= 0
    modifies p
    ensures r == EocdCounts(text, buf, offset)
    ensures p.endian == LE
  {
    var signature := p.CreateRegion(General, offset, 4, "signature", "", Expect(EocdSignature));
    if signature.Err? {
      return Err(signature.error);
    }
    var num := NumberAt(p, offset + 4, 2, "num", "", text, buf);
    if num.Err? {
      return Err(num.error);
    }
    var cdnum := NumberAt(p, offset + 6, 2, "cdnum", "", text, buf);
    if cdnum.Err? {
      return Err(cdnum.error);
    }
    return Ok([signature.value, num.value, cdnum.value]);
  }

  /** The record count and directory size land in the memo. */
  method ParseEocdSizes(p: ParseHelper, offset: int, ghost text: TextDecoder, ghost buf: seq<byte>)
    returns (r: Result<seq<Region>>)
    requires p.text == text && p.buffer == buf && p.endian == LE && offset >= 0
    modifies p
    ensures r == EocdSizes(text, buf, offset)
    ensures r.Ok? ==> "cdrecords" in p.num && Ok(p.num["cdrecords"]) == Raw(buf, offset + 8, 2)
                      && "cdsize" in p.num && Ok(p.num["cdsize"]) == Raw(buf, offset + 12, 4)
    ensures p.endian == LE
  {
    var cdrecords := NumberAt(p, offset + 8, 2, "cdrecords", "", text, buf);
    if cdrecords.Err? {
      return Err(cdrecords.error);
    }
    var totalrecords := NumberAt(p, offset + 10, 2, "totalrecords", "", text, buf);
    if totalrecords.Err? {
      return Err(totalrecords.error);
    }
    var cdsize := NumberAt(p, offset + 12, 4, "cdsize", "", text, buf);
    if cdsize.Err? {
      return Err(cdsize.error);
    }
    return Ok([cdrecords.value, totalrecords.value, cdsize.value]);
  }

  /** The directory offset lands in the memo; the comment is as long as the memo says. */
  method ParseEocdTail(p: ParseHelper, offset: int, ghost text: TextDecoder, ghost buf: seq<byte>)
    returns (r: Result<seq<Region>>)
    requires p.text == text && p.buffer == buf && p.endian == LE && offset >= 0
    modifies p
    ensures r == EocdTail(text, buf, offset)
    ensures r.Ok? ==> "cdoffset" in p.num && Ok(p.num["cdoffset"]) == Raw(buf, offset + 16, 4)
    ensures Same(old(p.num), p.num, "cdrecords") && Same(old(p.num), p.num, "cdsize") && p.endian == LE
  {
    var cdoffset := NumberAt(p, offset + 16, 4, "cdoffset", "", text, buf);
    if cdoffset.Err? {
      return Err(cdoffset.error);
    }
    var commentLength := NumberAt(p, offset + 20, 2, "commentLength", "", text, buf);
    if commentLength.Err? {
      return Err(commentLength.error);
    }
    RawUnsigned(buf, offset + 20, 2);
    ghost var k := Raw(buf, offset + 20, 2).value;
    assert p.num["commentLength"] == k;
    var comment := p.CreateStringRegion(offset + 22, p.num["commentLength"], "comment", "");
    assert comment == StringAt(text, buf, LE, offset + 22, k, "comment", "");
    return Ok([cdoffset.value, commentLength.value, comment]);
  }

  /** `parseEOCD(p, offset, end)`. */
  method ParseEocd(p: ParseHelper, offset: int, end: int, ghost text: TextDecoder, ghost buf: seq<byte>)
    returns (r: Result<Region>)
    requires p.text == text && p.buffer == buf && p.endian == LE && offset >= 0
    modifies p
    ensures r == Eocd(text, buf, offset, end)
    ensures r.Ok? ==> "cdrecords" in p.num && Ok(p.num["cdrecords"]) == Raw(buf, offset + 8, 2)
                      && "cdsize" in p.num && Ok(p.num["cdsize"]) == Raw(buf, offset + 12, 4)
                      && "cdoffset" in p.num && Ok(p.num["cdoffset"]) == Raw(buf, offset + 16, 4)
    ensures p.endian == LE
  {
    var eocd := p.CreateCompound(offset, end - offset, "EOCD", EocdDescription);
    var counts := ParseEocdCounts(p, offset, text, buf);
    if counts.Err? {
      return Err(counts.error);
    }
    var sizes := ParseEocdSizes(p, offset, text, buf);
    if sizes.Err? {
      return Err(sizes.error);
    }
    var tail := ParseEocdTail(p, offset, text, buf);
    if tail.Err? {
      return Err(tail.error);
    }
    eocd := eocd.(children := Sub(counts.value + sizes.value + tail.value));
    assert eocd == Eocd(text, buf, offset, end).value;
    return Ok(eocd);
  }

  method ParseCentralVersions(p: ParseHelper, offset: int, ghost text: TextDecoder, ghost buf: seq<byte>)
    returns (r: Result<seq<Region>>)
    requires p.text == text && p.buffer == buf && p.endian == LE && offset >= 0
    modifies p
    ensures r == CentralVersions(text, buf, offset)
    ensures p.endian == LE
  {
    var signature := p.CreateRegion(General, offset, 4, "signature", "", Expect(CentralSignature));
    if signature.Err? {
      return Err(signature.error);
    }
    var version := NumberAt(p, offset + 4, 2, "version", "", text, buf);
    if version.Err? {
      return Err(version.error);
    }
    var versionMin := NumberAt(p, offset + 6, 2, "versionMin", "", text, buf);
    if versionMin.Err? {
      return Err(versionMin.error);
    }
    return Ok([signature.value, version.value, versionMin.value]);
  }

  method ParseCentralMethod(p: ParseHelper, offset: int, ghost text: TextDecoder, ghost buf: seq<byte>)
    returns (r: Result<seq<Region>>)
    requires p.text == text && p.buffer == buf && p.endian == LE && offset >= 0
    modifies p
    ensures r == CentralMethod(text, buf, offset)
    ensures p.endian == LE
  {
    var generalPurpose := NumberAt(p, offset + 8, 2, "generalPurpose", "", text, buf);
    if generalPurpose.Err? {
      return Err(generalPurpose.error);
    }
    var compressionMethod := NumberAt(p, offset + 10, 2, "compressionMethod", "", text, buf);
    if compressionMethod.Err? {
      return Err(compressionMethod.error);
    }
    var mtime := NumberAt(p, offset + 12, 2, "mtime", "", text, buf);
    if mtime.Err? {
      return Err(mtime.error);
    }
    return Ok([generalPurpose.value, compressionMethod.value, mtime.value]);
  }

  method ParseCentralChecks(p: ParseHelper, offset: int, ghost text: TextDecoder, ghost buf: seq<byte>)
    returns (r: Result<seq<Region>>)
    requires p.text == text && p.buffer == buf && p.endian == LE && offset >= 0
    modifies p
    ensures r == CentralChecks(text, buf, offset)
    ensures p.endian == LE
  {
    var mdate := NumberAt(p, offset + 14, 2, "mdate", "", text, buf);
    if mdate.Err? {
      return Err(mdate.error);
    }
    var crc32 := NumberAt(p, offset + 16, 4, "crc32", "", text, buf);
    if crc32.Err? {
      return Err(crc32.error);
    }
    var compressedSize := NumberAt(p, offset + 20, 4, "compressedSize", "", text, buf);
    if compressedSize.Err? {
      return Err(compressedSize.error);
    }
    var uncompressedSize := NumberAt(p, offset + 24, 4, "uncompressedSize", "", text, buf);
    if uncompressedSize.Err? {
      return Err(uncompressedSize.error);
    }
    return Ok([mdate.value, crc32.value, compressedSize.value, uncompressedSize.value]);
  }

  method ParseCentralFront(p: ParseHelper, offset: int, ghost text: TextDecoder, ghost buf: seq<byte>)
    returns (r: Result<seq<Region>>)
    requires p.text == text && p.buffer == buf && p.endian == LE && offset >= 0
    modifies p
    ensures r == CentralFront(text, buf, offset)
    ensures p.endian == LE
  {
    var a := ParseCentralVersions(p, offset, text, buf);
    if a.Err? {
      return Err(a.error);
    }
    var b := ParseCentralMethod(p, offset, text, buf);
    if b.Err? {
      return Err(b.error);
    }
    var c := ParseCentralChecks(p, offset, text, buf);
    if c.Err? {
      return Err(c.error);
    }
    return Ok(a.value + b.value + c.value);
  }

  /** The three variable lengths land in the memo. */
  method ParseCentralLengths(p: ParseHelper, offset: int, ghost text: TextDecoder, ghost buf: seq<byte>)
    returns (r: Result<seq<Region>>)
    requires p.text == text && p.buffer == buf && p.endian == LE && offset >= 0
    modifies p
    ensures r == CentralLengths(text, buf, offset)
    ensures r.Ok? ==> "filenameLength" in p.num && Ok(p.num["filenameLength"]) == Raw(buf, offset + 28, 2)
                      && "extraFieldLength" in p.num && Ok(p.num["extraFieldLength"]) == Raw(buf, offset + 30, 2)
                      && "commentLength" in p.num && Ok(p.num["commentLength"]) == Raw(buf, offset + 32, 2)
    ensures p.endian == LE
  {
    var filenameLength := NumberAt(p, offset + 28, 2, "filenameLength", "", text, buf);
    if filenameLength.Err? {
      return Err(filenameLength.error);
    }
    var extraFieldLength := NumberAt(p, offset + 30, 2, "extraFieldLength", "", text, buf);
    if extraFieldLength.Err? {
      return Err(extraFieldLength.error);
    }
    var commentLength := NumberAt(p, offset + 32, 2, "commentLength", "", text, buf);
    if commentLength.Err? {
      return Err(commentLength.error);
    }
    return Ok([filenameLength.value, extraFieldLength.value, commentLength.value]);
  }

  method ParseCentralAttributes(p: ParseHelper, offset: int, ghost text: TextDecoder, ghost buf: seq<byte>)
    returns (r: Result<seq<Region>>)
    requires p.text == text && p.buffer == buf && p.endian == LE && offset >= 0
    modifies p
    ensures r == CentralAttributes(text, buf, offset)
    ensures Same(old(p.num), p.num, "filenameLength") && Same(old(p.num), p.num, "extraFieldLength")
    ensures Same(old(p.num), p.num, "commentLength") && p.endian == LE
  {
    var diskNum := NumberAt(p, offset + 34, 2, "diskNum", "", text, buf);
    if diskNum.Err? {
      return Err(diskNum.error);
    }
    var internalAttr := NumberAt(p, offset + 36, 2, "internalAttr", "", text, buf);
    if internalAttr.Err? {
      return Err(internalAttr.error);
    }
    var externalAttr := NumberAt(p, offset + 38, 4, "externalAttr", "", text, buf);
    if externalAttr.Err? {
      return Err(externalAttr.error);
    }
    var localHeaderOffset := NumberAt(p, offset + 42, 4, "localHeaderOffset", "", text, buf);
    if localHeaderOffset.Err? {
      return Err(localHeaderOffset.error);
    }
    return Ok([diskNum.value, internalAttr.value, externalAttr.value, localHeaderOffset.value]);
  }

  method ParseCentralBack(p: ParseHelper, offset: int, ghost text: TextDecoder, ghost buf: seq<byte>)
    returns (r: Result<seq<Region>>)
    requires p.text == text && p.buffer == buf && p.endian == LE && offset >= 0
    modifies p
    ensures r == CentralBack(text, buf, offset)
    ensures r.Ok? ==> "filenameLength" in p.num && Ok(p.num["filenameLength"]) == Raw(buf, offset + 28, 2)
                      && "extraFieldLength" in p.num && Ok(p.num["extraFieldLength"]) == Raw(buf, offset + 30, 2)
                      && "commentLength" in p.num && Ok(p.num["commentLength"]) == Raw(buf, offset + 32, 2)
    ensures p.endian == LE
  {
    var d := ParseCentralLengths(p, offset, text, buf);
    if d.Err? {
      return Err(d.error);
    }
    var e := ParseCentralAttributes(p, offset, text, buf);
    if e.Err? {
      return Err(e.error);
    }
    return Ok(d.value + e.value);
  }

  /** filename, extraField and comment, with the lengths the memo holds; the filename lands
      in the cache and the cursor stops at the end of the comment. */
  method ParseCentralNames(p: ParseHelper, offset: int, ghost text: TextDecoder, ghost buf: seq<byte>)
    returns (r: seq<Region>)
    requires p.text == text && p.buffer == buf && p.endian == LE && offset >= 0
    requires "filenameLength" in p.num && p.num["filenameLength"] >= 0
    requires "extraFieldLength" in p.num && p.num["extraFieldLength"] >= 0
    requires "commentLength" in p.num && p.num["commentLength"] >= 0
    modifies p
    ensures r == CentralNames(text, buf, offset, old(p.num["filenameLength"]), old(p.num["extraFieldLength"]),
                              old(p.num["commentLength"]))
    ensures "filename" in p.regionCache && p.regionCache["filename"] == r[0]
    ensures p.position == offset + 46 + old(p.num["filenameLength"]) + old(p.num["extraFieldLength"])
                          + old(p.num["commentLength"])
    ensures p.endian == LE
  {
    var filename := p.CreateStringRegion(offset + 46, p.num["filenameLength"], "filename", "");
    var extraField := p.CreateGeneralRegion(-1, p.num["extraFieldLength"], "extraField", "");
    var comment := p.CreateStringRegion(-1, p.num["commentLength"], "comment", "");
    return [filename, extraField, comment];
  }

  /** `parseCD(p, offset)`. */
  method ParseCentralRecord(p: ParseHelper, offset: int, ghost text: TextDecoder, ghost buf: seq<byte>)
    returns (r: Result<Region>)
    requires p.text == text && p.buffer == buf && p.endian == LE && offset >= 0
    modifies p
    ensures r == CentralRecord(text, buf, offset)
    ensures p.endian == LE
  {
    var record := p.CreateCompound(offset, offset + 46, "CD", CentralDescription);
    var front := ParseCentralFront(p, offset, text, buf);
    if front.Err? {
      return Err(front.error);
    }
    var back := ParseCentralBack(p, offset, text, buf);
    if back.Err? {
      return Err(back.error);
    }
    RawUnsigned(buf, offset + 28, 2);
    RawUnsigned(buf, offset + 30, 2);
    RawUnsigned(buf, offset + 32, 2);
    ghost var n, m, k := p.num["filenameLength"], p.num["extraFieldLength"], p.num["commentLength"];
    var names := ParseCentralNames(p, offset, text, buf);
    CentralRecordIs(text, buf, offset, front.value, back.value, n, m, k);
    record := record.(children := Sub(front.value + back.value + names));
    record := record.(endPos := p.position);
    record := record.(strValue := p.regionCache["filename"].strValue);
    assert record == Region("CD", Compound, CentralDescription, offset, offset + 46 + n + m + k, Some(LE),
                            None, names[0].strValue, None, Sub(front.value + back.value + names));
    return Ok(record);
  }

  method ParseLocalVersions(p: ParseHelper, offset: int, ghost text: TextDecoder, ghost buf: seq<byte>)
    returns (r: Result<seq<Region>>)
    requires p.text == text && p.buffer == buf && p.endian == LE && offset >= 0
    modifies p
    ensures r == LocalVersions(text, buf, offset)
    ensures p.endian == LE
  {
    var signature := p.CreateRegion(General, offset, 4, "signature", "", Expect(LocalSignature));
    if signature.Err? {
      return Err(signature.error);
    }
    var version := NumberAt(p, offset + 4, 2, "version", "", text, buf);
    if version.Err? {
      return Err(version.error);
    }
    var generalPurpose := NumberAt(p, offset + 6, 2, "generalPurpose", "", text, buf);
    if generalPurpose.Err? {
      return Err(generalPurpose.error);
    }
    return Ok([signature.value, version.value, generalPurpose.value]);
  }

  method ParseLocalMethod(p: ParseHelper, offset: int, ghost text: TextDecoder, ghost buf: seq<byte>)
    returns (r: Result<seq<Region>>)
    requires p.text == text && p.buffer == buf && p.endian == LE && offset >= 0
    modifies p
    ensures r == LocalMethod(text, buf, offset)
    ensures p.endian == LE
  {
    var compressionMethod := NumberAt(p, offset + 8, 2, "compressionMethod", "", text, buf);
    if compressionMethod.Err? {
      return Err(compressionMethod.error);
    }
    var mtime := NumberAt(p, offset + 10, 2, "mtime", "", text, buf);
    if mtime.Err? {
      return Err(mtime.error);
    }
    var mdate := NumberAt(p, offset + 12, 2, "mdate", "", text, buf);
    if mdate.Err? {
      return Err(mdate.error);
    }
    return Ok([compressionMethod.value, mtime.value, mdate.value]);
  }

  method ParseLocalFront(p: ParseHelper, offset: int, ghost text: TextDecoder, ghost buf: seq<byte>)
    returns (r: Result<seq<Region>>)
    requires p.text == text && p.buffer == buf && p.endian == LE && offset >= 0
    modifies p
    ensures r == LocalFront(text, buf, offset)
    ensures p.endian == LE
  {
    var a := ParseLocalVersions(p, offset, text, buf);
    if a.Err? {
      return Err(a.error);
    }
    var b := ParseLocalMethod(p, offset, text, buf);
    if b.Err? {
      return Err(b.error);
    }
    return Ok(a.value + b.value);
  }

  /** The compressed size lands in the memo. */
  method ParseLocalSizes(p: ParseHelper, offset: int, ghost text: TextDecoder, ghost buf: seq<byte>)
    returns (r: Result<seq<Region>>)
    requires p.text == text && p.buffer == buf && p.endian == LE && offset >= 0
    modifies p
    ensures r == LocalSizes(text, buf, offset)
    ensures r.Ok? ==> "compressedSize" in p.num && Ok(p.num["compressedSize"]) == Raw(buf, offset + 18, 4)
    ensures p.endian == LE
  {
    var crc32 := NumberAt(p, offset + 14, 4, "crc32", "", text, buf);
    if crc32.Err? {
      return Err(crc32.error);
    }
    var compressedSize := NumberAt(p, offset + 18, 4, "compressedSize", "", text, buf);
    if compressedSize.Err? {
      return Err(compressedSize.error);
    }
    var uncompressedSize := NumberAt(p, offset + 22, 4, "uncompressedSize", "", text, buf);
    if uncompressedSize.Err? {
      return Err(uncompressedSize.error);
    }
    return Ok([crc32.value, compressedSize.value, uncompressedSize.value]);
  }

  /** The two name lengths land in the memo. */
  method ParseLocalLengths(p: ParseHelper, offset: int, ghost text: TextDecoder, ghost buf: seq<byte>)
    returns (r: Result<seq<Region>>)
    requires p.text == text && p.buffer == buf && p.endian == LE && offset >= 0
    modifies p
    ensures r == LocalLengths(text, buf, offset)
    ensures r.Ok? ==> "filenameLength" in p.num && Ok(p.num["filenameLength"]) == Raw(buf, offset + 26, 2)
                      && "extraFieldLength" in p.num && Ok(p.num["extraFieldLength"]) == Raw(buf, offset + 28, 2)
    ensures Same(old(p.num), p.num, "compressedSize") && p.endian == LE
  {
    var filenameLength := NumberAt(p, offset + 26, 2, "filenameLength", "", text, buf);
    if filenameLength.Err? {
      return Err(filenameLength.error);
    }
    var extraFieldLength := NumberAt(p, offset + 28, 2, "extraFieldLength", "", text, buf);
    if extraFieldLength.Err? {
      return Err(extraFieldLength.error);
    }
    return Ok([filenameLength.value, extraFieldLength.value]);
  }

  method ParseLocalBack(p: ParseHelper, offset: int, ghost text: TextDecoder, ghost buf: seq<byte>)
    returns (r: Result<seq<Region>>)
    requires p.text == text && p.buffer == buf && p.endian == LE && offset >= 0
    modifies p
    ensures r == LocalBack(text, buf, offset)
    ensures r.Ok? ==> "compressedSize" in p.num && Ok(p.num["compressedSize"]) == Raw(buf, offset + 18, 4)
                      && "filenameLength" in p.num && Ok(p.num["filenameLength"]) == Raw(buf, offset + 26, 2)
                      && "extraFieldLength" in p.num && Ok(p.num["extraFieldLength"]) == Raw(buf, offset + 28, 2)
    ensures p.endian == LE
  {
    var c := ParseLocalSizes(p, offset, text, buf);
    if c.Err? {
      return Err(c.error);
    }
    var d := ParseLocalLengths(p, offset, text, buf);
    if d.Err? {
      return Err(d.error);
    }
    return Ok(c.value + d.value);
  }

  /** filename, extraField and compressedData, with the lengths the memo holds; the filename
      lands in the cache and the cursor stops at the end of the data. */
  method ParseLocalData(p: ParseHelper, offset: int, ghost text: TextDecoder, ghost buf: seq<byte>)
    returns (r: seq<Region>)
    requires p.text == text && p.buffer == buf && p.endian == LE && offset >= 0
    requires "filenameLength" in p.num && p.num["filenameLength"] >= 0
    requires "extraFieldLength" in p.num && p.num["extraFieldLength"] >= 0
    requires "compressedSize" in p.num && p.num["compressedSize"] >= 0
    modifies p
    ensures r == LocalData(text, buf, offset, old(p.num["filenameLength"]), old(p.num["extraFieldLength"]),
                           old(p.num["compressedSize"]))
    ensures "filename" in p.regionCache && p.regionCache["filename"] == r[0]
    ensures p.position == offset + 30 + old(p.num["filenameLength"]) + old(p.num["extraFieldLength"])
                          + old(p.num["compressedSize"])
    ensures p.endian == LE
  {
    var filename := p.CreateStringRegion(offset + 30, p.num["filenameLength"], "filename", "");
    var extraField := p.CreateGeneralRegion(-1, p.num["extraFieldLength"], "extraField", "");
    var data := p.CreateGeneralRegion(-1, p.num["compressedSize"], "compressedData", "");
    return [filename, extraField, data];
  }

  /** `parseLocalFile(p, offset)`. */
  method ParseLocalFile(p: ParseHelper, offset: int, ghost text: TextDecoder, ghost buf: seq<byte>)
    returns (r: Result<Region>)
    requires p.text == text && p.buffer == buf && p.endian == LE && offset >= 0
    modifies p
    ensures r == LocalFile(text, buf, offset)
    ensures p.endian == LE
  {
    var file := p.CreateCompound(offset, offset + 30, "FILE", LocalDescription);
    var front := ParseLocalFront(p, offset, text, buf);
    if front.Err? {
      return Err(front.error);
    }
    var back := ParseLocalBack(p, offset, text, buf);
    if back.Err? {
      return Err(back.error);
    }
    RawUnsigned(buf, offset + 18, 4);
    RawUnsigned(buf, offset + 26, 2);
    RawUnsigned(buf, offset + 28, 2);
    ghost var size, n, m := p.num["compressedSize"], p.num["filenameLength"], p.num["extraFieldLength"];
    var data := ParseLocalData(p, offset, text, buf);
    LocalFileIs(text, buf, offset, front.value, back.value, size, n, m);
    file := file.(children := Sub(front.value + back.value + data));
    file := file.(endPos := p.position);
    file := file.(strValue := p.regionCache["filename"].strValue);
    assert file == Region("FILE", Compound, LocalDescription, offset, offset + 30 + n + m + size, Some(LE),
                          None, data[0].strValue, None, Sub(front.value + back.value + data));
    return Ok(file);
  }

  /** The three `parseValue` calls of the fetcher's walk: the length of the record at `pos`. */
  method ReadRecordLength(buf: seq<byte>, pos: int) returns (r: Result<int>)
    ensures r == RecordLength(buf, pos)
    ensures r.Ok? ==> r.value >= 46
  {
    var n := ParseValue(buf, pos + 28, pos + 30, false, false);
    if n.Err? {
      return Err(n.error);
    }
    var m := ParseValue(buf, pos + 30, pos + 32, false, false);
    if m.Err? {
      return Err(m.error);
    }
    var k := ParseValue(buf, pos + 32, pos + 34, false, false);
    if k.Err? {
      return Err(k.error);
    }
    RawUnsigned(buf, pos + 28, 2);
    RawUnsigned(buf, pos + 30, 2);
    RawUnsigned(buf, pos + 32, 2);
    return Ok(46 + n.value + m.value + k.value);
  }

  /** One step of the walk: record `i + 1` starts where record `i` ends, or the walk fails
      with the failure to read the length of record `i`. */
  lemma RecordStartStep(buf: seq<byte>, cdStart: int, i: nat, pos: int)
    requires RecordStart(buf, cdStart, i) == Ok(pos)
    ensures RecordLength(buf, pos).Err? ==> RecordStart(buf, cdStart, i + 1) == Err(RecordLength(buf, pos).error)
    ensures RecordLength(buf, pos).Ok? ==> RecordStart(buf, cdStart, i + 1) == Ok(pos + RecordLength(buf, pos).value)
  {
  }

  /** The start of a failed walk is the failure of every longer walk. */
  lemma {:induction false} RecordStartFails(buf: seq<byte>, cdStart: int, i: nat, k: nat)
    requires i <= k && RecordStart(buf, cdStart, i).Err?
    ensures RecordStart(buf, cdStart, k) == RecordStart(buf, cdStart, i)
  {
    if k > i {
      RecordStartFails(buf, cdStart, i, k - 1);
    }
  }

  /** The walk of the central-directory fetcher: from the directory start over the `count`
      records before the wanted one, summing their lengths. */
  method WalkRecords(buf: seq<byte>, cdStart: int, count: nat) returns (r: Result<int>)
    ensures r == RecordStart(buf, cdStart, count)
  {
    var lastEndPos := cdStart;
    var walked := 0;
    while walked < count
      invariant walked <= count
      invariant RecordStart(buf, cdStart, walked) == Ok(lastEndPos)
    {
      var length := ReadRecordLength(buf, lastEndPos);
      RecordStartStep(buf, cdStart, walked, lastEndPos);
      if length.Err? {
        RecordStartFails(buf, cdStart, walked + 1, count);
        return Err(length.error);
      }
      lastEndPos := lastEndPos + length.value;
      walked := walked + 1;
    }
    assert walked == count;
    return Ok(lastEndPos);
  }

  /** The central-directory fetcher for `index`: it walks to the record and decodes it.
      Nothing it reads depends on earlier fetches or on the cursor's state. */
  method FetchCentral(p: ParseHelper, cdStart: int, index: int, ghost text: TextDecoder, ghost buf: seq<byte>)
    returns (r: Result<Region>)
    requires p.text == text && p.buffer == buf && p.endian == LE && cdStart >= 0
    modifies p
    ensures r == CentralFetch(text, buf, cdStart, index)
    ensures p.endian == LE
  {
    var start := WalkRecords(p.buffer, cdStart, if index < 0 then 0 else index);
    if start.Err? {
      return Err(start.error);
    }
    r := ParseCentralRecord(p, start.value, text, buf);
  }

  /** The local-file fetcher for `index`: central record `index`, then the local file at its
      `localHeaderOffset`. */
  method FetchLocal(p: ParseHelper, cdStart: int, index: int, ghost text: TextDecoder, ghost buf: seq<byte>)
    returns (r: Result<Region>)
    requires p.text == text && p.buffer == buf && p.endian == LE && cdStart >= 0
    modifies p
    ensures r == LocalFetch(text, buf, cdStart, index)
    ensures p.endian == LE
  {
    var record := FetchCentral(p, cdStart, index, text, buf);
    if record.Err? {
      return Err(record.error);
    }
    var pos := GetNumber(Some(record.value.Kids()), "localHeaderOffset");
    if pos.None? {
      return Err(ReadPastEnd);
    }
    ghost var start := RecordStart(buf, cdStart, if index < 0 then 0 else index).value;
    LocalOffsetRow(text, buf, start);
    r := ParseLocalFile(p, pos.value, text, buf);
  }

  /** `parse(buffer)`. */
  method Parse(text: TextDecoder, buffer: seq<byte>) returns (r: Result<seq<Region>>)
    ensures r == ZipRegions(text, buffer)
  {
    var p := new ParseHelper(text, buffer);
    p.SetEndian(LE);
    var pos := SearchPattern(buffer, EocdSignature, false);
    LastMatchUnique(buffer, EocdSignature, pos);
    if pos == -1 {
      return Err(NotFound);
    }
    var eocd := ParseEocd(p, pos, |buffer|, text, buffer);
    if eocd.Err? {
      return Err(eocd.error);
    }
    RawUnsigned(buffer, pos + 12, 4);
    RawUnsigned(buffer, pos + 16, 4);
    ghost var records, size, cdoffset := p.num["cdrecords"], p.num["cdsize"], p.num["cdoffset"];
    ZipRegionsIs(text, buffer, pos, eocd.value, records, size, cdoffset);
    var cd := p.CreateCompound(p.num["cdoffset"], p.num["cdsize"], "CD", "central directory");
    cd := cd.(children := Lazy(p.num["cdrecords"], CentralRecords(cd.startPos)));
    assert cd == ZipOk(eocd.value, records, size, cdoffset)[1];
    var lf := p.CreateCompound(0, p.num["cdoffset"], "LocalFiles", "");
    lf := lf.(children := Lazy(p.num["cdrecords"], LocalFiles(cd.startPos)));
    assert lf == ZipOk(eocd.value, records, size, cdoffset)[0];
    assert [lf, cd, eocd.value] == ZipOk(eocd.value, records, size, cdoffset);
    return Ok([lf, cd, eocd.value]);
  }

  // Properties

  /** None of the ten front rows of a record is `localHeaderOffset`. */
  lemma CentralFrontIds(text: TextDecoder, buf: seq<byte>, offset: int)
    requires CentralFront(text, buf, offset).Ok?
    ensures var front := CentralFront(text, buf, offset).value;
            |front| == 10 && forall j :: 0 <= j < 10 ==> front[j].id != "localHeaderOffset"
  {
    var a, b, c := CentralVersions(text, buf, offset).value, CentralMethod(text, buf, offset).value,
                   CentralChecks(text, buf, offset).value;
    assert |a| == 3 && forall j :: 0 <= j < 3 ==> a[j].id != "localHeaderOffset";
    assert |b| == 3 && forall j :: 0 <= j < 3 ==> b[j].id != "localHeaderOffset";
    assert |c| == 4 && forall j :: 0 <= j < 4 ==> c[j].id != "localHeaderOffset";
    assert CentralFront(text, buf, offset).value == a + b + c;
  }

  /** The seventh back row of a record is its only `localHeaderOffset` row, holding the
      number at +42. */
  lemma CentralBackIds(text: TextDecoder, buf: seq<byte>, offset: int)
    requires CentralBack(text, buf, offset).Ok?
    ensures var back := CentralBack(text, buf, offset).value;
            && |back| == 7 && back[6].id == "localHeaderOffset"
            && Raw(buf, offset + 42, 4).Ok?
            && back[6].numValue.Some? && back[6].numValue.value == Raw(buf, offset + 42, 4).value
            && forall j :: 0 <= j < 6 ==> back[j].id != "localHeaderOffset"
  {
  }

  /** `getNumber(cdr.subRegions, 'localHeaderOffset')` finds row 16 of a record, which holds
      the number at +42. */
  lemma LocalOffsetRow(text: TextDecoder, buf: seq<byte>, offset: int)
    requires CentralRecord(text, buf, offset).Ok?
    ensures |CentralRecord(text, buf, offset).value.Kids()| == 20
    ensures var kids := CentralRecord(text, buf, offset).value.Kids();
            FindRegion(kids, "localHeaderOffset") == Some(kids[16])
    ensures Raw(buf, offset + 42, 4).Ok?
    ensures CentralRecord(text, buf, offset).value.Kids()[16].numValue.Some?
    ensures CentralRecord(text, buf, offset).value.Kids()[16].numValue.value == Raw(buf, offset + 42, 4).value
  {
    var front, back := CentralFront(text, buf, offset).value, CentralBack(text, buf, offset).value;
    var n, m, k := Raw(buf, offset + 28, 2).value, Raw(buf, offset + 30, 2).value, Raw(buf, offset + 32, 2).value;
    CentralRecordIs(text, buf, offset, front, back, n, m, k);
    CentralFrontIds(text, buf, offset);
    CentralBackIds(text, buf, offset);
    OffsetRowAmong(front, back, CentralNames(text, buf, offset, n, m, k));
  }

  /** Ten rows without the name, then seven whose last alone has it: the name is found at 16. */
  lemma OffsetRowAmong(front: seq<Region>, back: seq<Region>, names: seq<Region>)
    requires |front| == 10 && forall j :: 0 <= j < 10 ==> front[j].id != "localHeaderOffset"
    requires |back| == 7 && back[6].id == "localHeaderOffset"
    requires forall j :: 0 <= j < 6 ==> back[j].id != "localHeaderOffset"
    ensures var kids := front + back + names;
            |kids| >= 17 && kids[16] == back[6] && FindRegion(kids, "localHeaderOffset") == Some(back[6])
  {
    var kids := front + back + names;
    assert forall j :: 0 <= j < 16 ==> kids[j].id != "localHeaderOffset" by {
      forall j | 0 <= j < 16
        ensures kids[j].id != "localHeaderOffset"
      {
        if j < 10 {
          assert kids[j] == front[j];
        } else {
          assert kids[j] == back[j - 10];
        }
      }
    }
    FindRegionAt(kids, "localHeaderOffset", 16);
  }

  // Layout of one central record

  /** The first three rows read exactly when the record's first 8 bytes lie in the buffer
      and begin with the central-record signature. */
  lemma CentralVersionsOk(text: TextDecoder, buf: seq<byte>, offset: int)
    requires offset >= 0
    ensures CentralVersions(text, buf, offset).Ok? <==> offset + 8 <= |buf| && buf[offset..offset + 4] == CentralSignature
  {
  }

  /** The fixed rows of a record read exactly when its first 28 bytes lie in the buffer and
      begin with the signature. */
  lemma CentralFrontOk(text: TextDecoder, buf: seq<byte>, offset: int)
    requires offset >= 0
    ensures CentralFront(text, buf, offset).Ok? <==> offset + 28 <= |buf| && buf[offset..offset + 4] == CentralSignature
  {
    CentralVersionsOk(text, buf, offset);
    assert CentralMethod(text, buf, offset).Ok? <==> offset + 14 <= |buf|;
    assert CentralChecks(text, buf, offset).Ok? <==> offset + 28 <= |buf|;
  }

  /** The rows from the lengths on read exactly when the record's 46 fixed bytes lie in the
      buffer. */
  lemma CentralBackOk(text: TextDecoder, buf: seq<byte>, offset: int)
    requires offset >= 0
    ensures CentralBack(text, buf, offset).Ok? <==> offset + 46 <= |buf|
  {
    assert CentralLengths(text, buf, offset).Ok? <==> offset + 34 <= |buf|;
    assert CentralAttributes(text, buf, offset).Ok? <==> offset + 46 <= |buf|;
  }

  /** `parseCD` succeeds exactly when the 46 fixed bytes of the record lie in the buffer and
      begin with `50 4B 01 02`; the three variable parts never fail. */
  lemma CentralRecordOk(text: TextDecoder, buf: seq<byte>, offset: int)
    requires offset >= 0
    ensures CentralRecord(text, buf, offset).Ok? <==> offset + 46 <= |buf| && buf[offset..offset + 4] == CentralSignature
  {
    CentralFrontOk(text, buf, offset);
    CentralBackOk(text, buf, offset);
  }

  /** A record spans from its offset over `46 + n + m + k` bytes, the length the fetcher's walk
      computes. */
  lemma CentralRecordSpan(text: TextDecoder, buf: seq<byte>, offset: int)
    requires CentralRecord(text, buf, offset).Ok?
    ensures CentralRecord(text, buf, offset).value.startPos == offset
    ensures RecordLength(buf, offset).Ok?
    ensures RecordLength(buf, offset).value == CentralRecord(text, buf, offset).value.endPos - offset
  {
    var front, back := CentralFront(text, buf, offset).value, CentralBack(text, buf, offset).value;
    var n, m, k := Raw(buf, offset + 28, 2).value, Raw(buf, offset + 30, 2).value, Raw(buf, offset + 32, 2).value;
    CentralRecordIs(text, buf, offset, front, back, n, m, k);
  }

  /** A record is labelled with the `n` bytes of its filename, `n` being the number at +28. */
  lemma CentralRecordLabel(text: TextDecoder, buf: seq<byte>, offset: int)
    requires CentralRecord(text, buf, offset).Ok?
    ensures Raw(buf, offset + 28, 2).Ok?
    ensures CentralRecord(text, buf, offset).value.strValue.Some?
    ensures CentralRecord(text, buf, offset).value.strValue.value
         == text("utf-8", Slice(buf, offset + 46, offset + 46 + Raw(buf, offset + 28, 2).value))
  {
    var front, back := CentralFront(text, buf, offset).value, CentralBack(text, buf, offset).value;
    var n, m, k := Raw(buf, offset + 28, 2).value, Raw(buf, offset + 30, 2).value, Raw(buf, offset + 32, 2).value;
    CentralRecordIs(text, buf, offset, front, back, n, m, k);
    FilenameLabel(text, buf, offset, n, m, k);
  }

  /** The first variable part is the filename. */
  lemma FilenameLabel(text: TextDecoder, buf: seq<byte>, offset: int, n: int, m: int, k: int)
    ensures CentralNames(text, buf, offset, n, m, k)[0].strValue.Some?
    ensures CentralNames(text, buf, offset, n, m, k)[0].strValue.value == text("utf-8", Slice(buf, offset + 46, offset + 46 + n))
  {
  }

  // Layout of one local file

  /** The fixed rows of a local file read exactly when its first 30 bytes lie in the buffer
      and begin with `50 4B 03 04`. */
  lemma LocalFixedOk(text: TextDecoder, buf: seq<byte>, offset: int)
    requires offset >= 0
    ensures LocalFront(text, buf, offset).Ok? <==> offset + 14 <= |buf| && buf[offset..offset + 4] == LocalSignature
    ensures LocalBack(text, buf, offset).Ok? <==> offset + 30 <= |buf|
  {
    assert LocalVersions(text, buf, offset).Ok? <==> offset + 8 <= |buf| && buf[offset..offset + 4] == LocalSignature;
    assert LocalSizes(text, buf, offset).Ok? <==> offset + 26 <= |buf|;
  }

  /** `parseLocalFile` succeeds exactly when the 30 fixed bytes of the file lie in the buffer
      and begin with the signature; the filename, extra field and data never fail. */
  lemma LocalFileOk(text: TextDecoder, buf: seq<byte>, offset: int)
    requires offset >= 0
    ensures LocalFile(text, buf, offset).Ok? <==> offset + 30 <= |buf| && buf[offset..offset + 4] == LocalSignature
  {
    LocalFixedOk(text, buf, offset);
  }

  /** A local file spans from its offset over its 30 fixed bytes, its filename, its extra field
      and its compressed data, and is labelled with its filename. */
  lemma LocalFileSpan(text: TextDecoder, buf: seq<byte>, offset: int)
    requires LocalFile(text, buf, offset).Ok?
    ensures Raw(buf, offset + 18, 4).Ok? && Raw(buf, offset + 26, 2).Ok? && Raw(buf, offset + 28, 2).Ok?
    ensures var f := LocalFile(text, buf, offset).value;
            var size, n, m := Raw(buf, offset + 18, 4).value, Raw(buf, offset + 26, 2).value, Raw(buf, offset + 28, 2).value;
            && f.startPos == offset && f.endPos == offset + 30 + n + m + size
            && f.strValue.Some? && f.strValue.value == text("utf-8", Slice(buf, offset + 30, offset + 30 + n))
  {
    var front, back := LocalFront(text, buf, offset).value, LocalBack(text, buf, offset).value;
    var size, n, m := Raw(buf, offset + 18, 4).value, Raw(buf, offset + 26, 2).value, Raw(buf, offset + 28, 2).value;
    LocalFileIs(text, buf, offset, front, back, size, n, m);
  }

  // Layout of the end-of-central-directory record

  /** `parseEOCD` succeeds exactly when the 22 fixed bytes of the record lie in the buffer and
      begin with `50 4B 05 06`. */
  lemma EocdOk(text: TextDecoder, buf: seq<byte>, offset: int, end: int)
    requires offset >= 0
    ensures Eocd(text, buf, offset, end).Ok? <==> offset + 22 <= |buf| && buf[offset..offset + 4] == EocdSignature
  {
    assert EocdCounts(text, buf, offset).Ok? <==> offset + 8 <= |buf| && buf[offset..offset + 4] == EocdSignature;
    assert EocdSizes(text, buf, offset).Ok? <==> offset + 16 <= |buf|;
    assert EocdTail(text, buf, offset).Ok? <==> offset + 22 <= |buf|;
  }

  /** The record spans `[offset, end)`; its last row is the comment of `commentLength` bytes
      at +22, and its sixth, seventh and fourth rows hold the directory's size, offset and
      record count. */
  lemma EocdRows(text: TextDecoder, buf: seq<byte>, offset: int, end: int)
    requires end - offset != -1 && Eocd(text, buf, offset, end).Ok?
    ensures Raw(buf, offset + 8, 2).Ok? && Raw(buf, offset + 12, 4).Ok? && Raw(buf, offset + 16, 4).Ok?
    ensures Raw(buf, offset + 20, 2).Ok?
    ensures var e := Eocd(text, buf, offset, end).value;
            && e.startPos == offset && e.endPos == end && |e.Kids()| == 9
            && e.Kids()[3].id == "cdrecords" && e.Kids()[3].numValue == Some(Raw(buf, offset + 8, 2).value)
            && e.Kids()[5].id == "cdsize" && e.Kids()[5].numValue == Some(Raw(buf, offset + 12, 4).value)
            && e.Kids()[6].id == "cdoffset" && e.Kids()[6].numValue == Some(Raw(buf, offset + 16, 4).value)
            && e.Kids()[8] == StringAt(text, buf, LE, offset + 22, Raw(buf, offset + 20, 2).value, "comment", "")
  {
    var counts, sizes, tail := EocdCounts(text, buf, offset).value, EocdSizes(text, buf, offset).value,
                               EocdTail(text, buf, offset).value;
    assert Eocd(text, buf, offset, end).value.Kids() == counts + sizes + tail;
  }

  // The fetchers

  /** Record `i` starts where the walk over the `i` records before it ends, and ends where the
      walk over `i + 1` records ends: the records the fetcher returns tile the directory. */
  lemma RecordsContiguous(text: TextDecoder, buf: seq<byte>, cdStart: int, i: nat)
    requires CentralFetch(text, buf, cdStart, i).Ok?
    ensures RecordStart(buf, cdStart, i).Ok? && RecordStart(buf, cdStart, i + 1).Ok?
    ensures CentralFetch(text, buf, cdStart, i).value.startPos == RecordStart(buf, cdStart, i).value
    ensures CentralFetch(text, buf, cdStart, i).value.endPos == RecordStart(buf, cdStart, i + 1).value
  {
    var start := RecordStart(buf, cdStart, i).value;
    assert CentralFetch(text, buf, cdStart, i) == CentralRecord(text, buf, start);
    CentralRecordSpan(text, buf, start);
    RecordStartStep(buf, cdStart, i, start);
  }

  /** The local-file fetcher decodes the local file at the `localHeaderOffset` of central
      record `index`: the little-endian number at +42 of that record. */
  lemma LocalFetchAt(text: TextDecoder, buf: seq<byte>, cdStart: int, index: int)
    requires CentralFetch(text, buf, cdStart, index).Ok?
    ensures Raw(buf, CentralFetch(text, buf, cdStart, index).value.startPos + 42, 4).Ok?
    ensures LocalFetch(text, buf, cdStart, index)
         == LocalFile(text, buf, Raw(buf, CentralFetch(text, buf, cdStart, index).value.startPos + 42, 4).value)
  {
    var start := RecordStart(buf, cdStart, if index < 0 then 0 else index).value;
    var record := CentralRecord(text, buf, start).value;
    assert CentralFetch(text, buf, cdStart, index).value == record;
    CentralRecordSpan(text, buf, start);
    LocalOffsetRow(text, buf, start);
    assert record.startPos == start;
    assert record.Kids()[16].numValue.value == Raw(buf, start + 42, 4).value;
    LocalFetchOf(text, buf, cdStart, index, record);
  }

  /** The local-file fetcher follows the `localHeaderOffset` row of the record it fetched. */
  lemma LocalFetchOf(text: TextDecoder, buf: seq<byte>, cdStart: int, index: int, record: Region)
    requires CentralFetch(text, buf, cdStart, index).Ok? && CentralFetch(text, buf, cdStart, index).value == record
    requires |record.Kids()| > 16 && FindRegion(record.Kids(), "localHeaderOffset") == Some(record.Kids()[16])
    requires record.Kids()[16].numValue.Some?
    ensures LocalFetch(text, buf, cdStart, index) == LocalFile(text, buf, record.Kids()[16].numValue.value)
  {
  }

  /** A central-directory fetch fails exactly when the walk fails, or the record it lands on
      lacks its 46 fixed bytes or its signature. */
  lemma CentralFetchOk(text: TextDecoder, buf: seq<byte>, cdStart: int, index: int)
    requires cdStart >= 0
    ensures var walk := RecordStart(buf, cdStart, if index < 0 then 0 else index);
            CentralFetch(text, buf, cdStart, index).Ok?
            <==> walk.Ok? && walk.value + 46 <= |buf| && buf[walk.value..walk.value + 4] == CentralSignature
  {
    var walk := RecordStart(buf, cdStart, if index < 0 then 0 else index);
    if walk.Ok? {
      CentralRecordOk(text, buf, walk.value);
    }
  }

  // The whole decode

  /** A match of the EOCD signature within the buffer is the signature's bytes. */
  lemma MatchIsSignature(buf: seq<byte>, pos: int)
    requires MatchAt(buf, EocdSignature, pos)
    ensures 0 <= pos && pos + 4 <= |buf| && buf[pos..pos + 4] == EocdSignature
  {
    MatchAtWithin(buf, EocdSignature, pos);
    SliceIsData(buf, pos, EocdSignature);
  }

  /** `parse` throws "cannot find EOCD" exactly when the signature `50 4B 05 06` occurs
      nowhere in the buffer. */
  lemma ZipNotFound(text: TextDecoder, buf: seq<byte>)
    ensures ZipRegions(text, buf) == Err(NotFound)
        <==> forall k :: 0 <= k <= |buf| - 4 ==> !MatchAt(buf, EocdSignature, k)
  {
    var pos := LastMatch(buf, EocdSignature, |buf| - 4);
    if pos != -1 {
      MatchIsSignature(buf, pos);
      var e := Eocd(text, buf, pos, |buf|);
      if e.Err? {
        EocdErrors(text, buf, pos, |buf|);
      }
    }
  }

  /** The EOCD record fails only with the errors of its rows, never with `NotFound`. */
  lemma EocdErrors(text: TextDecoder, buf: seq<byte>, offset: int, end: int)
    ensures Eocd(text, buf, offset, end).Err? ==> Eocd(text, buf, offset, end).error != NotFound
  {
  }

  /** A decode that succeeds returns, in this order, the local files over `[0, cdoffset)`, the
      central directory over `[cdoffset, cdoffset + cdsize)`, each with `cdrecords` slots, and
      the EOCD record at the last occurrence of its signature, spanning to the buffer's end. */
  lemma ZipLayout(text: TextDecoder, buf: seq<byte>)
    requires ZipRegions(text, buf).Ok?
    ensures var pos := LastMatch(buf, EocdSignature, |buf| - 4);
            && 0 <= pos && pos + 22 <= |buf|
            && forall k :: pos < k <= |buf| - 4 ==> !MatchAt(buf, EocdSignature, k)
    ensures var pos := LastMatch(buf, EocdSignature, |buf| - 4);
            var rs := ZipRegions(text, buf).value;
            var records, size, cdoffset := CommonUtil.LE(buf[pos + 8..pos + 10]), CommonUtil.LE(buf[pos + 12..pos + 16]),
                                           CommonUtil.LE(buf[pos + 16..pos + 20]);
            && |rs| == 3
            && rs[0].id == "LocalFiles" && rs[0].startPos == 0 && rs[0].endPos == cdoffset
            && rs[0].children == Lazy(records, LocalFiles(cdoffset))
            && rs[1].id == "CD" && rs[1].startPos == cdoffset && rs[1].endPos == cdoffset + size
            && rs[1].children == Lazy(records, CentralRecords(cdoffset))
            && rs[2] == Eocd(text, buf, pos, |buf|).value
            && rs[2].startPos == pos && rs[2].endPos == |buf|
  {
    var pos := LastMatch(buf, EocdSignature, |buf| - 4);
    MatchIsSignature(buf, pos);
    EocdOk(text, buf, pos, |buf|);
    EocdRows(text, buf, pos, |buf|);
    RawUnsigned(buf, pos + 8, 2);
    RawUnsigned(buf, pos + 12, 4);
    RawUnsigned(buf, pos + 16, 4);
    ZipRegionsIs(text, buf, pos, Eocd(text, buf, pos, |buf|).value, Raw(buf, pos + 8, 2).value,
                 Raw(buf, pos + 12, 4).value, Raw(buf, pos + 16, 4).value);
  }
}
