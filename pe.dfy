/** The PE decoder of src/parser/pe.ts: with a leading "MZ", the DOS stub holding the pointer
    to the PE header at 0x3C and the PE signature there; then the 20-byte COFF file header
    (section 3.3 of the Microsoft PE/COFF specification) and, when the COFF header announces
    one, the PE32 fields of the optional header (section 3.4). All numbers are little-endian. */
module Pe {
  import opened Wrappers
  import opened CommonUtil
  import opened Dom
  import opened CommonParser

  const MzSignature: seq<byte> := [0x4D, 0x5A]
  const PeSignature: seq<byte> := [0x50, 0x45, 0, 0]

  /** The extensions the sniffer accepts. */
  const Extensions: seq<string> := ["exe", "dll", "scr", "sys", "ocx", "mui", "efi", "drv", "cpl", "acm", "ax", "tsp"]

  /** The descriptions `parseOptionalHeader` gives its documented rows, one field per text. */
  datatype PeDocs = PeDocs(imageBase: string, sectionAlignment: string, fileAlignment: string, majorSystem: string, minorSystem: string, majorImage: string, minorImage: string, majorSubsystem: string, minorSubsystem: string, reserved: string, sizeOfImage: string, sizeOfHeaders: string, checkSum: string, subsystem: string, dllCharacteristics: string, stackReserve: string, stackCommit: string, heapReserve: string, heapCommit: string, rva: string)

  /** The texts themselves, word for word as the decoder carries them. */
  const Documentation := PeDocs(
    "The preferred address of the first byte of image when loaded into memory; must be a multiple of 64 K. The default for DLLs is 0x10000000. The default for Windows CE EXEs is 0x00010000. The default for Windows NT, Windows 2000, Windows XP, Windows 95, Windows 98, and Windows Me is 0x00400000.",
    "The alignment (in bytes) of sections when they are loaded into memory. It must be greater than or equal to FileAlignment. The default is the page size for the architecture.",
    "The alignment factor (in bytes) that is used to align the raw data of sections in the image file. The value should be a power of 2 between 512 and 64 K, inclusive. The default is 512. If the SectionAlignment is less than the architecture’s page size, then FileAlignment must match SectionAlignment.",
    "The major version number of the required operating system.",
    "The minor version number of the required operating system.",
    "The major version number of the image.",
    "The minor version number of the image.",
    "The major version number of the subsystem.",
    "The minor version number of the subsystem.",
    "Reserved, must be zero.",
    "The size (in bytes) of the image, including all headers, as the image is loaded in memory. It must be a multiple of SectionAlignment.",
    "The combined size of an MS DOS stub, PE header, and section headers rounded up to a multiple of FileAlignment.",
    "The image file checksum. The algorithm for computing the checksum is incorporated into IMAGHELP.DLL. The following are checked for validation at load time: all drivers, any DLL loaded at boot time, and any DLL that is loaded into a critical Windows process.",
    "The subsystem that is required to run this image. For more information, see “Windows Subsystem” later in this specification.",
    "For more information, see “DLL Characteristics” later in this specification.",
    "The size of the stack to reserve. Only SizeOfStackCommit is committed; the rest is made available one page at a time until the reserve size is reached.",
    "The size of the stack to commit.",
    "The size of the local heap space to reserve. Only SizeOfHeapCommit is committed; the rest is made available one page at a time until the reserve size is reached.",
    "The size of the local heap space to commit.",
    "The number of data-directory entries in the remainder of the optional header. Each describes a location and size.")

  /** `isSupportedFile`: `indexOf(ext) >= 0` over the extension list. */
  predicate IsSupportedFile(ext: string)
  {
    ext in Extensions
  }

  // The DOS stub and the PE signature

  /** The pointer row at 0x3C, the stub over `[0, PeHeaderOffset)` and the signature row at
      PeHeaderOffset, whose check throws unless it reads `50 45 00 00`. */
  function DosPart(text: TextDecoder, buf: seq<byte>): Result<seq<Region>>
  {
    var pointer :- FieldAt(text, buf, LE, 0x3C, N(4, "PeHeaderOffset", "Pointer to PE header"));
    var h :- Raw(buf, 0x3C, 4);
    var signature :- FieldAt(text, buf, LE, h, Field(General, 4, "PeSignature", "PE signature", Expect(PeSignature)));
    Ok([Region("DosStub", Compound, "", 0, h, Some(LE), None, None, None, Sub([pointer])), signature])
  }

  // The COFF file header

  /** Machine(2), NumberOfSections(2), TimeDateStamp(4). */
  function CoffFront(text: TextDecoder, buf: seq<byte>, offset: int): Result<seq<Region>>
  {
    var machine :- FieldAt(text, buf, LE, offset, N(2, "Machine"));
    var sections :- FieldAt(text, buf, LE, offset + 2, N(2, "NumberOfSections"));
    var stamp :- FieldAt(text, buf, LE, offset + 4, N(4, "TimeDateStamp"));
    Ok([machine, sections, stamp])
  }

  /** PointerToSymbolTable(4), NumberOfSymbols(4), SizeOfOptionalHeader(2), Characteristics(2). */
  function CoffBack(text: TextDecoder, buf: seq<byte>, offset: int): Result<seq<Region>>
  {
    var symbolTable :- FieldAt(text, buf, LE, offset + 8, N(4, "PointerToSymbolTable"));
    var symbols :- FieldAt(text, buf, LE, offset + 12, N(4, "NumberOfSymbols"));
    var optionalSize :- FieldAt(text, buf, LE, offset + 16, N(2, "SizeOfOptionalHeader"));
    var characteristics :- FieldAt(text, buf, LE, offset + 18, N(2, "Characteristics"));
    Ok([symbolTable, symbols, optionalSize, characteristics])
  }

  /** `parseCOFF(p, offset)`: the seven rows over `[offset, offset + 20)`. */
  function Coff(text: TextDecoder, buf: seq<byte>, offset: int): Result<Region>
  {
    var front :- CoffFront(text, buf, offset);
    var back :- CoffBack(text, buf, offset);
    Ok(Region("COFF", Compound, "", offset, offset + 20, Some(LE), None, None, None, Sub(front + back)))
  }

  // The optional header: nine chunks of rows, each read where the previous one ends

  /** Magic(2), MajorLinkerVersion(1), MinorLinkerVersion(1), SizeOfCode(4). */
  function OptLinker(text: TextDecoder, buf: seq<byte>, offset: int): Result<seq<Region>>
  {
    var magic :- FieldAt(text, buf, LE, offset, N(2, "Magic"));
    var major :- FieldAt(text, buf, LE, offset + 2, N(1, "MajorLinkerVersion"));
    var minor :- FieldAt(text, buf, LE, offset + 3, N(1, "MinorLinkerVersion"));
    var code :- FieldAt(text, buf, LE, offset + 4, N(4, "SizeOfCode"));
    Ok([magic, major, minor, code])
  }

  /** SizeOfInitializedData(4), SizeOfUninitializedData(4), AddressOfEntryPoint(4). */
  function OptData(text: TextDecoder, buf: seq<byte>, offset: int): Result<seq<Region>>
  {
    var initialized :- FieldAt(text, buf, LE, offset + 8, N(4, "SizeOfInitializedData"));
    var uninitialized :- FieldAt(text, buf, LE, offset + 12, N(4, "SizeOfUninitializedData"));
    var entry :- FieldAt(text, buf, LE, offset + 16, N(4, "AddressOfEntryPoint"));
    Ok([initialized, uninitialized, entry])
  }

  /** BaseOfCode(4), BaseOfData(4). */
  function OptBases(text: TextDecoder, buf: seq<byte>, offset: int): Result<seq<Region>>
  {
    var codeBase :- FieldAt(text, buf, LE, offset + 20, N(4, "BaseOfCode"));
    var dataBase :- FieldAt(text, buf, LE, offset + 24, N(4, "BaseOfData"));
    Ok([codeBase, dataBase])
  }

  /** ImageBase(4), SectionAlignment(4), FileAlignment(4). */
  function OptAlignment(text: TextDecoder, buf: seq<byte>, docs: PeDocs, offset: int): Result<seq<Region>>
  {
    var imageBase :- FieldAt(text, buf, LE, offset + 28, N(4, "ImageBase", docs.imageBase));
    var section :- FieldAt(text, buf, LE, offset + 32, N(4, "SectionAlignment", docs.sectionAlignment));
    var file :- FieldAt(text, buf, LE, offset + 36, N(4, "FileAlignment", docs.fileAlignment));
    Ok([imageBase, section, file])
  }

  /** Major/MinorOperatingSystemVersion(2 each), MajorImageVersion(2). */
  function OptSystemVersions(text: TextDecoder, buf: seq<byte>, docs: PeDocs, offset: int): Result<seq<Region>>
  {
    var majorSystem :- FieldAt(text, buf, LE, offset + 40, N(2, "MajorOperatingSystemVersion", docs.majorSystem));
    var minorSystem :- FieldAt(text, buf, LE, offset + 42, N(2, "MinorOperatingSystemVersion", docs.minorSystem));
    var majorImage :- FieldAt(text, buf, LE, offset + 44, N(2, "MajorImageVersion", docs.majorImage));
    Ok([majorSystem, minorSystem, majorImage])
  }

  /** MinorImageVersion(2), Major/MinorSubsystemVersion(2 each). */
  function OptImageVersions(text: TextDecoder, buf: seq<byte>, docs: PeDocs, offset: int): Result<seq<Region>>
  {
    var minorImage :- FieldAt(text, buf, LE, offset + 46, N(2, "MinorImageVersion", docs.minorImage));
    var majorSubsystem :- FieldAt(text, buf, LE, offset + 48, N(2, "MajorSubsystemVersion", docs.majorSubsystem));
    var minorSubsystem :- FieldAt(text, buf, LE, offset + 50, N(2, "MinorSubsystemVersion", docs.minorSubsystem));
    Ok([minorImage, majorSubsystem, minorSubsystem])
  }

  /** Win32VersionValue(4), SizeOfImage(4), SizeOfHeaders(4), CheckSum(4). */
  function OptSizes(text: TextDecoder, buf: seq<byte>, docs: PeDocs, offset: int): Result<seq<Region>>
  {
    var win32 :- FieldAt(text, buf, LE, offset + 52, N(4, "Win32VersionValue", docs.reserved));
    var image :- FieldAt(text, buf, LE, offset + 56, N(4, "SizeOfImage", docs.sizeOfImage));
    var headers :- FieldAt(text, buf, LE, offset + 60, N(4, "SizeOfHeaders", docs.sizeOfHeaders));
    var checksum :- FieldAt(text, buf, LE, offset + 64, N(4, "CheckSum", docs.checkSum));
    Ok([win32, image, headers, checksum])
  }

  /** Subsystem(2), DllCharacteristics(2), SizeOfStackReserve(4), SizeOfStackCommit(4). */
  function OptStack(text: TextDecoder, buf: seq<byte>, docs: PeDocs, offset: int): Result<seq<Region>>
  {
    var subsystem :- FieldAt(text, buf, LE, offset + 68, N(2, "Subsystem", docs.subsystem));
    var dll :- FieldAt(text, buf, LE, offset + 70, N(2, "DllCharacteristics", docs.dllCharacteristics));
    var stackReserve :- FieldAt(text, buf, LE, offset + 72, N(4, "SizeOfStackReserve", docs.stackReserve));
    var stackCommit :- FieldAt(text, buf, LE, offset + 76, N(4, "SizeOfStackCommit", docs.stackCommit));
    Ok([subsystem, dll, stackReserve, stackCommit])
  }

  /** SizeOfHeapReserve(4), SizeOfHeapCommit(4), LoaderFlags(4), NumberOfRvaAndSizes(4). */
  function OptHeap(text: TextDecoder, buf: seq<byte>, docs: PeDocs, offset: int): Result<seq<Region>>
  {
    var heapReserve :- FieldAt(text, buf, LE, offset + 80, N(4, "SizeOfHeapReserve", docs.heapReserve));
    var heapCommit :- FieldAt(text, buf, LE, offset + 84, N(4, "SizeOfHeapCommit", docs.heapCommit));
    var loader :- FieldAt(text, buf, LE, offset + 88, N(4, "LoaderFlags", docs.reserved));
    var rva :- FieldAt(text, buf, LE, offset + 92, N(4, "NumberOfRvaAndSizes", docs.rva));
    Ok([heapReserve, heapCommit, loader, rva])
  }

  /** The nine rows over `[offset, offset + 28)`. */
  function OptFront(text: TextDecoder, buf: seq<byte>, offset: int): Result<seq<Region>>
  {
    var a :- OptLinker(text, buf, offset);
    var b :- OptData(text, buf, offset);
    var c :- OptBases(text, buf, offset);
    Ok(a + b + c)
  }

  /** The nine rows over `[offset + 28, offset + 52)`. */
  function OptMiddle(text: TextDecoder, buf: seq<byte>, docs: PeDocs, offset: int): Result<seq<Region>>
  {
    var a :- OptAlignment(text, buf, docs, offset);
    var b :- OptSystemVersions(text, buf, docs, offset);
    var c :- OptImageVersions(text, buf, docs, offset);
    Ok(a + b + c)
  }

  /** The twelve rows over `[offset + 52, offset + 96)`. */
  function OptBack(text: TextDecoder, buf: seq<byte>, docs: PeDocs, offset: int): Result<seq<Region>>
  {
    var a :- OptSizes(text, buf, docs, offset);
    var b :- OptStack(text, buf, docs, offset);
    var c :- OptHeap(text, buf, docs, offset);
    Ok(a + b + c)
  }

  /** The thirty rows of the optional header, 96 bytes from `offset`. */
  function OptRows(text: TextDecoder, buf: seq<byte>, docs: PeDocs, offset: int): Result<seq<Region>>
  {
    var front :- OptFront(text, buf, offset);
    var middle :- OptMiddle(text, buf, docs, offset);
    var back :- OptBack(text, buf, docs, offset);
    Ok(front + middle + back)
  }

  /** `parseOptionalHeader(p, offset, length)`: the region spans the `length` bytes the COFF
      header announces, whatever the 96 bytes of its thirty rows. */
  function OptionalHeader(text: TextDecoder, buf: seq<byte>, docs: PeDocs, offset: int, length: int): Result<Region>
  {
    var rows :- OptRows(text, buf, docs, offset);
    Ok(Region("OptionalHeader", Compound, "", offset, offset + length, Some(LE), None, None, None, Sub(rows)))
  }

  // The whole decode

  /** The COFF header at `coffOffset`, then the optional header right after it when
      SizeOfOptionalHeader is positive. */
  function Headers(text: TextDecoder, buf: seq<byte>, docs: PeDocs, coffOffset: int): Result<seq<Region>>
  {
    var coff :- Coff(text, buf, coffOffset);
    var size :- Raw(buf, coffOffset + 16, 2);
    if size > 0 then
      var optional :- OptionalHeader(text, buf, docs, coffOffset + 20, size);
      Ok([coff, optional])
    else
      Ok([coff])
  }

  /** What `parse` returns: the MZ test throws on a buffer of fewer than two bytes; with "MZ"
      the DOS stub and the PE signature come first and the COFF header follows the
      signature, without it the COFF header starts at 0. */
  function PeRegions(text: TextDecoder, buf: seq<byte>, docs: PeDocs): Result<seq<Region>>
  {
    var mz :- CheckContentSpec(buf, 0, MzSignature);
    if mz then
      var dos :- DosPart(text, buf);
      var h :- Raw(buf, 0x3C, 4);
      var rest :- Headers(text, buf, docs, h + 4);
      Ok(dos + rest)
    else
      Headers(text, buf, docs, 0)
  }

  /** The COFF region from its two chunks. */
  lemma CoffIs(text: TextDecoder, buf: seq<byte>, offset: int, front: seq<Region>, back: seq<Region>)
    requires CoffFront(text, buf, offset) == Ok(front) && CoffBack(text, buf, offset) == Ok(back)
    ensures Coff(text, buf, offset) == Ok(Region("COFF", Compound, "", offset, offset + 20, Some(LE), None, None, None, Sub(front + back)))
  {
    var v := Region("COFF", Compound, "", offset, offset + 20, Some(LE), None, None, None, Sub(front + back));
    assert Coff(text, buf, offset).value == v;
  }

  /** With "MZ", the DOS part, then the headers past the signature. */
  lemma PeRegionsWithMz(text: TextDecoder, buf: seq<byte>, docs: PeDocs, dos: seq<Region>, rest: seq<Region>)
    requires CheckContentSpec(buf, 0, MzSignature) == Ok(true) && DosPart(text, buf) == Ok(dos)
    requires Raw(buf, 0x3C, 4).Ok? && Headers(text, buf, docs, Raw(buf, 0x3C, 4).value + 4) == Ok(rest)
    ensures PeRegions(text, buf, docs) == Ok(dos + rest)
  {
    assert PeRegions(text, buf, docs).value == dos + rest;
  }

  /** Without the two bytes of the MZ check the decoder fails with a range error. */
  lemma PeTooShort(text: TextDecoder, buf: seq<byte>, docs: PeDocs)
    requires |buf| < 2
    ensures PeRegions(text, buf, docs) == Err(RangeError)
  {
  }

  /** A file that does not start with `MZ` is read as a bare COFF image from offset 0. */
  lemma PeWithoutMz(text: TextDecoder, buf: seq<byte>, docs: PeDocs)
    requires 2 <= |buf| && buf[..2] != MzSignature
    ensures PeRegions(text, buf, docs) == Headers(text, buf, docs, 0)
  {
  }

  /** The optional header region from its rows. */
  lemma OptionalHeaderIs(text: TextDecoder, buf: seq<byte>, docs: PeDocs, offset: int, length: int, rows: seq<Region>)
    requires OptRows(text, buf, docs, offset) == Ok(rows)
    ensures OptionalHeader(text, buf, docs, offset, length)
         == Ok(Region("OptionalHeader", Compound, "", offset, offset + length, Some(LE), None, None, None, Sub(rows)))
  {
    var v := Region("OptionalHeader", Compound, "", offset, offset + length, Some(LE), None, None, None, Sub(rows));
    assert OptionalHeader(text, buf, docs, offset, length).value == v;
  }

  // Layout

  /** CoffFront reads exactly when its bytes lie in the buffer, and then its rows tile them. */
  lemma CoffFrontRows(text: TextDecoder, buf: seq<byte>, offset: int)
    requires offset >= 0
    ensures CoffFront(text, buf, offset).Ok? <==> offset + 8 <= |buf|
    ensures CoffFront(text, buf, offset).Ok? ==> |CoffFront(text, buf, offset).value| == 3 && Tiles(buf, CoffFront(text, buf, offset).value, offset, offset + 8)
  {
    NumberRow(text, buf, offset, 2, "Machine", "");
    NumberRow(text, buf, offset + 2, 2, "NumberOfSections", "");
    NumberRow(text, buf, offset + 4, 4, "TimeDateStamp", "");
    if CoffFront(text, buf, offset).Ok? {
      var r := CoffFront(text, buf, offset).value;
      Tiles3(buf, r[0], r[1], r[2], offset, offset + 2, offset + 4, offset + 8);
    }
  }

  /** CoffBack reads exactly when its bytes lie in the buffer, and then its rows tile them. */
  lemma CoffBackRows(text: TextDecoder, buf: seq<byte>, offset: int)
    requires offset >= 0
    ensures CoffBack(text, buf, offset).Ok? <==> offset + 20 <= |buf|
    ensures CoffBack(text, buf, offset).Ok? ==> |CoffBack(text, buf, offset).value| == 4 && Tiles(buf, CoffBack(text, buf, offset).value, offset + 8, offset + 20)
  {
    NumberRow(text, buf, offset + 8, 4, "PointerToSymbolTable", "");
    NumberRow(text, buf, offset + 12, 4, "NumberOfSymbols", "");
    NumberRow(text, buf, offset + 16, 2, "SizeOfOptionalHeader", "");
    NumberRow(text, buf, offset + 18, 2, "Characteristics", "");
    if CoffBack(text, buf, offset).Ok? {
      var r := CoffBack(text, buf, offset).value;
      Tiles4(buf, r[0], r[1], r[2], r[3], offset + 8, offset + 12, offset + 16, offset + 18, offset + 20);
    }
  }

  /** OptLinker reads exactly when its bytes lie in the buffer, and then its rows tile them. */
  lemma OptLinkerRows(text: TextDecoder, buf: seq<byte>, offset: int)
    requires offset >= 0
    ensures OptLinker(text, buf, offset).Ok? <==> offset + 8 <= |buf|
    ensures OptLinker(text, buf, offset).Ok? ==> |OptLinker(text, buf, offset).value| == 4 && Tiles(buf, OptLinker(text, buf, offset).value, offset, offset + 8)
  {
    NumberRow(text, buf, offset, 2, "Magic", "");
    NumberRow(text, buf, offset + 2, 1, "MajorLinkerVersion", "");
    NumberRow(text, buf, offset + 3, 1, "MinorLinkerVersion", "");
    NumberRow(text, buf, offset + 4, 4, "SizeOfCode", "");
    if OptLinker(text, buf, offset).Ok? {
      var r := OptLinker(text, buf, offset).value;
      Tiles4(buf, r[0], r[1], r[2], r[3], offset, offset + 2, offset + 3, offset + 4, offset + 8);
    }
  }

  /** OptData reads exactly when its bytes lie in the buffer, and then its rows tile them. */
  lemma OptDataRows(text: TextDecoder, buf: seq<byte>, offset: int)
    requires offset >= 0
    ensures OptData(text, buf, offset).Ok? <==> offset + 20 <= |buf|
    ensures OptData(text, buf, offset).Ok? ==> |OptData(text, buf, offset).value| == 3 && Tiles(buf, OptData(text, buf, offset).value, offset + 8, offset + 20)
  {
    NumberRow(text, buf, offset + 8, 4, "SizeOfInitializedData", "");
    NumberRow(text, buf, offset + 12, 4, "SizeOfUninitializedData", "");
    NumberRow(text, buf, offset + 16, 4, "AddressOfEntryPoint", "");
    if OptData(text, buf, offset).Ok? {
      var r := OptData(text, buf, offset).value;
      Tiles3(buf, r[0], r[1], r[2], offset + 8, offset + 12, offset + 16, offset + 20);
    }
  }

  /** OptBases reads exactly when its bytes lie in the buffer, and then its rows tile them. */
  lemma OptBasesRows(text: TextDecoder, buf: seq<byte>, offset: int)
    requires offset >= 0
    ensures OptBases(text, buf, offset).Ok? <==> offset + 28 <= |buf|
    ensures OptBases(text, buf, offset).Ok? ==> |OptBases(text, buf, offset).value| == 2 && Tiles(buf, OptBases(text, buf, offset).value, offset + 20, offset + 28)
  {
    NumberRow(text, buf, offset + 20, 4, "BaseOfCode", "");
    NumberRow(text, buf, offset + 24, 4, "BaseOfData", "");
    if OptBases(text, buf, offset).Ok? {
      var r := OptBases(text, buf, offset).value;
      Tiles2(buf, r[0], r[1], offset + 20, offset + 24, offset + 28);
    }
  }

  /** OptAlignment reads exactly when its bytes lie in the buffer, and then its rows tile them. */
  lemma OptAlignmentRows(text: TextDecoder, buf: seq<byte>, docs: PeDocs, offset: int)
    requires offset >= 0
    ensures OptAlignment(text, buf, docs, offset).Ok? <==> offset + 40 <= |buf|
    ensures OptAlignment(text, buf, docs, offset).Ok? ==> |OptAlignment(text, buf, docs, offset).value| == 3 && Tiles(buf, OptAlignment(text, buf, docs, offset).value, offset + 28, offset + 40)
  {
    NumberRow(text, buf, offset + 28, 4, "ImageBase", docs.imageBase);
    NumberRow(text, buf, offset + 32, 4, "SectionAlignment", docs.sectionAlignment);
    NumberRow(text, buf, offset + 36, 4, "FileAlignment", docs.fileAlignment);
    if OptAlignment(text, buf, docs, offset).Ok? {
      var r := OptAlignment(text, buf, docs, offset).value;
      Tiles3(buf, r[0], r[1], r[2], offset + 28, offset + 32, offset + 36, offset + 40);
    }
  }

  /** OptSystemVersions reads exactly when its bytes lie in the buffer, and then its rows tile them. */
  lemma OptSystemVersionsRows(text: TextDecoder, buf: seq<byte>, docs: PeDocs, offset: int)
    requires offset >= 0
    ensures OptSystemVersions(text, buf, docs, offset).Ok? <==> offset + 46 <= |buf|
    ensures OptSystemVersions(text, buf, docs, offset).Ok? ==> |OptSystemVersions(text, buf, docs, offset).value| == 3 && Tiles(buf, OptSystemVersions(text, buf, docs, offset).value, offset + 40, offset + 46)
  {
    NumberRow(text, buf, offset + 40, 2, "MajorOperatingSystemVersion", docs.majorSystem);
    NumberRow(text, buf, offset + 42, 2, "MinorOperatingSystemVersion", docs.minorSystem);
    NumberRow(text, buf, offset + 44, 2, "MajorImageVersion", docs.majorImage);
    if OptSystemVersions(text, buf, docs, offset).Ok? {
      var r := OptSystemVersions(text, buf, docs, offset).value;
      Tiles3(buf, r[0], r[1], r[2], offset + 40, offset + 42, offset + 44, offset + 46);
    }
  }

  /** OptImageVersions reads exactly when its bytes lie in the buffer, and then its rows tile them. */
  lemma OptImageVersionsRows(text: TextDecoder, buf: seq<byte>, docs: PeDocs, offset: int)
    requires offset >= 0
    ensures OptImageVersions(text, buf, docs, offset).Ok? <==> offset + 52 <= |buf|
    ensures OptImageVersions(text, buf, docs, offset).Ok? ==> |OptImageVersions(text, buf, docs, offset).value| == 3 && Tiles(buf, OptImageVersions(text, buf, docs, offset).value, offset + 46, offset + 52)
  {
    NumberRow(text, buf, offset + 46, 2, "MinorImageVersion", docs.minorImage);
    NumberRow(text, buf, offset + 48, 2, "MajorSubsystemVersion", docs.majorSubsystem);
    NumberRow(text, buf, offset + 50, 2, "MinorSubsystemVersion", docs.minorSubsystem);
    if OptImageVersions(text, buf, docs, offset).Ok? {
      var r := OptImageVersions(text, buf, docs, offset).value;
      Tiles3(buf, r[0], r[1], r[2], offset + 46, offset + 48, offset + 50, offset + 52);
    }
  }

  /** OptSizes reads exactly when its bytes lie in the buffer, and then its rows tile them. */
  lemma OptSizesRows(text: TextDecoder, buf: seq<byte>, docs: PeDocs, offset: int)
    requires offset >= 0
    ensures OptSizes(text, buf, docs, offset).Ok? <==> offset + 68 <= |buf|
    ensures OptSizes(text, buf, docs, offset).Ok? ==> |OptSizes(text, buf, docs, offset).value| == 4 && Tiles(buf, OptSizes(text, buf, docs, offset).value, offset + 52, offset + 68)
  {
    NumberRow(text, buf, offset + 52, 4, "Win32VersionValue", docs.reserved);
    NumberRow(text, buf, offset + 56, 4, "SizeOfImage", docs.sizeOfImage);
    NumberRow(text, buf, offset + 60, 4, "SizeOfHeaders", docs.sizeOfHeaders);
    NumberRow(text, buf, offset + 64, 4, "CheckSum", docs.checkSum);
    if OptSizes(text, buf, docs, offset).Ok? {
      var r := OptSizes(text, buf, docs, offset).value;
      Tiles4(buf, r[0], r[1], r[2], r[3], offset + 52, offset + 56, offset + 60, offset + 64, offset + 68);
    }
  }

  /** OptStack reads exactly when its bytes lie in the buffer, and then its rows tile them. */
  lemma OptStackRows(text: TextDecoder, buf: seq<byte>, docs: PeDocs, offset: int)
    requires offset >= 0
    ensures OptStack(text, buf, docs, offset).Ok? <==> offset + 80 <= |buf|
    ensures OptStack(text, buf, docs, offset).Ok? ==> |OptStack(text, buf, docs, offset).value| == 4 && Tiles(buf, OptStack(text, buf, docs, offset).value, offset + 68, offset + 80)
  {
    NumberRow(text, buf, offset + 68, 2, "Subsystem", docs.subsystem);
    NumberRow(text, buf, offset + 70, 2, "DllCharacteristics", docs.dllCharacteristics);
    NumberRow(text, buf, offset + 72, 4, "SizeOfStackReserve", docs.stackReserve);
    NumberRow(text, buf, offset + 76, 4, "SizeOfStackCommit", docs.stackCommit);
    if OptStack(text, buf, docs, offset).Ok? {
      var r := OptStack(text, buf, docs, offset).value;
      Tiles4(buf, r[0], r[1], r[2], r[3], offset + 68, offset + 70, offset + 72, offset + 76, offset + 80);
    }
  }

  /** OptHeap reads exactly when its bytes lie in the buffer, and then its rows tile them. */
  lemma OptHeapRows(text: TextDecoder, buf: seq<byte>, docs: PeDocs, offset: int)
    requires offset >= 0
    ensures OptHeap(text, buf, docs, offset).Ok? <==> offset + 96 <= |buf|
    ensures OptHeap(text, buf, docs, offset).Ok? ==> |OptHeap(text, buf, docs, offset).value| == 4 && Tiles(buf, OptHeap(text, buf, docs, offset).value, offset + 80, offset + 96)
  {
    NumberRow(text, buf, offset + 80, 4, "SizeOfHeapReserve", docs.heapReserve);
    NumberRow(text, buf, offset + 84, 4, "SizeOfHeapCommit", docs.heapCommit);
    NumberRow(text, buf, offset + 88, 4, "LoaderFlags", docs.reserved);
    NumberRow(text, buf, offset + 92, 4, "NumberOfRvaAndSizes", docs.rva);
    if OptHeap(text, buf, docs, offset).Ok? {
      var r := OptHeap(text, buf, docs, offset).value;
      Tiles4(buf, r[0], r[1], r[2], r[3], offset + 80, offset + 84, offset + 88, offset + 92, offset + 96);
    }
  }

  /** OptFront reads exactly when its 28 bytes lie in the buffer, and then its rows tile them. */
  lemma OptFrontRows(text: TextDecoder, buf: seq<byte>, offset: int)
    requires offset >= 0
    ensures OptFront(text, buf, offset).Ok? <==> offset + 28 <= |buf|
    ensures OptFront(text, buf, offset).Ok? ==> |OptFront(text, buf, offset).value| == 9 && Tiles(buf, OptFront(text, buf, offset).value, offset, offset + 28)
  {
    OptLinkerRows(text, buf, offset);
    OptDataRows(text, buf, offset);
    OptBasesRows(text, buf, offset);
    if OptFront(text, buf, offset).Ok? {
      var a, b, c := OptLinker(text, buf, offset).value, OptData(text, buf, offset).value, OptBases(text, buf, offset).value;
      assert OptFront(text, buf, offset).value == a + b + c;
      TilesJoin3(buf, a, b, c, offset, offset + 8, offset + 20, offset + 28);
    }
  }

  /** OptMiddle reads exactly when bytes up to offset + 52 lie in the buffer, and then its rows tile them. */
  lemma OptMiddleRows(text: TextDecoder, buf: seq<byte>, docs: PeDocs, offset: int)
    requires offset >= 0
    ensures OptMiddle(text, buf, docs, offset).Ok? <==> offset + 52 <= |buf|
    ensures OptMiddle(text, buf, docs, offset).Ok? ==> |OptMiddle(text, buf, docs, offset).value| == 9 && Tiles(buf, OptMiddle(text, buf, docs, offset).value, offset + 28, offset + 52)
  {
    OptAlignmentRows(text, buf, docs, offset);
    OptSystemVersionsRows(text, buf, docs, offset);
    OptImageVersionsRows(text, buf, docs, offset);
    if OptMiddle(text, buf, docs, offset).Ok? {
      var a, b, c := OptAlignment(text, buf, docs, offset).value, OptSystemVersions(text, buf, docs, offset).value, OptImageVersions(text, buf, docs, offset).value;
      assert OptMiddle(text, buf, docs, offset).value == a + b + c;
      TilesJoin3(buf, a, b, c, offset + 28, offset + 40, offset + 46, offset + 52);
    }
  }

  /** OptBack reads exactly when bytes up to offset + 96 lie in the buffer, and then its rows tile them. */
  lemma OptBackRows(text: TextDecoder, buf: seq<byte>, docs: PeDocs, offset: int)
    requires offset >= 0
    ensures OptBack(text, buf, docs, offset).Ok? <==> offset + 96 <= |buf|
    ensures OptBack(text, buf, docs, offset).Ok? ==> |OptBack(text, buf, docs, offset).value| == 12 && Tiles(buf, OptBack(text, buf, docs, offset).value, offset + 52, offset + 96)
  {
    OptSizesRows(text, buf, docs, offset);
    OptStackRows(text, buf, docs, offset);
    OptHeapRows(text, buf, docs, offset);
    if OptBack(text, buf, docs, offset).Ok? {
      var a, b, c := OptSizes(text, buf, docs, offset).value, OptStack(text, buf, docs, offset).value, OptHeap(text, buf, docs, offset).value;
      assert OptBack(text, buf, docs, offset).value == a + b + c;
      TilesJoin3(buf, a, b, c, offset + 52, offset + 68, offset + 80, offset + 96);
    }
  }

  /** `parseCOFF` succeeds exactly when the 20 bytes from `offset` lie in the buffer; the
      region spans them and its seven rows of widths 2, 2, 4, 4, 4, 2, 2 tile them. */
  lemma CoffLayout(text: TextDecoder, buf: seq<byte>, offset: int)
    requires offset >= 0
    ensures Coff(text, buf, offset).Ok? <==> offset + 20 <= |buf|
    ensures Coff(text, buf, offset).Ok? ==>
            var c := Coff(text, buf, offset).value;
            && c.id == "COFF" && c.kind == Compound && c.startPos == offset && c.endPos == offset + 20
            && |c.Kids()| == 7 && Tiles(buf, c.Kids(), offset, offset + 20)
  {
    CoffFrontRows(text, buf, offset);
    CoffBackRows(text, buf, offset);
    if Coff(text, buf, offset).Ok? {
      var front, back := CoffFront(text, buf, offset).value, CoffBack(text, buf, offset).value;
      CoffIs(text, buf, offset, front, back);
      TilesJoin(buf, front, back, offset, offset + 8, offset + 20);
    }
  }

  /** The thirty rows read exactly when their 96 bytes lie in the buffer, and then tile them
      from Magic to NumberOfRvaAndSizes. */
  lemma OptRowsLayout(text: TextDecoder, buf: seq<byte>, docs: PeDocs, offset: int)
    requires offset >= 0
    ensures OptRows(text, buf, docs, offset).Ok? <==> offset + 96 <= |buf|
    ensures OptRows(text, buf, docs, offset).Ok? ==>
            |OptRows(text, buf, docs, offset).value| == 30 && Tiles(buf, OptRows(text, buf, docs, offset).value, offset, offset + 96)
  {
    OptFrontRows(text, buf, offset);
    OptMiddleRows(text, buf, docs, offset);
    OptBackRows(text, buf, docs, offset);
    if OptRows(text, buf, docs, offset).Ok? {
      var a, b, c := OptFront(text, buf, offset).value, OptMiddle(text, buf, docs, offset).value,
                     OptBack(text, buf, docs, offset).value;
      assert OptRows(text, buf, docs, offset).value == a + b + c;
      TilesJoin3(buf, a, b, c, offset, offset + 28, offset + 52, offset + 96);
    }
  }

  /** `parseOptionalHeader` succeeds exactly when the 96 bytes of its rows lie in the buffer;
      the region spans the `length` bytes it is given, whatever the 96 its rows cover. */
  lemma OptionalHeaderLayout(text: TextDecoder, buf: seq<byte>, docs: PeDocs, offset: int, length: int)
    requires offset >= 0
    ensures OptionalHeader(text, buf, docs, offset, length).Ok? <==> offset + 96 <= |buf|
    ensures OptionalHeader(text, buf, docs, offset, length).Ok? ==>
            var o := OptionalHeader(text, buf, docs, offset, length).value;
            && o.id == "OptionalHeader" && o.kind == Compound && o.startPos == offset && o.endPos == offset + length
            && |o.Kids()| == 30 && Tiles(buf, o.Kids(), offset, offset + 96)
  {
    OptRowsLayout(text, buf, docs, offset);
    if OptRows(text, buf, docs, offset).Ok? {
      OptionalHeaderIs(text, buf, docs, offset, length, OptRows(text, buf, docs, offset).value);
    }
  }

  /** The headers succeed exactly when the COFF header fits and, if SizeOfOptionalHeader is
      not zero, so do the 96 bytes of the optional header right after it. The COFF region
      comes first, and the optional header follows it exactly when SizeOfOptionalHeader is
      positive, starting at `coffOffset + 20` and spanning SizeOfOptionalHeader bytes. */
  lemma HeadersLayout(text: TextDecoder, buf: seq<byte>, docs: PeDocs, coffOffset: int)
    requires coffOffset >= 0
    ensures Headers(text, buf, docs, coffOffset).Ok?
        <==> coffOffset + 20 <= |buf| && (Raw(buf, coffOffset + 16, 2) == Ok(0) || coffOffset + 116 <= |buf|)
    ensures Headers(text, buf, docs, coffOffset).Ok? ==>
            var rs := Headers(text, buf, docs, coffOffset).value;
            && Raw(buf, coffOffset + 16, 2).Ok?
            && var size := Raw(buf, coffOffset + 16, 2).value;
            && 1 <= |rs| <= 2 && rs[0] == Coff(text, buf, coffOffset).value
            && (|rs| == 2 <==> size > 0)
            && (size > 0 ==> rs[1] == OptionalHeader(text, buf, docs, coffOffset + 20, size).value
                             && rs[1].startPos == coffOffset + 20 && rs[1].endPos == coffOffset + 20 + size)
  {
    CoffLayout(text, buf, coffOffset);
    RawUnsigned(buf, coffOffset + 16, 2);
    if Raw(buf, coffOffset + 16, 2).Ok? {
      OptionalHeaderLayout(text, buf, docs, coffOffset + 20, Raw(buf, coffOffset + 16, 2).value);
    }
  }

  /** The DOS part succeeds exactly when the pointer at 0x3C lies in the buffer and the four
      bytes it points at read `50 45 00 00`. The stub spans `[0, PeHeaderOffset)` and holds
      the pointer row, the little-endian number at `[0x3C, 0x40)`; the signature row spans the
      four bytes at PeHeaderOffset. */
  lemma DosLayout(text: TextDecoder, buf: seq<byte>)
    ensures DosPart(text, buf).Ok?
        <==> 0x40 <= |buf| && CheckContentSpec(buf, Raw(buf, 0x3C, 4).value, PeSignature) == Ok(true)
    ensures DosPart(text, buf).Ok? ==>
            var rs := DosPart(text, buf).value;
            && Raw(buf, 0x3C, 4).Ok?
            && var h := Raw(buf, 0x3C, 4).value;
            && |rs| == 2
            && rs[0].id == "DosStub" && rs[0].startPos == 0 && rs[0].endPos == h && |rs[0].Kids()| == 1
            && rs[0].Kids()[0].id == "PeHeaderOffset" && NumberRowAt(buf, rs[0].Kids()[0], 0x3C, 0x40)
            && rs[1].id == "PeSignature" && rs[1].kind == General && rs[1].startPos == h && rs[1].endPos == h + 4
  {
    NumberRow(text, buf, 0x3C, 4, "PeHeaderOffset", "Pointer to PE header");
    RawUnsigned(buf, 0x3C, 4);
    if Raw(buf, 0x3C, 4).Ok? {
      var h := Raw(buf, 0x3C, 4).value;
      FieldAtFacts(text, buf, LE, h, Field(General, 4, "PeSignature", "PE signature", Expect(PeSignature)));
    }
  }

  // The decoder, call by call

  /** A numeric row read at the cursor, `createRegion('N', -1, width, id, description)`: the
      row the specification reads there, the cursor past it and the value in the memo. */
  method NextNumber(p: ParseHelper, width: int, id: string, description: string, ghost text: TextDecoder, ghost buf: seq<byte>)
    returns (r: Result<Region>)
    requires p.text == text && p.buffer == buf && p.endian == LE && width >= 0
    modifies p
    ensures r == FieldAt(text, buf, LE, old(p.position), N(width, id, description))
    ensures r.Ok? ==> p.position == old(p.position) + width && id in p.num && Ok(p.num[id]) == Raw(buf, old(p.position), width)
    ensures Retained(old(p.num), p.num, id)
    ensures p.endian == LE
  {
    r := p.CreateRegion(Number, -1, width, id, description, NoCallback);
  }

  /** The DOS stub, built empty at 0 and then given the pointer row and its end, and the
      signature row at the pointer; the cursor ends right after the signature. */
  method ParseDos(p: ParseHelper, ghost text: TextDecoder, ghost buf: seq<byte>) returns (r: Result<seq<Region>>)
    requires p.text == text && p.buffer == buf && p.endian == LE
    modifies p
    ensures r == DosPart(text, buf)
    ensures r.Ok? ==> Raw(buf, 0x3C, 4).Ok? && p.position == Raw(buf, 0x3C, 4).value + 4
    ensures p.endian == LE
  {
    var dosStub := p.CreateCompound(0, 0, "DosStub", "");
    var pointer := NumberAt(p, 0x3C, 4, "PeHeaderOffset", "Pointer to PE header", text, buf);
    if pointer.Err? {
      return Err(pointer.error);
    }
    RawUnsigned(buf, 0x3C, 4);
    dosStub := dosStub.(children := Sub([pointer.value]));
    dosStub := dosStub.(endPos := p.num["PeHeaderOffset"]);
    var signature := p.CreateRegion(General, p.num["PeHeaderOffset"], 4, "PeSignature", "PE signature", Expect(PeSignature));
    if signature.Err? {
      return Err(signature.error);
    }
    return Ok([dosStub, signature.value]);
  }

  /** Machine, NumberOfSections and TimeDateStamp. */
  method ParseCoffFront(p: ParseHelper, offset: int, ghost text: TextDecoder, ghost buf: seq<byte>)
    returns (r: Result<seq<Region>>)
    requires p.text == text && p.buffer == buf && p.endian == LE && offset >= 0
    modifies p
    ensures r == CoffFront(text, buf, offset)
    ensures r.Ok? ==> p.position == offset + 8
    ensures p.endian == LE
  {
    var machine := NumberAt(p, offset, 2, "Machine", "", text, buf);
    if machine.Err? {
      return Err(machine.error);
    }
    assert machine.value == FieldAt(text, buf, LE, offset, N(2, "Machine")).value;
    var sections := NextNumber(p, 2, "NumberOfSections", "", text, buf);
    if sections.Err? {
      return Err(sections.error);
    }
    assert sections.value == FieldAt(text, buf, LE, offset + 2, N(2, "NumberOfSections")).value;
    var stamp := NextNumber(p, 4, "TimeDateStamp", "", text, buf);
    if stamp.Err? {
      return Err(stamp.error);
    }
    assert stamp.value == FieldAt(text, buf, LE, offset + 4, N(4, "TimeDateStamp")).value;
    return Ok([machine.value, sections.value, stamp.value]);
  }

  /** PointerToSymbolTable to Characteristics; SizeOfOptionalHeader lands in the memo. */
  method ParseCoffBack(p: ParseHelper, offset: int, ghost text: TextDecoder, ghost buf: seq<byte>)
    returns (r: Result<seq<Region>>)
    requires p.text == text && p.buffer == buf && p.endian == LE && offset >= 0 && p.position == offset + 8
    modifies p
    ensures r == CoffBack(text, buf, offset)
    ensures r.Ok? ==> p.position == offset + 20
                      && "SizeOfOptionalHeader" in p.num && Ok(p.num["SizeOfOptionalHeader"]) == Raw(buf, offset + 16, 2)
    ensures p.endian == LE
  {
    var symbolTable := NextNumber(p, 4, "PointerToSymbolTable", "", text, buf);
    if symbolTable.Err? {
      return Err(symbolTable.error);
    }
    assert symbolTable.value == FieldAt(text, buf, LE, offset + 8, N(4, "PointerToSymbolTable")).value;
    var symbols := NextNumber(p, 4, "NumberOfSymbols", "", text, buf);
    if symbols.Err? {
      return Err(symbols.error);
    }
    assert symbols.value == FieldAt(text, buf, LE, offset + 12, N(4, "NumberOfSymbols")).value;
    var optionalSize := NextNumber(p, 2, "SizeOfOptionalHeader", "", text, buf);
    if optionalSize.Err? {
      return Err(optionalSize.error);
    }
    assert optionalSize.value == FieldAt(text, buf, LE, offset + 16, N(2, "SizeOfOptionalHeader")).value;
    var characteristics := NextNumber(p, 2, "Characteristics", "", text, buf);
    if characteristics.Err? {
      return Err(characteristics.error);
    }
    assert characteristics.value == FieldAt(text, buf, LE, offset + 18, N(2, "Characteristics")).value;
    return Ok([symbolTable.value, symbols.value, optionalSize.value, characteristics.value]);
  }

  /** Magic to SizeOfCode. */
  method ParseOptLinker(p: ParseHelper, offset: int, ghost text: TextDecoder, ghost buf: seq<byte>)
    returns (r: Result<seq<Region>>)
    requires p.text == text && p.buffer == buf && p.endian == LE && offset >= 0
    modifies p
    ensures r == OptLinker(text, buf, offset)
    ensures r.Ok? ==> p.position == offset + 8
    ensures p.endian == LE
  {
    var magic := NumberAt(p, offset, 2, "Magic", "", text, buf);
    if magic.Err? {
      return Err(magic.error);
    }
    assert magic.value == FieldAt(text, buf, LE, offset, N(2, "Magic")).value;
    var major := NextNumber(p, 1, "MajorLinkerVersion", "", text, buf);
    if major.Err? {
      return Err(major.error);
    }
    assert major.value == FieldAt(text, buf, LE, offset + 2, N(1, "MajorLinkerVersion")).value;
    var minor := NextNumber(p, 1, "MinorLinkerVersion", "", text, buf);
    if minor.Err? {
      return Err(minor.error);
    }
    assert minor.value == FieldAt(text, buf, LE, offset + 3, N(1, "MinorLinkerVersion")).value;
    var code := NextNumber(p, 4, "SizeOfCode", "", text, buf);
    if code.Err? {
      return Err(code.error);
    }
    assert code.value == FieldAt(text, buf, LE, offset + 4, N(4, "SizeOfCode")).value;
    return Ok([magic.value, major.value, minor.value, code.value]);
  }

  /** SizeOfInitializedData to AddressOfEntryPoint. */
  method ParseOptData(p: ParseHelper, offset: int, ghost text: TextDecoder, ghost buf: seq<byte>)
    returns (r: Result<seq<Region>>)
    requires p.text == text && p.buffer == buf && p.endian == LE && offset >= 0 && p.position == offset + 8
    modifies p
    ensures r == OptData(text, buf, offset)
    ensures r.Ok? ==> p.position == offset + 20
    ensures p.endian == LE
  {
    var initialized := NextNumber(p, 4, "SizeOfInitializedData", "", text, buf);
    if initialized.Err? {
      return Err(initialized.error);
    }
    assert initialized.value == FieldAt(text, buf, LE, offset + 8, N(4, "SizeOfInitializedData")).value;
    var uninitialized := NextNumber(p, 4, "SizeOfUninitializedData", "", text, buf);
    if uninitialized.Err? {
      return Err(uninitialized.error);
    }
    assert uninitialized.value == FieldAt(text, buf, LE, offset + 12, N(4, "SizeOfUninitializedData")).value;
    var entry := NextNumber(p, 4, "AddressOfEntryPoint", "", text, buf);
    if entry.Err? {
      return Err(entry.error);
    }
    assert entry.value == FieldAt(text, buf, LE, offset + 16, N(4, "AddressOfEntryPoint")).value;
    return Ok([initialized.value, uninitialized.value, entry.value]);
  }

  /** BaseOfCode and BaseOfData. */
  method ParseOptBases(p: ParseHelper, offset: int, ghost text: TextDecoder, ghost buf: seq<byte>)
    returns (r: Result<seq<Region>>)
    requires p.text == text && p.buffer == buf && p.endian == LE && offset >= 0 && p.position == offset + 20
    modifies p
    ensures r == OptBases(text, buf, offset)
    ensures r.Ok? ==> p.position == offset + 28
    ensures p.endian == LE
  {
    var codeBase := NextNumber(p, 4, "BaseOfCode", "", text, buf);
    if codeBase.Err? {
      return Err(codeBase.error);
    }
    assert codeBase.value == FieldAt(text, buf, LE, offset + 20, N(4, "BaseOfCode")).value;
    var dataBase := NextNumber(p, 4, "BaseOfData", "", text, buf);
    if dataBase.Err? {
      return Err(dataBase.error);
    }
    assert dataBase.value == FieldAt(text, buf, LE, offset + 24, N(4, "BaseOfData")).value;
    return Ok([codeBase.value, dataBase.value]);
  }

  /** ImageBase, SectionAlignment and FileAlignment. */
  method ParseOptAlignment(p: ParseHelper, offset: int, docs: PeDocs, ghost text: TextDecoder, ghost buf: seq<byte>)
    returns (r: Result<seq<Region>>)
    requires p.text == text && p.buffer == buf && p.endian == LE && offset >= 0 && p.position == offset + 28
    modifies p
    ensures r == OptAlignment(text, buf, docs, offset)
    ensures r.Ok? ==> p.position == offset + 40
    ensures p.endian == LE
  {
    var imageBase := NextNumber(p, 4, "ImageBase", docs.imageBase, text, buf);
    if imageBase.Err? {
      return Err(imageBase.error);
    }
    assert imageBase.value == FieldAt(text, buf, LE, offset + 28, N(4, "ImageBase", docs.imageBase)).value;
    var section := NextNumber(p, 4, "SectionAlignment", docs.sectionAlignment, text, buf);
    if section.Err? {
      return Err(section.error);
    }
    assert section.value == FieldAt(text, buf, LE, offset + 32, N(4, "SectionAlignment", docs.sectionAlignment)).value;
    var file := NextNumber(p, 4, "FileAlignment", docs.fileAlignment, text, buf);
    if file.Err? {
      return Err(file.error);
    }
    assert file.value == FieldAt(text, buf, LE, offset + 36, N(4, "FileAlignment", docs.fileAlignment)).value;
    return Ok([imageBase.value, section.value, file.value]);
  }

  /** The operating system versions and MajorImageVersion. */
  method ParseOptSystemVersions(p: ParseHelper, offset: int, docs: PeDocs, ghost text: TextDecoder, ghost buf: seq<byte>)
    returns (r: Result<seq<Region>>)
    requires p.text == text && p.buffer == buf && p.endian == LE && offset >= 0 && p.position == offset + 40
    modifies p
    ensures r == OptSystemVersions(text, buf, docs, offset)
    ensures r.Ok? ==> p.position == offset + 46
    ensures p.endian == LE
  {
    var majorSystem := NextNumber(p, 2, "MajorOperatingSystemVersion", docs.majorSystem, text, buf);
    if majorSystem.Err? {
      return Err(majorSystem.error);
    }
    assert majorSystem.value == FieldAt(text, buf, LE, offset + 40, N(2, "MajorOperatingSystemVersion", docs.majorSystem)).value;
    var minorSystem := NextNumber(p, 2, "MinorOperatingSystemVersion", docs.minorSystem, text, buf);
    if minorSystem.Err? {
      return Err(minorSystem.error);
    }
    assert minorSystem.value == FieldAt(text, buf, LE, offset + 42, N(2, "MinorOperatingSystemVersion", docs.minorSystem)).value;
    var majorImage := NextNumber(p, 2, "MajorImageVersion", docs.majorImage, text, buf);
    if majorImage.Err? {
      return Err(majorImage.error);
    }
    assert majorImage.value == FieldAt(text, buf, LE, offset + 44, N(2, "MajorImageVersion", docs.majorImage)).value;
    return Ok([majorSystem.value, minorSystem.value, majorImage.value]);
  }

  /** MinorImageVersion and the subsystem versions. */
  method ParseOptImageVersions(p: ParseHelper, offset: int, docs: PeDocs, ghost text: TextDecoder, ghost buf: seq<byte>)
    returns (r: Result<seq<Region>>)
    requires p.text == text && p.buffer == buf && p.endian == LE && offset >= 0 && p.position == offset + 46
    modifies p
    ensures r == OptImageVersions(text, buf, docs, offset)
    ensures r.Ok? ==> p.position == offset + 52
    ensures p.endian == LE
  {
    var minorImage := NextNumber(p, 2, "MinorImageVersion", docs.minorImage, text, buf);
    if minorImage.Err? {
      return Err(minorImage.error);
    }
    assert minorImage.value == FieldAt(text, buf, LE, offset + 46, N(2, "MinorImageVersion", docs.minorImage)).value;
    var majorSubsystem := NextNumber(p, 2, "MajorSubsystemVersion", docs.majorSubsystem, text, buf);
    if majorSubsystem.Err? {
      return Err(majorSubsystem.error);
    }
    assert majorSubsystem.value == FieldAt(text, buf, LE, offset + 48, N(2, "MajorSubsystemVersion", docs.majorSubsystem)).value;
    var minorSubsystem := NextNumber(p, 2, "MinorSubsystemVersion", docs.minorSubsystem, text, buf);
    if minorSubsystem.Err? {
      return Err(minorSubsystem.error);
    }
    assert minorSubsystem.value == FieldAt(text, buf, LE, offset + 50, N(2, "MinorSubsystemVersion", docs.minorSubsystem)).value;
    return Ok([minorImage.value, majorSubsystem.value, minorSubsystem.value]);
  }

  /** Win32VersionValue to CheckSum. */
  method ParseOptSizes(p: ParseHelper, offset: int, docs: PeDocs, ghost text: TextDecoder, ghost buf: seq<byte>)
    returns (r: Result<seq<Region>>)
    requires p.text == text && p.buffer == buf && p.endian == LE && offset >= 0 && p.position == offset + 52
    modifies p
    ensures r == OptSizes(text, buf, docs, offset)
    ensures r.Ok? ==> p.position == offset + 68
    ensures p.endian == LE
  {
    var win32 := NextNumber(p, 4, "Win32VersionValue", docs.reserved, text, buf);
    if win32.Err? {
      return Err(win32.error);
    }
    assert win32.value == FieldAt(text, buf, LE, offset + 52, N(4, "Win32VersionValue", docs.reserved)).value;
    var image := NextNumber(p, 4, "SizeOfImage", docs.sizeOfImage, text, buf);
    if image.Err? {
      return Err(image.error);
    }
    assert image.value == FieldAt(text, buf, LE, offset + 56, N(4, "SizeOfImage", docs.sizeOfImage)).value;
    var headers := NextNumber(p, 4, "SizeOfHeaders", docs.sizeOfHeaders, text, buf);
    if headers.Err? {
      return Err(headers.error);
    }
    assert headers.value == FieldAt(text, buf, LE, offset + 60, N(4, "SizeOfHeaders", docs.sizeOfHeaders)).value;
    var checksum := NextNumber(p, 4, "CheckSum", docs.checkSum, text, buf);
    if checksum.Err? {
      return Err(checksum.error);
    }
    assert checksum.value == FieldAt(text, buf, LE, offset + 64, N(4, "CheckSum", docs.checkSum)).value;
    return Ok([win32.value, image.value, headers.value, checksum.value]);
  }

  /** Subsystem to SizeOfStackCommit. */
  method ParseOptStack(p: ParseHelper, offset: int, docs: PeDocs, ghost text: TextDecoder, ghost buf: seq<byte>)
    returns (r: Result<seq<Region>>)
    requires p.text == text && p.buffer == buf && p.endian == LE && offset >= 0 && p.position == offset + 68
    modifies p
    ensures r == OptStack(text, buf, docs, offset)
    ensures r.Ok? ==> p.position == offset + 80
    ensures p.endian == LE
  {
    var subsystem := NextNumber(p, 2, "Subsystem", docs.subsystem, text, buf);
    if subsystem.Err? {
      return Err(subsystem.error);
    }
    assert subsystem.value == FieldAt(text, buf, LE, offset + 68, N(2, "Subsystem", docs.subsystem)).value;
    var dll := NextNumber(p, 2, "DllCharacteristics", docs.dllCharacteristics, text, buf);
    if dll.Err? {
      return Err(dll.error);
    }
    assert dll.value == FieldAt(text, buf, LE, offset + 70, N(2, "DllCharacteristics", docs.dllCharacteristics)).value;
    var stackReserve := NextNumber(p, 4, "SizeOfStackReserve", docs.stackReserve, text, buf);
    if stackReserve.Err? {
      return Err(stackReserve.error);
    }
    assert stackReserve.value == FieldAt(text, buf, LE, offset + 72, N(4, "SizeOfStackReserve", docs.stackReserve)).value;
    var stackCommit := NextNumber(p, 4, "SizeOfStackCommit", docs.stackCommit, text, buf);
    if stackCommit.Err? {
      return Err(stackCommit.error);
    }
    assert stackCommit.value == FieldAt(text, buf, LE, offset + 76, N(4, "SizeOfStackCommit", docs.stackCommit)).value;
    return Ok([subsystem.value, dll.value, stackReserve.value, stackCommit.value]);
  }

  /** SizeOfHeapReserve to NumberOfRvaAndSizes. */
  method ParseOptHeap(p: ParseHelper, offset: int, docs: PeDocs, ghost text: TextDecoder, ghost buf: seq<byte>)
    returns (r: Result<seq<Region>>)
    requires p.text == text && p.buffer == buf && p.endian == LE && offset >= 0 && p.position == offset + 80
    modifies p
    ensures r == OptHeap(text, buf, docs, offset)
    ensures r.Ok? ==> p.position == offset + 96
    ensures p.endian == LE
  {
    var heapReserve := NextNumber(p, 4, "SizeOfHeapReserve", docs.heapReserve, text, buf);
    if heapReserve.Err? {
      return Err(heapReserve.error);
    }
    assert heapReserve.value == FieldAt(text, buf, LE, offset + 80, N(4, "SizeOfHeapReserve", docs.heapReserve)).value;
    var heapCommit := NextNumber(p, 4, "SizeOfHeapCommit", docs.heapCommit, text, buf);
    if heapCommit.Err? {
      return Err(heapCommit.error);
    }
    assert heapCommit.value == FieldAt(text, buf, LE, offset + 84, N(4, "SizeOfHeapCommit", docs.heapCommit)).value;
    var loader := NextNumber(p, 4, "LoaderFlags", docs.reserved, text, buf);
    if loader.Err? {
      return Err(loader.error);
    }
    assert loader.value == FieldAt(text, buf, LE, offset + 88, N(4, "LoaderFlags", docs.reserved)).value;
    var rva := NextNumber(p, 4, "NumberOfRvaAndSizes", docs.rva, text, buf);
    if rva.Err? {
      return Err(rva.error);
    }
    assert rva.value == FieldAt(text, buf, LE, offset + 92, N(4, "NumberOfRvaAndSizes", docs.rva)).value;
    return Ok([heapReserve.value, heapCommit.value, loader.value, rva.value]);
  }

  /** The first nine rows of the optional header. */
  method ParseOptFront(p: ParseHelper, offset: int, ghost text: TextDecoder, ghost buf: seq<byte>)
    returns (r: Result<seq<Region>>)
    requires p.text == text && p.buffer == buf && p.endian == LE && offset >= 0
    modifies p
    ensures r == OptFront(text, buf, offset)
    ensures r.Ok? ==> p.position == offset + 28
    ensures p.endian == LE
  {
    var a := ParseOptLinker(p, offset, text, buf);
    if a.Err? {
      return Err(a.error);
    }
    var b := ParseOptData(p, offset, text, buf);
    if b.Err? {
      return Err(b.error);
    }
    var c := ParseOptBases(p, offset, text, buf);
    if c.Err? {
      return Err(c.error);
    }
    return Ok(a.value + b.value + c.value);
  }

  /** The middle nine rows of the optional header. */
  method ParseOptMiddle(p: ParseHelper, offset: int, docs: PeDocs, ghost text: TextDecoder, ghost buf: seq<byte>)
    returns (r: Result<seq<Region>>)
    requires p.text == text && p.buffer == buf && p.endian == LE && offset >= 0 && p.position == offset + 28
    modifies p
    ensures r == OptMiddle(text, buf, docs, offset)
    ensures r.Ok? ==> p.position == offset + 52
    ensures p.endian == LE
  {
    var a := ParseOptAlignment(p, offset, docs, text, buf);
    if a.Err? {
      return Err(a.error);
    }
    var b := ParseOptSystemVersions(p, offset, docs, text, buf);
    if b.Err? {
      return Err(b.error);
    }
    var c := ParseOptImageVersions(p, offset, docs, text, buf);
    if c.Err? {
      return Err(c.error);
    }
    return Ok(a.value + b.value + c.value);
  }

  /** The last twelve rows of the optional header. */
  method ParseOptBack(p: ParseHelper, offset: int, docs: PeDocs, ghost text: TextDecoder, ghost buf: seq<byte>)
    returns (r: Result<seq<Region>>)
    requires p.text == text && p.buffer == buf && p.endian == LE && offset >= 0 && p.position == offset + 52
    modifies p
    ensures r == OptBack(text, buf, docs, offset)
    ensures r.Ok? ==> p.position == offset + 96
    ensures p.endian == LE
  {
    var a := ParseOptSizes(p, offset, docs, text, buf);
    if a.Err? {
      return Err(a.error);
    }
    var b := ParseOptStack(p, offset, docs, text, buf);
    if b.Err? {
      return Err(b.error);
    }
    var c := ParseOptHeap(p, offset, docs, text, buf);
    if c.Err? {
      return Err(c.error);
    }
    return Ok(a.value + b.value + c.value);
  }

  /** `parseCOFF(p, offset)`: the compound, then its seven rows; the cursor ends at
      `offset + 20` and SizeOfOptionalHeader is in the memo. */
  method ParseCoff(p: ParseHelper, offset: int, ghost text: TextDecoder, ghost buf: seq<byte>)
    returns (r: Result<Region>)
    requires p.text == text && p.buffer == buf && p.endian == LE && offset >= 0
    modifies p
    ensures r == Coff(text, buf, offset)
    ensures r.Ok? ==> p.position == offset + 20
                      && "SizeOfOptionalHeader" in p.num && Ok(p.num["SizeOfOptionalHeader"]) == Raw(buf, offset + 16, 2)
    ensures p.endian == LE
  {
    var coff := p.CreateCompound(offset, 20, "COFF", "");
    var front := ParseCoffFront(p, offset, text, buf);
    if front.Err? {
      return Err(front.error);
    }
    var back := ParseCoffBack(p, offset, text, buf);
    if back.Err? {
      return Err(back.error);
    }
    CoffIs(text, buf, offset, front.value, back.value);
    coff := coff.(children := Sub(front.value + back.value));
    assert coff == Region("COFF", Compound, "", offset, offset + 20, Some(LE), None, None, None, Sub(front.value + back.value));
    return Ok(coff);
  }

  /** The thirty rows, chunk after chunk. */
  method ParseOptRows(p: ParseHelper, offset: int, docs: PeDocs, ghost text: TextDecoder, ghost buf: seq<byte>)
    returns (r: Result<seq<Region>>)
    requires p.text == text && p.buffer == buf && p.endian == LE && offset >= 0
    modifies p
    ensures r == OptRows(text, buf, docs, offset)
    ensures p.endian == LE
  {
    var front := ParseOptFront(p, offset, text, buf);
    if front.Err? {
      return Err(front.error);
    }
    var middle := ParseOptMiddle(p, offset, docs, text, buf);
    if middle.Err? {
      return Err(middle.error);
    }
    var back := ParseOptBack(p, offset, docs, text, buf);
    if back.Err? {
      return Err(back.error);
    }
    return Ok(front.value + middle.value + back.value);
  }

  /** `parseOptionalHeader(p, offset, length)`: the compound over `length` bytes, then its
      thirty rows from `offset`. */
  method ParseOptionalHeader(p: ParseHelper, offset: int, length: int, docs: PeDocs, ghost text: TextDecoder, ghost buf: seq<byte>)
    returns (r: Result<Region>)
    requires p.text == text && p.buffer == buf && p.endian == LE && offset >= 0 && length > 0
    modifies p
    ensures r == OptionalHeader(text, buf, docs, offset, length)
    ensures p.endian == LE
  {
    var header := p.CreateCompound(offset, length, "OptionalHeader", "");
    var rows := ParseOptRows(p, offset, docs, text, buf);
    if rows.Err? {
      return Err(rows.error);
    }
    OptionalHeaderIs(text, buf, docs, offset, length, rows.value);
    header := header.(children := Sub(rows.value));
    assert header == Region("OptionalHeader", Compound, "", offset, offset + length, Some(LE), None, None, None, Sub(rows.value));
    return Ok(header);
  }

  /** The COFF header, then the optional header when the memo's SizeOfOptionalHeader is
      positive, at the position the COFF header leaves. */
  method ParseHeaders(p: ParseHelper, coffOffset: int, docs: PeDocs, ghost text: TextDecoder, ghost buf: seq<byte>)
    returns (r: Result<seq<Region>>)
    requires p.text == text && p.buffer == buf && p.endian == LE && coffOffset >= 0
    modifies p
    ensures r == Headers(text, buf, docs, coffOffset)
  {
    var coff := ParseCoff(p, coffOffset, text, buf);
    if coff.Err? {
      return Err(coff.error);
    }
    if p.num["SizeOfOptionalHeader"] > 0 {
      var optional := ParseOptionalHeader(p, p.position, p.num["SizeOfOptionalHeader"], docs, text, buf);
      if optional.Err? {
        return Err(optional.error);
      }
      return Ok([coff.value, optional.value]);
    }
    return Ok([coff.value]);
  }

  /** `parse(buffer)` with the row descriptions `docs`. */
  method ParseDocumented(text: TextDecoder, buffer: seq<byte>, docs: PeDocs) returns (r: Result<seq<Region>>)
    ensures r == PeRegions(text, buffer, docs)
  {
    var p := new ParseHelper(text, buffer);
    p.SetEndian(LE);
    var result: seq<Region> := [];
    var coffOffset := 0;
    var mz := CheckContent(buffer, 0, MzSignature);
    if mz.Err? {
      return Err(mz.error);
    }
    if mz.value {
      var dos := ParseDos(p, text, buffer);
      if dos.Err? {
        return Err(dos.error);
      }
      result := dos.value;
      coffOffset := p.position;
    }
    ghost var h := if mz.value then Raw(buffer, 0x3C, 4).value else -4;
    assert coffOffset == h + 4;
    var headers := ParseHeaders(p, coffOffset, docs, text, buffer);
    if headers.Err? {
      return Err(headers.error);
    }
    if mz.value {
      PeRegionsWithMz(text, buffer, docs, result, headers.value);
    } else {
      assert result + headers.value == headers.value;
    }
    return Ok(result + headers.value);
  }

  /** `parse(buffer)`. */
  method Parse(text: TextDecoder, buffer: seq<byte>) returns (r: Result<seq<Region>>)
    ensures r == PeRegions(text, buffer, Documentation)
  {
    r := ParseDocumented(text, buffer, Documentation);
  }
}
