/** The MP3 decoder of src/parser/mp3.ts over the `ParseHelper` cursor in big-endian order. A
    file that starts with "ID3" holds an ID3v2 tag: a ten-byte header whose last four bytes
    give the tag size in seven-bit groups, then frames of a ten-byte header (ID, Size, Flags)
    and Size bytes of content, until the tag ends or a frame of size 0 appears. Text frames
    get their encoding byte and their text decoded; any other frame one Content region. */
module Mp3 {
  import opened Wrappers
  import opened CommonUtil
  import opened Dom
  import opened CommonParser
  import ParserUtil

  const Id3Signature: seq<byte> := [0x49, 0x44, 0x33]
  const Id3Reference := "https://id3.org/id3v2.3.0"
  const Utf16LeBom: seq<byte> := [0xFF, 0xFE]

  /** `isSupportedFile`: by extension only. */
  predicate IsSupportedFile(ext: string)
  {
    ext == "mp3"
  }

  // The tag header

  /** The tag size as read: four groups of seven bits, most significant first. The bytes are
      not masked, so a byte of 128 or more spills into the group above it. */
  function Syncsafe(z0: int, z1: int, z2: int, z3: int): int
  {
    ((z0 * 128 + z1) * 128 + z2) * 128 + z3
  }

  /** The four seven-bit groups of a size below 2^28, most significant first. */
  function SyncsafeBytes(n: nat): seq<byte>
    requires n < 0x1000_0000
  {
    [n / 0x20_0000, n / 0x4000 % 128, n / 128 % 128, n % 128]
  }

  /** The bytes 6 to 9 of the buffer, each read on its own, as one tag size. */
  function TagLength(buf: seq<byte>): (r: Result<int>)
    ensures r.Ok? ==> |buf| >= 10
  {
    var z0 :- ParseValueSpec(buf, 6, 7, false, false);
    var z1 :- ParseValueSpec(buf, 7, 8, false, false);
    var z2 :- ParseValueSpec(buf, 8, 9, false, false);
    var z3 :- ParseValueSpec(buf, 9, 10, false, false);
    Ok(Syncsafe(z0, z1, z2, z3))
  }

  /** The `TagHeader` compound over [0, 10): FileID, MajorVersion, RevisionNumber, Flags and
      TagSize, whose value is then overwritten with the tag size `length`. */
  function TagHeader(text: TextDecoder, buf: seq<byte>, length: int): Region
    requires |buf| >= 10
  {
    var fileId := GeneralAt(BE, 0, 3, "FileID", "");
    var major := FieldAt(text, buf, BE, 3, N(1, "MajorVersion")).value;
    var revision := FieldAt(text, buf, BE, 4, N(1, "RevisionNumber")).value;
    var flags := FieldAt(text, buf, BE, 5, N(1, "Flags")).value;
    var tagSize := GeneralAt(BE, 6, 4, "TagSize", "").(numValue := Some(length));
    Region("TagHeader", Compound, "", 0, 10, Some(BE), None, None, None, Sub([fileId, major, revision, flags, tagSize]))
  }

  // Frames

  /** What `parseId3v2FrameContent` returns: the text for the frame's label and its regions. */
  datatype Content = Content(str: string, regions: seq<Region>)

  /** A frame ID that `startsWith('T')`. */
  predicate IsTextFrame(id: string)
  {
    |id| > 0 && id[0] == 'T'
  }

  /** The content of frame `id` at `offset`, `len` bytes long. A text frame other than TXXX
      starts with an encoding byte: 1 means UTF-16 with a byte order mark (FF FE selects
      little-endian), whose text is the `len - 3` bytes after it with trailing NULs trimmed;
      anything else labels the `len - 1` bytes after it ISO-8859-1 and decodes them as a `S`
      region does. Any other frame, TXXX included, is one Content region. */
  function FrameContent(text: TextDecoder, buf: seq<byte>, id: string, offset: int, len: int): Result<Content>
    requires 0 <= offset
  {
    if id != "TXXX" && IsTextFrame(id) then
      var encoding :- FieldAt(text, buf, BE, offset, N(1, "encoding"));
      if encoding.numValue == Some(1) then UnicodeText(text, buf, offset, len, encoding)
      else Ok(LatinText(text, buf, offset, len, encoding))
    else
      Ok(Content("", [GeneralAt(BE, offset, ResolveLength(len, offset, |buf|), "Content", "")]))
  }

  /** Encoding 1: the byte order mark at `offset + 1` and the text after it, decoded as
      UTF-16LE after FF FE and as UTF-16BE otherwise, with trailing NULs trimmed. */
  function UnicodeText(text: TextDecoder, buf: seq<byte>, offset: int, len: int, encoding: Region): Result<Content>
    requires 0 <= offset
  {
    var bom := GeneralAt(BE, offset + 1, 2, "BOM", "");
    var le :- CheckContentSpec(buf, offset + 1, Utf16LeBom);
    var s := ParseFixedLengthString(text, buf, offset + 3, len - 3, if le then "utf-16le" else "utf-16be");
    var t := WithoutTrailingNuls(s);
    var textRegion := GeneralAt(BE, offset + 3, ResolveLength(len - 3, offset + 3, |buf|), "Text", "").(strValue := Some(t));
    Ok(Content(t, [encoding.(interpreted := Some("unicode")), bom, textRegion]))
  }

  /** Any other encoding: labelled ISO-8859-1, the text after the encoding byte decoded as a
      `S` region does. */
  function LatinText(text: TextDecoder, buf: seq<byte>, offset: int, len: int, encoding: Region): Content
    requires 0 <= offset
  {
    var textRegion := StringAt(text, buf, BE, offset + 1, ResolveLength(len - 1, offset + 1, |buf|), "Text", "");
    Content(textRegion.strValue.value, [encoding.(interpreted := Some("iso-8859-1")), textRegion])
  }

  /** One turn of the frame loop: stop at a frame of size 0, or go on with the frame and its
      size. */
  datatype Step = Stop | Next(frame: Region, size: nat)

  /** The three regions of a frame header. */
  datatype FrameHead = FrameHead(id: Region, size: Region, flags: Region)

  /** The frame header at `pos`: ID (four bytes of text), Size (four bytes) and Flags (two
      bytes). */
  function FrameHeader(text: TextDecoder, buf: seq<byte>, pos: int): (r: Result<FrameHead>)
    ensures r.Ok? ==> r.value.size.numValue.Some? && r.value.size.numValue.value >= 0
  {
    var size :- FieldAt(text, buf, BE, pos + 4, Field(Size, 4, "Size", "", NoCallback));
    var flags :- FieldAt(text, buf, BE, pos + 8, N(2, "Flags"));
    Ok(FrameHead(StringAt(text, buf, BE, pos, 4, "ID", ""), size, flags))
  }

  /** The frame at `pos`: its header, then its content from `pos + 10`. The `Frame` compound
      itself stays empty at `pos`, and is labelled with the ID and the content's text. */
  function FrameAt(text: TextDecoder, buf: seq<byte>, pos: nat): (r: Result<Step>)
    ensures r.Ok? && r.value.Next? ==> r.value.size > 0 && r.value.frame.startPos == pos
  {
    var head :- FrameHeader(text, buf, pos);
    var n := head.size.numValue.value;
    if n == 0 then Ok(Stop)
    else
      var name := head.id.strValue.value;
      var content :- FrameContent(text, buf, name, pos + 10, n);
      Ok(Next(Region("Frame", Compound, "", pos, pos, Some(BE), None, None, Some(name + " " + content.str),
                     Sub([head.id, head.size, head.flags] + content.regions)), n))
  }

  /** A reader of one frame at a position. */
  type StepAt = nat -> Result<Step>

  /** The frame loop over `step`: from `pos` while it lies below `end`, up to the first stop;
      each frame moves the position by its size plus the ten header bytes. */
  function Walk(step: StepAt, pos: nat, end: int): Result<seq<Region>>
    decreases end - pos
  {
    if pos >= end then Ok([])
    else
      var s :- step(pos);
      if s.Stop? then Ok([])
      else Prepend([s.frame], Walk(step, pos + s.size + 10, end))
  }

  /** `FrameAt` as a reader. */
  function FrameStep(text: TextDecoder, buf: seq<byte>): StepAt
  {
    (x: nat) => FrameAt(text, buf, x)
  }

  /** The frames from `pos` while it lies below `end`, up to the first of size 0. */
  function Frames(text: TextDecoder, buf: seq<byte>, pos: nat, end: int): Result<seq<Region>>
  {
    Walk(FrameStep(text, buf), pos, end)
  }

  // The tag

  /** `parseID3v2`: the `ID3v2` compound over [0, size + 10) holding the tag header and the
      frames from 10. */
  function Id3v2(text: TextDecoder, buf: seq<byte>): Result<Region>
  {
    var length :- TagLength(buf);
    var frames :- Frames(text, buf, 10, length + 10);
    Ok(Region("ID3v2", Compound, Id3Reference, 0, length + 10, Some(BE), None, None, None,
              Sub([TagHeader(text, buf, length)] + frames)))
  }

  /** `parse`: the ID3v2 tag when the file starts with "ID3", nothing otherwise; a buffer
      under three bytes throws in the signature test. */
  function Mp3Regions(text: TextDecoder, buf: seq<byte>): Result<seq<Region>>
  {
    var isId3 :- CheckContentSpec(buf, 0, Id3Signature);
    if isId3 then
      var id3v2 :- Id3v2(text, buf);
      Ok([id3v2])
    else Ok([])
  }

  /** One turn of the loop: the frame at `pos` joins the frames already read, or the walk
      stops there, or its error ends the walk. */
  lemma WalkStep(step: StepAt, pos: nat, end: int, acc: seq<Region>)
    requires pos < end
    ensures var s := step(pos);
            && (s.Err? ==> Walk(step, pos, end) == Err(s.error))
            && (s.Ok? && s.value.Stop? ==> Prepend(acc, Walk(step, pos, end)) == Ok(acc + []))
            && (s.Ok? && s.value.Next? ==>
                  Prepend(acc, Walk(step, pos, end)) == Prepend(acc + [s.value.frame], Walk(step, pos + s.value.size + 10, end)))
  {
    var s := step(pos);
    if s.Ok? && s.value.Next? {
      var rest := Walk(step, pos + s.value.size + 10, end);
      if rest.Ok? {
        assert acc + ([s.value.frame] + rest.value) == acc + [s.value.frame] + rest.value;
      }
    }
  }

  // Properties

  /** Dividing by 128 peels off the low seven-bit group. */
  lemma Peel(q: int, r: int)
    requires 0 <= r < 128
    ensures (q * 128 + r) / 128 == q && (q * 128 + r) % 128 == r
  {
  }

  /** Dividing by 128 twice is dividing by 128 * 128. */
  lemma DivDiv128(n: nat)
    ensures n / 128 / 128 == n / 0x4000 && n / 0x4000 / 128 == n / 0x20_0000
  {
    var q1, r1 := n / 128, n % 128;
    var q2, r2 := q1 / 128, q1 % 128;
    var q3, r3 := q2 / 128, q2 % 128;
    assert n == q2 * 0x4000 + (r2 * 128 + r1);
    Peel2(n, q2, r2 * 128 + r1, 0x4000);
    assert n == q3 * 0x20_0000 + (r3 * 0x4000 + r2 * 128 + r1);
    Peel2(n, q3, r3 * 0x4000 + r2 * 128 + r1, 0x20_0000);
  }

  /** Euclidean division has one quotient. */
  lemma Peel2(n: int, q: int, r: int, d: int)
    requires 0 < d && 0 <= r < d && n == q * d + r
    ensures n / d == q
  {
    var q', r' := n / d, n % d;
    assert q * d + r == q' * d + r';
    if q' < q {
      MulMonotone(q' + 1, q, d);
    } else if q' > q {
      MulMonotone(q + 1, q', d);
    }
  }

  lemma MulMonotone(a: int, b: int, d: int)
    requires a <= b && 0 < d
    ensures a * d <= b * d
  {
    assert b * d - a * d == (b - a) * d;
  }

  /** Writing a size below 2^28 as four seven-bit groups and reading them back gives the size. */
  lemma SyncsafeOfBytes(n: nat)
    requires n < 0x1000_0000
    ensures var b := SyncsafeBytes(n);
            Syncsafe(b[0], b[1], b[2], b[3]) == n && b[0] < 128
  {
    DivDiv128(n);
    var q1, q2, q3 := n / 128, n / 0x4000, n / 0x20_0000;
    assert n == q1 * 128 + n % 128;
    assert q1 == q2 * 128 + q1 % 128;
    assert q2 == q3 * 128 + q2 % 128;
  }

  /** Four bytes below 128 read as a size below 2^28, and writing it out again gives them back. */
  lemma BytesOfSyncsafe(z0: int, z1: int, z2: int, z3: int)
    requires 0 <= z0 < 128 && 0 <= z1 < 128 && 0 <= z2 < 128 && 0 <= z3 < 128
    ensures 0 <= Syncsafe(z0, z1, z2, z3) < 0x1000_0000
    ensures SyncsafeBytes(Syncsafe(z0, z1, z2, z3)) == [z0, z1, z2, z3]
  {
    var n := Syncsafe(z0, z1, z2, z3);
    var a := z0 * 128 + z1;
    var b := a * 128 + z2;
    Peel(b, z3);
    Peel(a, z2);
    Peel(z0, z1);
    DivDiv128(n);
  }

  /** A one-byte read at `i`, in either byte order, is the byte itself. */
  lemma OneByteValue(buf: seq<byte>, i: int, bigEndian: bool)
    requires 0 <= i < |buf|
    ensures ParseValueSpec(buf, i, i + 1, bigEndian, false).Ok?
    ensures ParseValueSpec(buf, i, i + 1, bigEndian, false).value == buf[i]
  {
    assert buf[i..i + 1][1..] == [];
    assert buf[i..i + 1][..0] == [];
    assert CommonUtil.LE(buf[i..i + 1]) == buf[i];
    assert CommonUtil.BE(buf[i..i + 1]) == buf[i];
  }

  /** The tag size is read exactly when the buffer has ten bytes, as the syncsafe value of bytes
      6 to 9; a shorter buffer throws a read past the end. */
  lemma TagLengthLayout(buf: seq<byte>)
    ensures TagLength(buf).Ok? <==> |buf| >= 10
    ensures TagLength(buf).Err? ==> TagLength(buf).error == ReadPastEnd
    ensures TagLength(buf).Ok? ==> TagLength(buf).value == Syncsafe(buf[6], buf[7], buf[8], buf[9])
  {
    if |buf| >= 10 {
      OneByteValue(buf, 6, false);
      OneByteValue(buf, 7, false);
      OneByteValue(buf, 8, false);
      OneByteValue(buf, 9, false);
    }
  }

  /** The tag header covers [0, 10): FileID [0, 3), the three one-byte numbers at 3, 4 and 5,
      and TagSize [6, 10), which holds the tag size rather than the bytes read there. */
  lemma TagHeaderLayout(text: TextDecoder, buf: seq<byte>, length: int)
    requires |buf| >= 10
    ensures var h := TagHeader(text, buf, length);
            && h.id == "TagHeader" && h.startPos == 0 && h.endPos == 10
            && h.children.Sub? && |h.children.regions| == 5
    ensures var k := TagHeader(text, buf, length).children.regions;
            && k[0].id == "FileID" && k[0].startPos == 0 && k[0].endPos == 3
            && k[1].id == "MajorVersion" && k[1].startPos == 3 && k[1].endPos == 4 && k[1].numValue == Some(buf[3] as int)
            && k[2].id == "RevisionNumber" && k[2].startPos == 4 && k[2].endPos == 5 && k[2].numValue == Some(buf[4] as int)
            && k[3].id == "Flags" && k[3].startPos == 5 && k[3].endPos == 6 && k[3].numValue == Some(buf[5] as int)
            && k[4].id == "TagSize" && k[4].startPos == 6 && k[4].endPos == 10 && k[4].numValue == Some(length)
  {
    OneByteValue(buf, 3, true);
    OneByteValue(buf, 4, true);
    OneByteValue(buf, 5, true);
  }

  /** A frame header needs its ten bytes: ID is the text of [pos, pos + 4), Size the
      big-endian value of [pos + 4, pos + 8) and Flags that of [pos + 8, pos + 10). */
  lemma FrameHeaderLayout(text: TextDecoder, buf: seq<byte>, pos: nat)
    ensures FrameHeader(text, buf, pos).Ok? <==> pos + 10 <= |buf|
    ensures FrameHeader(text, buf, pos).Err? ==> FrameHeader(text, buf, pos).error == ReadPastEnd
    ensures FrameHeader(text, buf, pos).Ok? ==>
              var h := FrameHeader(text, buf, pos).value;
              && h.id.id == "ID" && h.id.startPos == pos && h.id.endPos == pos + 4
              && h.id.strValue == Some(text("utf-8", buf[pos..pos + 4]))
              && h.size.id == "Size" && h.size.startPos == pos + 4 && h.size.endPos == pos + 8
              && h.size.numValue == Some(CommonUtil.BE(buf[pos + 4..pos + 8]) as int)
              && h.flags.id == "Flags" && h.flags.startPos == pos + 8 && h.flags.endPos == pos + 10
              && h.flags.numValue == Some(CommonUtil.BE(buf[pos + 8..pos + 10]) as int)
  {
    FieldAtFacts(text, buf, BE, pos + 4, Field(Size, 4, "Size", "", NoCallback));
    FieldAtFacts(text, buf, BE, pos + 8, N(2, "Flags"));
  }

  /** The frame at `pos` stops the walk when its Size bytes are zero; otherwise it is the empty
      `Frame` compound at `pos` labelled with the ID and the content's text, holding the header
      rows and then the content regions, and the walk moves on by Size + 10. */
  lemma FrameAtLayout(text: TextDecoder, buf: seq<byte>, pos: nat)
    ensures pos + 10 > |buf| ==> FrameAt(text, buf, pos).Err? && FrameAt(text, buf, pos).error == ReadPastEnd
    ensures pos + 10 <= |buf| && CommonUtil.BE(buf[pos + 4..pos + 8]) == 0 ==>
              FrameAt(text, buf, pos).Ok? && FrameAt(text, buf, pos).value.Stop?
    ensures pos + 10 <= |buf| && CommonUtil.BE(buf[pos + 4..pos + 8]) > 0 ==>
              var size := CommonUtil.BE(buf[pos + 4..pos + 8]);
              var id := text("utf-8", buf[pos..pos + 4]);
              var c := FrameContent(text, buf, id, pos + 10, size);
              var r := FrameAt(text, buf, pos);
              && (r.Ok? <==> c.Ok?)
              && (r.Err? ==> r.error == c.error)
              && (r.Ok? ==>
                    && r.value.Next? && r.value.size == size
                    && r.value.frame.id == "Frame" && r.value.frame.startPos == pos && r.value.frame.endPos == pos
                    && r.value.frame.interpreted == Some(id + " " + c.value.str)
                    && r.value.frame.children.Sub?
                    && |r.value.frame.children.regions| == 3 + |c.value.regions|
                    && r.value.frame.children.regions[0].id == "ID"
                    && r.value.frame.children.regions[1].id == "Size"
                    && r.value.frame.children.regions[2].id == "Flags"
                    && r.value.frame.children.regions[3..] == c.value.regions)
  {
    FrameHeaderLayout(text, buf, pos);
  }

  /** A frame that is not a text frame, and TXXX, is one Content region over its `len` bytes
      with no text. */
  lemma OtherContentLayout(text: TextDecoder, buf: seq<byte>, id: string, offset: nat, len: int)
    requires len > 0 && !(id != "TXXX" && IsTextFrame(id))
    ensures var c := FrameContent(text, buf, id, offset, len);
            && c.Ok? && c.value.str == "" && |c.value.regions| == 1
            && c.value.regions[0].id == "Content" && c.value.regions[0].kind == General
            && c.value.regions[0].startPos == offset && c.value.regions[0].endPos == offset + len
  {
  }

  /** A text frame other than TXXX throws when its encoding byte lies past the buffer, and with
      encoding 1 when its two byte order mark bytes do; it decodes otherwise. */
  lemma TextContentOutcome(text: TextDecoder, buf: seq<byte>, id: string, offset: nat, len: int)
    requires id != "TXXX" && IsTextFrame(id)
    ensures var c := FrameContent(text, buf, id, offset, len);
            && (c.Ok? <==> offset < |buf| && (buf[offset] != 1 || offset + 3 <= |buf|))
            && (c.Err? ==> c.error == (if offset < |buf| then RangeError else ReadPastEnd))
  {
    FieldAtFacts(text, buf, BE, offset, N(1, "encoding"));
    if offset < |buf| {
      OneByteValue(buf, offset, true);
    }
  }

  /** An encoding byte other than 1: the encoding row labelled ISO-8859-1, then Text over the
      remaining `len - 1` bytes decoded as UTF-8, whose text labels the frame. */
  lemma LatinContentLayout(text: TextDecoder, buf: seq<byte>, id: string, offset: nat, len: int)
    requires len > 0 && id != "TXXX" && IsTextFrame(id) && offset < |buf| && buf[offset] != 1
    ensures var c := FrameContent(text, buf, id, offset, len);
            && c.Ok? && |c.value.regions| == 2
            && c.value.regions[0].id == "encoding" && c.value.regions[0].startPos == offset
            && c.value.regions[0].endPos == offset + 1 && c.value.regions[0].numValue == Some(buf[offset] as int)
            && c.value.regions[0].interpreted == Some("iso-8859-1")
            && c.value.regions[1].id == "Text" && c.value.regions[1].startPos == offset + 1
            && c.value.regions[1].endPos == offset + len
            && c.value.regions[1].strValue == Some(c.value.str)
            && c.value.str == text("utf-8", Slice(buf, offset + 1, offset + len))
  {
    FieldAtFacts(text, buf, BE, offset, N(1, "encoding"));
    OneByteValue(buf, offset, true);
  }

  /** Encoding 1: the encoding row labelled unicode, the byte order mark at [offset + 1,
      offset + 3), and Text from offset + 3, decoded as UTF-16LE exactly when the mark is FF FE
      and as UTF-16BE otherwise, without trailing NULs. A frame of two bytes asks for a Text
      length of -1, which stretches the region to the end of the buffer. */
  lemma UnicodeContentLayout(text: TextDecoder, buf: seq<byte>, id: string, offset: nat, len: int)
    requires len > 0 && id != "TXXX" && IsTextFrame(id) && offset + 3 <= |buf| && buf[offset] == 1
    ensures var c := FrameContent(text, buf, id, offset, len);
            && c.Ok? && |c.value.regions| == 3
            && c.value.regions[0].id == "encoding" && c.value.regions[0].startPos == offset
            && c.value.regions[0].endPos == offset + 1 && c.value.regions[0].interpreted == Some("unicode")
            && c.value.regions[1].id == "BOM" && c.value.regions[1].startPos == offset + 1
            && c.value.regions[1].endPos == offset + 3
            && c.value.regions[2].id == "Text" && c.value.regions[2].startPos == offset + 3
            && c.value.regions[2].endPos == (if len == 2 then |buf| else offset + len)
            && c.value.regions[2].strValue == Some(c.value.str)
    ensures var c := FrameContent(text, buf, id, offset, len);
            var le := buf[offset + 1] == 0xFF && buf[offset + 2] == 0xFE;
            var s := text(if le then "utf-16le" else "utf-16be", Slice(buf, offset + 3, offset + len));
            && NulTrimmed(s, c.value.str)
  {
    FieldAtFacts(text, buf, BE, offset, N(1, "encoding"));
    OneByteValue(buf, offset, true);
    var encoding := FieldAt(text, buf, BE, offset, N(1, "encoding")).value;
    assert FrameContent(text, buf, id, offset, len) == UnicodeText(text, buf, offset, len, encoding);
    BomTest(buf, offset + 1);
  }

  /** Two bytes at `i` are tested against FF FE byte by byte. */
  lemma BomTest(buf: seq<byte>, i: nat)
    requires i + 2 <= |buf|
    ensures CheckContentSpec(buf, i, Utf16LeBom).Ok?
    ensures CheckContentSpec(buf, i, Utf16LeBom).value == (buf[i] == 0xFF && buf[i + 1] == 0xFE)
  {
    SliceIsData(buf, i, Utf16LeBom);
    assert Utf16LeBom[0] == 0xFF && Utf16LeBom[1] == 0xFE;
  }

  // The frame walk

  /** `frames` are what the walk over `step` reads from `pos` on: each frame where the previous
      one's size moved the position, until the position reaches `end` or a step stops. */
  ghost predicate WalkFrom(step: StepAt, frames: seq<Region>, pos: nat, end: int)
    decreases |frames|
  {
    if frames == [] then pos >= end || (step(pos).Ok? && step(pos).value.Stop?)
    else
      && pos < end && step(pos).Ok? && step(pos).value.Next? && step(pos).value.frame == frames[0]
      && WalkFrom(step, frames[1..], pos + step(pos).value.size + 10, end)
  }

  /** The walk yields exactly the frames `WalkFrom` describes: what it returns satisfies it,
      and whatever satisfies it is what the walk returns. */
  lemma {:induction false} WalkChain(step: StepAt, pos: nat, end: int, frames: seq<Region>)
    ensures Walk(step, pos, end).Ok? ==> WalkFrom(step, Walk(step, pos, end).value, pos, end)
    ensures WalkFrom(step, frames, pos, end) ==> Walk(step, pos, end).Ok? && Walk(step, pos, end).value == frames
    decreases end - pos
  {
    if pos < end && step(pos).Ok? && step(pos).value.Next? {
      var s := step(pos).value;
      var next := pos + s.size + 10;
      var tail := if frames == [] then [] else frames[1..];
      WalkChain(step, next, end, tail);
      var rest := Walk(step, next, end);
      if rest.Ok? {
        assert ([s.frame] + rest.value)[1..] == rest.value;
      }
      if WalkFrom(step, frames, pos, end) {
        assert frames == [frames[0]] + tail;
      }
    }
  }

  /** A walk whose steps read a non-empty frame at the position they are given lists frames
      that start inside [pos, end), each more than ten bytes after the one before. */
  lemma {:induction false} WalkPositions(step: StepAt, frames: seq<Region>, pos: nat, end: int)
    requires forall x: nat :: step(x).Ok? && step(x).value.Next? ==> step(x).value.size > 0 && step(x).value.frame.startPos == x
    requires WalkFrom(step, frames, pos, end)
    ensures forall i :: 0 <= i < |frames| ==> pos <= frames[i].startPos < end
    ensures forall i, j :: 0 <= i < j < |frames| ==> frames[i].startPos + 10 < frames[j].startPos
    decreases |frames|
  {
    if frames != [] {
      var s := step(pos).value;
      WalkPositions(step, frames[1..], pos + s.size + 10, end);
      assert forall i :: 1 <= i < |frames| ==> frames[i] == frames[1..][i - 1];
    }
  }

  /** The ID3v2 frames, read from byte 10 up to the end of the tag, start inside the tag in
      increasing order, each where the frame at that position is read. */
  lemma FramesLayout(text: TextDecoder, buf: seq<byte>, end: int)
    requires Frames(text, buf, 10, end).Ok?
    ensures var fs := Frames(text, buf, 10, end).value;
            && WalkFrom(FrameStep(text, buf), fs, 10, end)
            && (forall i :: 0 <= i < |fs| ==> 10 <= fs[i].startPos < end)
            && (forall i, j :: 0 <= i < j < |fs| ==> fs[i].startPos + 10 < fs[j].startPos)
  {
    var step := FrameStep(text, buf);
    WalkChain(step, 10, end, []);
    forall x: nat | step(x).Ok? && step(x).value.Next?
      ensures step(x).value.size > 0 && step(x).value.frame.startPos == x
    {
      assert step(x) == FrameAt(text, buf, x);
    }
    WalkPositions(step, Frames(text, buf, 10, end).value, 10, end);
  }

  /** `parse` throws a range error on a buffer under three bytes, finds nothing in one that
      does not start with "ID3", throws a read past the end on an ID3 buffer under ten bytes,
      and otherwise yields one ID3v2 region over [0, size + 10): the tag header, then the frames
      from byte 10. */
  lemma Mp3Outcome(text: TextDecoder, buf: seq<byte>)
    ensures |buf| < 3 ==> Mp3Regions(text, buf).Err? && Mp3Regions(text, buf).error == RangeError
    ensures |buf| >= 3 && buf[..3] != Id3Signature ==> Mp3Regions(text, buf).Ok? && Mp3Regions(text, buf).value == []
    ensures 3 <= |buf| < 10 && buf[..3] == Id3Signature ==>
              Mp3Regions(text, buf).Err? && Mp3Regions(text, buf).error == ReadPastEnd
    ensures |buf| >= 10 && buf[..3] == Id3Signature && Mp3Regions(text, buf).Ok? ==>
              var size := Syncsafe(buf[6], buf[7], buf[8], buf[9]);
              var rs := Mp3Regions(text, buf).value;
              && |rs| == 1 && rs[0].id == "ID3v2" && rs[0].startPos == 0 && rs[0].endPos == size + 10
              && rs[0].children.Sub? && |rs[0].children.regions| >= 1
              && rs[0].children.regions[0] == TagHeader(text, buf, size)
              && Frames(text, buf, 10, size + 10).Ok?
              && rs[0].children.regions[1..] == Frames(text, buf, 10, size + 10).value
  {
    TagLengthLayout(buf);
    if |buf| >= 3 {
      assert buf[0..0 + |Id3Signature|] == buf[..3];
    }
  }

  // The decoder, call by call

  /** The tag header rows, and the write of the tag size into the TagSize region the cache and
      the header share. */
  method ParseTagHeader(p: ParseHelper, length: int, ghost text: TextDecoder, ghost buf: seq<byte>) returns (r: Region)
    requires p.buffer == buf && p.text == text && p.endian == BE && |buf| >= 10
    modifies p
    ensures r == TagHeader(text, buf, length)
    ensures p.position == 10 && p.endian == BE
    ensures "TagSize" in p.regionCache && p.regionCache["TagSize"].numValue == Some(length)
  {
    var tagHeader := p.CreateCompound(0, 10, "TagHeader", "");
    var fileId := p.CreateGeneralRegion(0, 3, "FileID", "");
    var major := p.CreateRegion(Number, 3, 1, "MajorVersion", "", NoCallback);
    var revision := p.CreateRegion(Number, 4, 1, "RevisionNumber", "", NoCallback);
    var flags := p.CreateRegion(Number, 5, 1, "Flags", "", NoCallback);
    var tagSize := p.CreateGeneralRegion(6, 4, "TagSize", "");
    tagSize := tagSize.(numValue := Some(length));
    p.regionCache := p.regionCache["TagSize" := tagSize];
    return tagHeader.(children := Sub([fileId, major.value, revision.value, flags.value, tagSize]));
  }

  /** The encoding-1 branch of `parseId3v2FrameContent`. The label written on the encoding
      region and the text written on the Text region also reach the cached copies of those
      regions. */
  method ParseUnicodeText(p: ParseHelper, offset: int, len: int, encoding: Region, ghost text: TextDecoder, ghost buf: seq<byte>)
    returns (r: Result<Content>)
    requires p.buffer == buf && p.text == text && p.endian == BE && 0 <= offset
    modifies p
    ensures r == UnicodeText(text, buf, offset, len, encoding)
    ensures p.endian == BE
    ensures "ID" in old(p.regionCache) ==> "ID" in p.regionCache && p.regionCache["ID"] == old(p.regionCache["ID"])
    ensures p.num == old(p.num)
  {
    var labelled := encoding.(interpreted := Some("unicode"));
    p.regionCache := p.regionCache["encoding" := labelled];
    var bom := p.CreateGeneralRegion(offset + 1, 2, "BOM", "");
    var le := CheckContent(p.buffer, bom.startPos, Utf16LeBom);
    if le.Err? {
      return Err(le.error);
    }
    var enc := if le.value then "utf-16le" else "utf-16be";
    var textRegion := p.CreateGeneralRegion(offset + 3, len - 3, "Text", "");
    var s := ParseFixedLengthString(p.text, p.buffer, textRegion.startPos, len - 3, enc);
    var t := TrimNull(s);
    textRegion := textRegion.(strValue := Some(t));
    p.regionCache := p.regionCache["Text" := textRegion];
    assert bom == GeneralAt(BE, offset + 1, 2, "BOM", "");
    assert textRegion == GeneralAt(BE, offset + 3, ResolveLength(len - 3, offset + 3, |buf|), "Text", "").(strValue := Some(t));
    assert UnicodeText(text, buf, offset, len, encoding).value == Content(t, [labelled, bom, textRegion]);
    return Ok(Content(t, [labelled, bom, textRegion]));
  }

  /** The other-encoding branch of `parseId3v2FrameContent`; the label also reaches the cached
      encoding region. */
  method ParseLatinText(p: ParseHelper, offset: int, len: int, encoding: Region, ghost text: TextDecoder, ghost buf: seq<byte>)
    returns (c: Content)
    requires p.buffer == buf && p.text == text && p.endian == BE && 0 <= offset
    modifies p
    ensures c == LatinText(text, buf, offset, len, encoding)
    ensures p.endian == BE
    ensures "ID" in old(p.regionCache) ==> "ID" in p.regionCache && p.regionCache["ID"] == old(p.regionCache["ID"])
    ensures p.num == old(p.num)
  {
    var labelled := encoding.(interpreted := Some("iso-8859-1"));
    p.regionCache := p.regionCache["encoding" := labelled];
    var textRegion := p.CreateStringRegion(offset + 1, len - 1, "Text", "");
    return Content(textRegion.strValue.value, [labelled, textRegion]);
  }

  /** `parseId3v2FrameContent(p, id, offset, len)`: the text-frame branches, or else the
      fallback Content region. */
  method ParseFrameContent(p: ParseHelper, id: string, offset: int, len: int, ghost text: TextDecoder, ghost buf: seq<byte>)
    returns (r: Result<Content>)
    requires p.buffer == buf && p.text == text && p.endian == BE && 0 <= offset
    modifies p
    ensures r == FrameContent(text, buf, id, offset, len)
    ensures p.endian == BE
    ensures "ID" in old(p.regionCache) ==> "ID" in p.regionCache && p.regionCache["ID"] == old(p.regionCache["ID"])
    ensures "Size" in old(p.num) ==> "Size" in p.num && p.num["Size"] == old(p.num["Size"])
  {
    var str := "";
    var regions: seq<Region> := [];
    if id == "TXXX" {
    } else if |id| > 0 && id[0] == 'T' {
      var encoding := p.CreateRegion(Number, offset, 1, "encoding", "", NoCallback);
      if encoding.Err? {
        return Err(encoding.error);
      }
      var c: Content;
      if encoding.value.numValue == Some(1) {
        var u := ParseUnicodeText(p, offset, len, encoding.value, text, buf);
        if u.Err? {
          return Err(u.error);
        }
        c := u.value;
      } else {
        c := ParseLatinText(p, offset, len, encoding.value, text, buf);
      }
      str, regions := c.str, c.regions;
    }
    if |regions| == 0 {
      var content := p.CreateGeneralRegion(offset, len, "Content", "");
      regions := [content];
    }
    return Ok(Content(str, regions));
  }

  /** The header of the frame at `pos`; the memo then holds its size and the cache its ID. */
  method ParseFrameHeader(p: ParseHelper, pos: int, ghost text: TextDecoder, ghost buf: seq<byte>) returns (r: Result<FrameHead>)
    requires p.buffer == buf && p.text == text && p.endian == BE && 0 <= pos
    modifies p
    ensures r == FrameHeader(text, buf, pos)
    ensures r.Ok? ==> "Size" in p.num && Some(p.num["Size"]) == r.value.size.numValue
    ensures r.Ok? ==> "ID" in p.regionCache && p.regionCache["ID"] == r.value.id
    ensures p.endian == BE
  {
    var id := p.CreateStringRegion(pos, 4, "ID", "");
    var size := p.CreateRegion(Size, -1, 4, "Size", "", NoCallback);
    if size.Err? {
      return Err(size.error);
    }
    var flags := p.CreateRegion(Number, -1, 2, "Flags", "", NoCallback);
    if flags.Err? {
      return Err(flags.error);
    }
    return Ok(FrameHead(id, size.value, flags.value));
  }

  /** One turn of the frame loop at `pos`; on `Next` the memo holds the frame size. */
  method ParseFrame(p: ParseHelper, pos: nat, ghost text: TextDecoder, ghost buf: seq<byte>) returns (r: Result<Step>)
    requires p.buffer == buf && p.text == text && p.endian == BE
    modifies p
    ensures r == FrameAt(text, buf, pos)
    ensures r.Ok? && r.value.Next? ==> "Size" in p.num && p.num["Size"] == r.value.size
    ensures p.endian == BE
  {
    var frame := p.CreateCompound(pos, 0, "Frame", "");
    var head := ParseFrameHeader(p, pos, text, buf);
    if head.Err? {
      return Err(head.error);
    }
    if head.value.size.numValue == Some(0) {
      return Ok(Stop);
    }
    var ret := ParseFrameContent(p, head.value.id.strValue.value, pos + 10, p.num["Size"], text, buf);
    if ret.Err? {
      return Err(ret.error);
    }
    frame := frame.(interpreted := Some(p.regionCache["ID"].strValue.value + " " + ret.value.str),
                    children := Sub([head.value.id, head.value.size, head.value.flags] + ret.value.regions));
    return Ok(Next(frame, p.num["Size"]));
  }

  /** The frame loop from `start` while the position lies below `end`. */
  method ParseFrames(p: ParseHelper, start: nat, end: int, ghost step: StepAt, ghost text: TextDecoder, ghost buf: seq<byte>)
    returns (r: Result<seq<Region>>)
    requires p.buffer == buf && p.text == text && p.endian == BE
    requires forall x: nat {:trigger FrameAt(text, buf, x)} :: step(x) == FrameAt(text, buf, x)
    modifies p
    ensures r == Walk(step, start, end)
  {
    var frames: seq<Region> := [];
    var pos := start;
    PrependNil(Walk(step, pos, end));
    while pos < end
      invariant p.buffer == buf && p.text == text && p.endian == BE
      invariant Walk(step, start, end) == Prepend(frames, Walk(step, pos, end))
      decreases end - pos
    {
      WalkStep(step, pos, end, frames);
      var frame := ParseFrame(p, pos, text, buf);
      assert frame == step(pos);
      if frame.Err? {
        return Err(frame.error);
      }
      if frame.value.Stop? {
        break;
      }
      frames := frames + [frame.value.frame];
      pos := pos + p.num["Size"] + 10;
    }
    assert frames + [] == frames;
    return Ok(frames);
  }

  /** The four size bytes, each read on its own. */
  method ReadTagLength(buf: seq<byte>) returns (r: Result<int>)
    ensures r == TagLength(buf)
  {
    var z0 := ParserUtil.ParseValue(buf, 6, 7, false, false);
    if z0.Err? {
      return Err(z0.error);
    }
    var z1 := ParserUtil.ParseValue(buf, 7, 8, false, false);
    if z1.Err? {
      return Err(z1.error);
    }
    var z2 := ParserUtil.ParseValue(buf, 8, 9, false, false);
    if z2.Err? {
      return Err(z2.error);
    }
    var z3 := ParserUtil.ParseValue(buf, 9, 10, false, false);
    if z3.Err? {
      return Err(z3.error);
    }
    return Ok(Syncsafe(z0.value, z1.value, z2.value, z3.value));
  }

  /** `parseID3v2`: the tag size from bytes 6 to 9, the header, then the frame loop. */
  method ParseId3v2(p: ParseHelper, ghost text: TextDecoder, ghost buf: seq<byte>) returns (r: Result<Region>)
    requires p.buffer == buf && p.text == text && p.endian == BE
    modifies p
    ensures r == Id3v2(text, buf)
  {
    var id3v2 := p.CreateCompound(0, 0, "ID3v2", Id3Reference);
    var length := ReadTagLength(p.buffer);
    if length.Err? {
      return Err(length.error);
    }
    var tagHeader := ParseTagHeader(p, length.value, text, buf);
    id3v2 := id3v2.(endPos := length.value + 10);
    var frames := ParseFrames(p, p.position, id3v2.endPos, FrameStep(text, buf), text, buf);
    if frames.Err? {
      return Err(frames.error);
    }
    return Ok(id3v2.(children := Sub([tagHeader] + frames.value)));
  }

  /** `parse(buffer)`: the regions `Mp3Regions` describes. */
  method Parse(text: TextDecoder, buffer: seq<byte>) returns (r: Result<seq<Region>>)
    ensures r == Mp3Regions(text, buffer)
  {
    var p := new ParseHelper(text, buffer);
    p.SetEndian(BE);
    var ret: seq<Region> := [];
    var isId3 := CheckContent(buffer, 0, Id3Signature);
    if isId3.Err? {
      return Err(isId3.error);
    }
    if isId3.value {
      var id3v2 := ParseId3v2(p, text, buffer);
      if id3v2.Err? {
        return Err(id3v2.error);
      }
      ret := ret + [id3v2.value];
      assert ret == [id3v2.value];
      assert Mp3Regions(text, buffer) == Ok([Id3v2(text, buffer).value]);
    } else {
      assert Mp3Regions(text, buffer) == Ok([]);
    }
    return Ok(ret);
  }
}
