# bdp decoders in Dafny

A model of the decoding core of bdp, a dissector for binary file formats. A decoder reads a
byte buffer that is held entirely in memory. It turns the buffer into a list of `Region`s.
A region is a named, typed, half-open byte span `[startPos, endPos)`. It may carry a number
or a string value, and it may hold child regions.

The model has three layers.

- **Byte utilities** (`CommonUtil`, `ParserUtil`, `Text`). These cover integer reading in
  either byte order, signed or unsigned, and magic-byte checks. They also cover forward and
  backward pattern search, NUL trimming, and the JavaScript string operations the decoders
  use. Each loop in the source is a method proved against a pure specification function.
- **The two cursors** (`Parser.Helper`, `CommonParser.ParseHelper`). Each is a class. Its
  fields are a read position, a byte order and a memo of regions by id; `ParseHelper` also
  keeps a memo of numbers by id. Every `create*Region` method carves one region, moves the
  position and writes the memo. Its `ensures` gives the region as a function of the buffer
  and the old position, and it gives the new state in full.
- **The decoders**, one module per format:
  - ASN.1 BER (`Asn`), after section 8.1 of ITU-T X.690;
  - protobuf (`Pbf`);
  - ZIP (`Zip`), after sections 4.3.7, 4.3.12 and 4.3.16 of PKWARE's APPNOTE.TXT;
  - PE/COFF (`Pe`);
  - gzip (`Gz`), after section 2.3 of RFC 1952;
  - ID3v2 in MP3 (`Mp3`);
  - RIFF/WAVE (`Riff`);
  - MP4 (`Mp4`), after section 4.2 of ISO/IEC 14496-12;
  - PNG (`Png`);
  - JPEG (`Jpg`), after annex B.1.1 of ITU-T T.81;
  - ICO (`Ico`);
  - TrueType (`Ttf`).

  Each decoder is written twice:
  - a pure specification function, with one `FieldAt` step per `createRegion` call of the
    source;
  - methods that drive the cursor the way the source does, each proved equal to that
    function.

  Lemmas then state each format's layout over all inputs. They say where each field sits,
  how records tile, when decoding fails, and how walks advance.

Two more modules sit outside the decoders:

- `Bdp` models the dispatcher. It covers the registration order, the extension taken from
  the file name, the forced type, the first sniffer that accepts, and the guard that turns
  a decoder's exception into an empty region list.
- `Util` models `setValue`, a path assignment on a JavaScript object graph. The graph is
  modelled as heap objects.

Shared definitions:

- A JavaScript `throw` is an `Err` of `Wrappers.Result`. A loop that never ends in the
  source is `Err(Diverges)`, so every member of the model terminates.
- Bytes are integers in `[0, 256)`, and numbers are exact integers.
- String decoding (`TextDecoder`) is a function parameter `text(encoding, bytes)`. The
  cursors carry it, and the model places no constraint on it.

## Model

| member | source | states |
|---|---|---|
| CommonUtil.Reverse | src/parser/common/util.ts:81-83 | the reversed sequence has the same length and puts element k at position n-1-k, the order in which the little-endian loop visits the bytes |
| CommonUtil.BEIsPositional | src/parser/common/util.ts:88-92 | accumulating `val = val * 256 + byte` from the first byte gives the positional sum in which byte k of n weighs 256^(n-1-k) |
| CommonUtil.LEIsReversedBE | src/parser/common/util.ts:80-92 | reading from the last byte down to the first is big-endian reading of the reversed bytes |
| CommonUtil.PositionalBounds | src/parser/common/util.ts:88-92 | an n-byte value is below 256^n and lies between first byte * 256^(n-1) and (first byte + 1) * 256^(n-1) |
| CommonUtil.BEBound | src/parser/common/util.ts:88-92 | a big-endian n-byte value is below 256^n |
| CommonUtil.LEBound | src/parser/common/util.ts:88-92 | a little-endian n-byte value is below 256^n |
| CommonUtil.AccForward | src/parser/common/util.ts:88-92 | the loop walking up from `start` to `end` accumulates the big-endian value of the span |
| CommonUtil.AccBackward | src/parser/common/util.ts:88-92 | the loop walking down from `end - 1` to `start` accumulates the little-endian value of the span |
| CommonUtil.AccSpan | src/parser/common/util.ts:80-92 | a loop that read every byte of a non-empty span stayed inside the buffer and holds the span's value in the chosen byte order |
| CommonUtil.AccDone | src/parser/common/util.ts:88-98 | when the loop reaches its end index the accumulator, sign-adjusted by the base, is what `parseValue` returns, including the empty span |
| CommonUtil.AccStep | src/parser/common/util.ts:89-91 | one more byte multiplies the accumulator and the base by 256 and adds the byte |
| CommonUtil.AccFails | src/parser/common/util.ts:88-90 | meeting an index outside the buffer before the end index means `parseValue` throws |
| CommonUtil.ParseValue | src/parser/common/util.ts:79-99 | the loop returns exactly the specified reading: 0 (or -1 when signed over a high byte) for an empty span, the sign-adjusted unsigned value inside the buffer, a thrown error when the span leaves the buffer or `start > end` |
| CommonUtil.UnsignedValue | src/parser/common/util.ts:79-99 | an unsigned reading is the positional sum of the bytes, with `start` most significant for big-endian and `end - 1` for little-endian |
| CommonUtil.UnsignedRange | src/parser/common/util.ts:79-99 | an unsigned n-byte reading lies in [0, 256^n) |
| CommonUtil.LittleEndianIsReversed | src/parser/common/util.ts:79-99 | a little-endian reading equals the big-endian reading of the reversed bytes, signed or not |
| CommonUtil.SignedValue | src/parser/common/util.ts:94-96 | a signed reading is the unsigned one minus 256^n exactly when the most significant byte is at least 128, and lies in [-256^n/2, 256^n/2) |
| CommonUtil.SliceIsData | src/parser/common/util.ts:8-13 | inside the buffer the window at `start` equals `data` exactly when every byte matches |
| CommonUtil.CheckContent | src/parser/common/util.ts:5-14 | returns true exactly when every byte of the window equals `data`, false otherwise, and throws when the window leaves the buffer |
| CommonUtil.EnsureContent | src/parser/common/util.ts:16-20 | throws exactly when `checkContent` does not return true; the error is the view's RangeError or the content mismatch |
| CommonUtil.EnsureLength | src/parser/common/util.ts:1-3 | throws exactly when the buffer is shorter than `start + len` |
| CommonUtil.MatchAtWithin | src/parser/common/util.ts:25-31 | a match lies wholly inside the buffer |
| CommonUtil.LastMatch | src/parser/common/util.ts:35-43 | the greatest matching index not above i, or -1 when none matches |
| CommonUtil.LastMatchUnique | src/parser/common/util.ts:35-43 | a match with no later match is the last match, so the backward search result is unique |
| CommonUtil.SearchPattern | src/parser/common/util.ts:22-47 | the result is -1 exactly when no index in [0, n-m] matches, and otherwise a match: the least one going forward, the greatest one going backward |
| CommonUtil.WithoutTrailingNuls | src/parser/common/util.ts:70-77 | the result is the input with its trailing NUL characters removed: a prefix, followed only by NULs in the input, not itself ending in NUL |
| CommonUtil.TrimNull | src/parser/common/util.ts:70-77 | the backward scan yields the input without its trailing NULs |
| CommonUtil.NulTrimUniqueAndIdempotent | src/parser/common/util.ts:70-77 | the trimmed string is unique, and trimming it again changes nothing |
| CommonUtil.RelIndex | src/parser/common/util.ts:67 | JavaScript's relative index rule lands in [0, len] and keeps an index already in range |
| CommonUtil.Slice | src/parser/common/util.ts:67 | `slice(a, b)` is the subsequence a..b when 0 <= a <= b <= length, and never longer than the input |
| ParserUtil.EnsureLength | src/parser/util.ts:1-3 | throws exactly when the buffer is shorter than `start + len` |
| ParserUtil.EnsureContent | src/parser/util.ts:5-13 | passes exactly when the window lies in the buffer and every byte equals `data`; throws the view's RangeError outside the buffer and the mismatch error otherwise |
| ParserUtil.SearchFrom | src/parser/util.ts:18-26 | the forward scan from `from` returns the first full match at or after `from`, or -1 when no candidate up to `n - m` matches |
| ParserUtil.SearchBack | src/parser/util.ts:28-36 | the backward scan returns the greatest full match, or -1 when none exists |
| ParserUtil.SearchPattern | src/parser/util.ts:15-40 | a returned index starts an occurrence of the pattern inside the buffer; -1 exactly when there is none; forward gives the least occurrence and backward the greatest |
| ParserUtil.ParseValue | src/parser/util.ts:42-62 | the same reading as the common `parseValue`: the specified value or error for every span, byte order and signedness |
| Text.DigitCharValue | src/parser/jpg.ts:48 | every digit below 16 written by `toString(16)` reads back as its value |
| Text.Digits | src/parser/jpg.ts:48 | the written digits of a number are never empty |
| Text.DigitsAreDigits | src/parser/jpg.ts:48 | every character written for a number in base 2..16 is a digit below the base |
| Text.DigitsRoundTrip | src/parser/asn.ts:78-79 | reading the written digits of `n` back in the same base gives `n` |
| Text.DecimalReadsBack | src/parser/asn.ts:78-94 | `${n}` reads back as `n`, after a leading minus sign exactly when `n` is negative |
| Text.HexReadsBack | src/parser/jpg.ts:48 | `n.toString(16)` reads back as `n` |
| Text.BeforeNul | src/parser/parser.ts:155 | `split('\0')[0]` is a prefix of the text without NUL, and when shorter it stops at a NUL |
| Text.TrimStartShape | src/parser/riff.ts:27 | the start of `trim` drops a prefix made of whitespace only and leaves text that does not start with whitespace |
| Text.TrimEndShape | src/parser/riff.ts:27 | the end of `trim` drops a suffix made of whitespace only and leaves text that does not end with whitespace |
| Text.TrimEnds | src/parser/riff.ts:27 | the result of `trim` neither starts nor ends with whitespace |
| Text.TrimStartKeeps | src/parser/riff.ts:27 | the leading cut stops at or before the first non-whitespace character |
| Text.TrimEndKeeps | src/parser/riff.ts:27 | the trailing cut stops after the last non-whitespace character |
| Text.TrimKeepsText | src/parser/riff.ts:27 | every non-whitespace character of the input survives `trim`, in place |
| Text.TrimIdempotent | src/parser/riff.ts:27 | trimming twice is trimming once |
| Text.LowerAscii | src/bdp.ts:32 | `toLowerCase` keeps the length and maps each ASCII capital to its lower-case letter, every other character unchanged |
| Text.AfterLastDot | src/bdp.ts:32 | `split('.').pop()` is a suffix of the name without '.', preceded by a '.' whenever it is not the whole name |
| CommonParser.ResolvePos | src/parser/common/parser.ts:53-55 | a position of -1 means the cursor's current position; any other value is kept |
| CommonParser.ResolveLength | src/parser/common/parser.ts:57-59 | a length of -1 makes the span end exactly at the end of the buffer; any other value is kept |
| CommonParser.PlainFields | src/parser/common/parser.ts:77-85 | string and general rows without a callback never throw, and their regions are the decoded span and the bare span |
| CommonParser.FieldAtFacts | src/parser/common/parser.ts:52-98 | `createRegion` succeeds exactly when its number (if any) can be read and its callback passes; the region then has the given id and type, spans `[start, start + width)` in the current endian, holds the number read (0 turned into 256 by the ICO callback) and an empty child list only for compounds |
| CommonParser.PrependNil | src/parser/common/parser.ts:95-97 | nothing in front of a decode outcome leaves it unchanged |
| CommonParser.PrependPrepend | src/parser/common/parser.ts:95-97 | two runs of regions put in front one after the other are one run put in front |
| CommonParser.Table | src/parser/common/parser.ts:52-98 | a table of k repeated records read in order holds exactly k records when it succeeds |
| CommonParser.TableStep | src/parser/common/parser.ts:52-98 | a table grows by exactly the record just read |
| CommonParser.TableOkIff | src/parser/common/parser.ts:52-98 | a table reads completely exactly when every record reads, and then holds record i at index i |
| CommonParser.TableFails | src/parser/common/parser.ts:52-98 | a table fails with the error of its first failing record, whatever its length beyond |
| CommonParser.RawUnsigned | src/parser/common/parser.ts:70-71 | an unsigned little-endian read succeeds exactly when its bytes lie in the buffer and then holds their value |
| CommonParser.TilesCons | src/parser/common/parser.ts:95 | a number row followed by a contiguous run of rows is a contiguous run |
| CommonParser.Tiles2 | src/parser/common/parser.ts:95 | two number rows that meet form a contiguous run |
| CommonParser.Tiles3 | src/parser/common/parser.ts:95 | three number rows that meet form a contiguous run |
| CommonParser.Tiles4 | src/parser/common/parser.ts:95 | four number rows that meet form a contiguous run |
| CommonParser.TilesJoin | src/parser/common/parser.ts:95 | two contiguous runs that meet form one run |
| CommonParser.TilesJoin3 | src/parser/common/parser.ts:95 | three contiguous runs that meet form one run |
| CommonParser.NumberRow | src/parser/common/parser.ts:52-98 | a little-endian number row reads exactly when its bytes lie in the buffer, and then spans them and holds their value |
| CommonParser.BigNumberRow | src/parser/common/parser.ts:52-98 | a big-endian number row reads exactly when its bytes lie in the buffer, and then spans them and holds their big-endian value |
| CommonParser.ParseHelper.constructor | src/parser/common/parser.ts:18-24 | a new cursor is at position 0, little-endian, with an empty memo and an empty cache |
| CommonParser.ParseHelper.Fork | src/parser/common/parser.ts:26-34 | the fork is a fresh cursor over the prefix `[0, pos + length)` at the resolved position, in the same endian, with an empty memo and cache |
| CommonParser.ParseHelper.CreateCompoundRegion | src/parser/common/parser.ts:36-50 | the compound spans the resolved position and length, carries the given children and no endian, and changes nothing in the cursor |
| CommonParser.ParseHelper.ReadRegion | src/parser/common/parser.ts:61-89 | the type switch yields the carved region: its span and id, and for numeric types exactly the number read or the read's error |
| CommonParser.ParseHelper.Check | src/parser/common/parser.ts:91-93 | the callback either throws or passes the region on with the same span, id and type |
| CommonParser.ParseHelper.CreateRegion | src/parser/common/parser.ts:52-98 | returns the region or error of the field at the resolved position; the memo gains the number as soon as it is read, even if the callback then throws; on success the position moves to the region's end and the cache records it; on error position and cache are unchanged; no other memo or cache entry changes |
| CommonParser.ParseHelper.CreateGeneralRegion | src/parser/common/parser.ts:52-98 | a 'G' row never throws; position moves to its end, the cache records it, the memo is unchanged |
| CommonParser.ParseHelper.CreateStringRegion | src/parser/common/parser.ts:52-98 | an 'S' row never throws and holds the decoded bytes of its span; position moves to its end, the cache records it, the memo is unchanged |
| CommonParser.ParseHelper.CreateCompound | src/parser/common/parser.ts:52-98 | a 'C' row never throws and has an empty child list; position moves to its end and the cache records it |
| CommonParser.ParseHelper.SetEndian | src/parser/common/parser.ts:108-110 | only the endian changes |
| CommonParser.FindRegion | src/parser/common/parser.ts:114-118 | finds a region of the list with the given id, and finds none exactly when no region has it |
| CommonParser.GetNumber | src/parser/common/parser.ts:112-121 | the number of the first region named `name`; 0 when the list is absent or no region has the name |
| CommonParser.FindRegionAt | src/parser/common/parser.ts:114-118 | the region found is the first one with that id |
| CommonParser.NumberAt | src/parser/common/parser.ts:52-98 | a little-endian number row at `pos` is the row the layout reads there; on success the cursor is past it and the memo holds its value |
| Parser.NumberRegionSpan | src/parser/parser.ts:115-126 | a number region exists exactly for an empty span or a span inside the buffer and then covers `[p, p + l)` with the given id and type; otherwise the read throws |
| Parser.NumberRegionUnsigned | src/parser/parser.ts:120 | the unsigned value of a non-empty number region is its bytes in the cursor's byte order and lies in [0, 256^l) |
| Parser.NumberRegionSigned | src/parser/parser.ts:132-134 | the signed value is the unsigned one less 256^l exactly when the most significant byte is at least 128, and lies in [-256^l/2, 256^l/2) |
| Parser.MatchZero | src/parser/parser.ts:166 | the pattern `[0]` matches exactly at the 0 bytes of the buffer |
| Parser.FirstZero | src/parser/parser.ts:166-167 | the first 0 byte at or after `from`, or -1 when none follows |
| Parser.ZeroSearchIsFirstZero | src/parser/parser.ts:166 | the forward search for `[0]` finds exactly the first 0 byte |
| Parser.ZeroTerminatedSpan | src/parser/parser.ts:164-169 | a zero-terminated string ends just past the first 0 byte at or after its start, and one byte past the buffer when there is none |
| Parser.GetValueDefinition | src/parser/parser.ts:249-255 | the inverse of an enum: its keys are exactly the enum's values, and a value held by one key only (or last) maps back to that key |
| Parser.Helper.constructor | src/parser/parser.ts:68-77 | a new helper is at position 0, little-endian, utf-8, with an empty cache |
| Parser.Helper.Fork | src/parser/parser.ts:79-87 | the fork is a fresh helper over `buffer.slice(0, pos + length)`, with the end clamped as `ArrayBuffer.slice` clamps it (past the end gives the whole buffer, a negative end counts from the back), positioned at the resolved `pos`, in the same endian, with default encoding and an empty cache |
| Parser.Helper.UpdatePosAndLength | src/parser/parser.ts:89-99 | -1 as position means the current position, -1 as length means up to the end of the buffer, any other value is kept |
| Parser.Helper.CompoundRegionSpan | src/parser/parser.ts:103-113 | the compound holds the given children and spans from the first child's start to the last child's end, or the resolved span when there are none |
| Parser.Helper.CreateNumberRegion | src/parser/parser.ts:115-126 | the number region of the resolved span or the read's error; on success the position moves to its end and the cache maps its id to it; on error nothing changes |
| Parser.Helper.CreateFlagRegion | src/parser/parser.ts:128-130 | an unsigned number region typed Flag, with the same effect on position and cache |
| Parser.Helper.CreateSignedNumberRegion | src/parser/parser.ts:132-134 | a two's-complement number region, with the same effect on position and cache |
| Parser.Helper.CreateOffsetRegion | src/parser/parser.ts:136-138 | an unsigned number region typed Offset, with the same effect on position and cache |
| Parser.Helper.CreateSizeRegion | src/parser/parser.ts:140-142 | an unsigned number region typed Size, with the same effect on position and cache |
| Parser.Helper.CreateTimeRegion | src/parser/parser.ts:144-146 | an unsigned number region typed Time, with the same effect on position and cache |
| Parser.Helper.CreateGeneralRegion | src/parser/parser.ts:171-179 | an untyped span that never throws; the position moves to its end and the cache maps its id to it |
| Parser.Helper.CreateStringRegion | src/parser/parser.ts:148-162 | the decoded bytes of the span in the given or current encoding, cut at the first NUL when asked; the position moves to its end and the cache maps its id to it |
| Parser.Helper.CreateZeroTerminatedStringRegion | src/parser/parser.ts:164-169 | the string runs from `pos` through the first 0 byte after it, or one past the buffer when there is none, and holds the text before the NUL |
| Parser.Helper.CV | src/parser/parser.ts:182-187 | passes exactly when the expected bytes sit at the region's start inside the buffer; otherwise throws the view's RangeError or the mismatch error |
| Parser.Helper.SetEndian | src/parser/parser.ts:189-191 | only the endian changes |
| Parser.Helper.SetTextEncoding | src/parser/parser.ts:193-197 | an absent encoding leaves the current one; a given one replaces it; nothing else changes |
| Parser.Helper.GetNumber | src/parser/parser.ts:199-209 | with a child list, the value of the first child named `name`, or 0 when none is; otherwise the cached region's value, and a missing cache entry throws |
| Parser.Helper.SearchPatternForward | src/parser/parser.ts:211-224 | the first full match at or after `from`, or -1 when no candidate matches |
| Parser.Helper.SearchPatternBackward | src/parser/parser.ts:226-239 | the last full match in the buffer, or -1 when there is none |
| Asn.IdentifierFieldsAreShifts | src/parser/asn.ts:103-105 | class, constructed bit and low tag bits are exactly `b >> 6`, `(b >> 5) & 1` and `b & 0x1F` |
| Asn.ClassIsShift | src/parser/asn.ts:103 | `b >> 6` is the octet divided by 64 |
| Asn.ConstructedIsShift | src/parser/asn.ts:104 | `(b >> 5) & 1` is bit 6 of the octet |
| Asn.TagBitsAreMask | src/parser/asn.ts:105 | `b & 0x1F` is the octet modulo 32 |
| Asn.IdentifierFieldsSplit | src/parser/asn.ts:103-105 | class, constructed bit and low tag bits together give back the identifier octet |
| CommonUtil.Base128Bound | src/parser/asn.ts:108-114 | n groups of 7 bits accumulated as `tag * 128 + (b & 0x7F)` stay below 128^n |
| Asn.LongTag | src/parser/asn.ts:108-115 | the long-form loop ends past its start and inside the array |
| Asn.LongTagFinds | src/parser/asn.ts:110-114 | the long-form loop ends exactly when some later byte is below 0x80, and loops forever otherwise |
| Asn.LongTagStops | src/parser/asn.ts:110-115 | the loop stops at the first byte below 0x80 and the tag number is the base-128 value of the bytes from index 1 through it |
| Asn.LongTagForm | src/parser/asn.ts:102-116 | high-tag form: the identifier runs through the first byte below 0x80 after the first, the tag number is the base-128 value of those bytes, and with no such byte the decode never ends |
| Asn.ShortTagForm | src/parser/asn.ts:118 | low-tag form: one identifier octet whose low five bits are the tag number |
| Asn.FindEoc | src/parser/asn.ts:129-133 | the indefinite-form scan stops at two consecutive zero bytes inside the array, and loops forever when there are none |
| Asn.FindEocFirst | src/parser/asn.ts:129-133 | the scan finds a pair exactly when one exists, and it is the first pair |
| Asn.ParseAsnLength | src/parser/asn.ts:121-141 | a decoded length is never negative and takes at least one octet |
| Asn.LongLengthIsParseValue | src/parser/asn.ts:139 | the long form's length is the shared integer reader on the `ll` bytes after the first, big-endian |
| Asn.LengthForms | src/parser/asn.ts:121-141 | the three forms of section 8.1.3 of ITU-T X.690: a byte below 0x80 is the length; above 0x80 its low bits count big-endian length bytes and reading past the end throws; 0x80 gives content up to the first pair of zero bytes, which must exist |
| Asn.ReadHeader | src/parser/asn.ts:72-76 | a decoded header has at least one identifier and one length octet and a non-negative length |
| Asn.TlvAt | src/parser/asn.ts:72-95 | a TLV decoded at `pos` starts there and ends past it |
| Asn.TlvAtIs | src/parser/asn.ts:72-95 | the TLV at `pos` is the region built from its header and its nested TLVs, or their error |
| Asn.TlvRegionTiled | src/parser/asn.ts:78-94 | a TLV region built from a header is tiled by its Type, Length and Value children and a constructed Value holds the nested TLVs |
| Asn.TlvLayout | src/parser/asn.ts:72-95 | every decoded TLV is tiled Type, Length, Value; the Type covers the identifier octets, the Length the length octets and holds the length, the TLV spans content plus two end-of-contents bytes in the indefinite form, and a constructed Value holds the TLVs decoded from the buffer cut at the declared end |
| Asn.TlvShape | src/parser/asn.ts:78-94 | the same layout for a TLV built from its header and nested TLVs |
| Asn.TlvsTile | src/parser/asn.ts:69-98 | the TLVs of one level are empty exactly when the start is at or past the end, start at `pos`, follow each other without gap, are each non-empty, and the last ends at or past the end of the buffer |
| Asn.TlvsStep | src/parser/asn.ts:71-96 | one loop step: the TLV at the position joins those already read, or its error ends the level |
| Asn.ReadTypeLength | src/parser/asn.ts:78-81 | the Type and Length rows are the identifier and length octets at the position, which moves past both |
| Asn.ReadValue | src/parser/asn.ts:82-92 | the Value row is a general span for a primitive type, and for a constructed type a compound holding the nested TLVs or their error |
| Asn.ReadConstructed | src/parser/asn.ts:84-89 | a constructed Value is decoded again by a cursor over the buffer cut at the declared end, from the value's start |
| Asn.NestedTlvs | src/parser/asn.ts:84-89 | the nested cursor reads exactly the TLVs of the cut buffer from the value's start |
| Asn.ParseOne | src/parser/asn.ts:72-96 | one loop body reads the TLV at the position and moves the position to its end |
| Asn.ReadTlv | src/parser/asn.ts:78-95 | once the header is known, the TLV read is the one the layout specifies and the position moves to its end |
| Asn.ParseTLV | src/parser/asn.ts:69-99 | the loop returns exactly the TLVs of the level, and the position ends at the last one's end |
| Asn.Parse | src/parser/asn.ts:63-67 | the whole buffer's TLVs, read with a fresh cursor from 0 |
| Pbf.VarintLen | src/parser/pbf.ts:19-29 | a varint read inside the array consumes at least one byte and stays inside it; at or past the end it consumes nothing |
| Pbf.ParseVarint | src/parser/pbf.ts:19-29 | the loop consumes the varint's bytes and returns the base-128 value of their low 7 bits, first byte most significant |
| Pbf.VarintShape | src/parser/pbf.ts:22-27 | the varint is the shortest run ending at a byte below 128 or at the end of the array: every earlier byte has the top bit set, and its value is below 128^len |
| Pbf.ZigZagRoundTrip | src/parser/pbf.ts:55 | zig-zag decoding inverts the encoding in both directions, so it is a bijection from the naturals onto the integers |
| Pbf.OneMessage | src/parser/pbf.ts:36-43 | one iteration of the message loop, when it succeeds, moves the position forward and the `message` region spans exactly the bytes read |
| Pbf.Message | src/parser/pbf.ts:48-79 | a payload spans from `pos` to the position after it; wire type 0 always succeeds as a Varint; wire types other than 0, 1, 2 and 5 throw |
| Pbf.LengthDelimited | src/parser/pbf.ts:61-75 | a length-delimited payload spans from `pos` to the position after it |
| Pbf.Content | src/parser/pbf.ts:67-72 | the Content region covers exactly the declared size, and the only error that escapes the `try` is a nested walk that never ends |
| Pbf.ContentRegion | src/parser/pbf.ts:67-72 | the content fails exactly when the nested walk never ends; a nested walk that throws leaves the region without children |
| Pbf.ThenNil | src/parser/pbf.ts:33-45 | nothing in front of a walk's outcome leaves it unchanged |
| Pbf.MessagesEnd | src/parser/pbf.ts:35 | at or past its end index the loop returns what it has; below its end index but past the end of the buffer it never ends |
| Pbf.MessagesStep | src/parser/pbf.ts:35-44 | one loop iteration: the message read at `pos` followed by the rest of the walk, or its error |
| Pbf.ThenThen | src/parser/pbf.ts:43 | putting regions in front twice is putting them in front once |
| Pbf.LengthDelimitedIs | src/parser/pbf.ts:61-75 | a length-delimited payload is `Len` and `Content` under one compound, given the content |
| Pbf.ReadTag | src/parser/pbf.ts:36-40 | the tag row is the varint at the position, described by field number and wire type, and the position moves past it |
| Pbf.ParseMessages | src/parser/pbf.ts:31-46 | the loop returns exactly the messages the walk from the position to `position + len` reads, or its error |
| Pbf.ParseOneMessage | src/parser/pbf.ts:36-43 | one loop body reads exactly the message the walk specifies at the position |
| Pbf.ParseMessage | src/parser/pbf.ts:48-79 | the payload of the given wire type, as the walk specifies it, or the error for an unknown wire type |
| Pbf.ReadLen | src/parser/pbf.ts:62-65 | the `Len` row is the varint at the position, valued by it, and the position moves past it |
| Pbf.ParseLengthDelimited | src/parser/pbf.ts:61-75 | the length-delimited payload as specified; the position ends where the declared content ends |
| Pbf.ParseContent | src/parser/pbf.ts:67-72 | the Content region with the nested messages when their walk succeeds and none when it throws |
| Pbf.Parse | src/parser/pbf.ts:81-86 | the messages of the whole buffer, read little-endian from 0 |
| Pbf.MessagesTile | src/parser/pbf.ts:31-46 | the messages of a walk tile the bytes it read: the first starts at `pos`, each starts where the previous ended, and the walk ends at or past its end index |
| Pbf.FixedWidths | src/parser/pbf.ts:57-60 | wire types 5 and 1 read a 4- and an 8-byte unsigned number in the cursor's byte order, and throw when those bytes leave the buffer |
| Pbf.LengthDelimitedEnds | src/parser/pbf.ts:61-75 | after a length-delimited payload the position is the content's start plus the declared length whatever the nested walk did; a throwing walk leaves Content without children; only a walk that never ends escapes |
| Pbf.StuckAtBufferEnd | src/parser/pbf.ts:35-44 | as written, the two bytes `0A 05` make the decode run forever |
| Pbf.StoppingRegions | src/parser/pbf.ts:31-46 | with the loop leaving off at the end of the buffer, the decode always ends |
| Pbf.MessagesStop | src/parser/pbf.ts:31-46 | a walk that stops at the end of the buffer always ends, with regions or a decoding error |
| Pbf.MessageStop | src/parser/pbf.ts:48-79 | a payload whose nested walk stops at the end of the buffer always ends |
| Zip.CentralRecordIs | src/parser/zip.ts:89-117 | a central record whose fixed rows and three lengths read is the compound of its twenty rows, spanning 46 + n + m + k bytes and labelled with its filename |
| Zip.LocalFileIs | src/parser/zip.ts:119-141 | a local file whose fixed rows and lengths read is the compound of its fourteen rows, spanning 30 + n + m + compressed size bytes and labelled with its filename |
| Zip.RecordStart | src/parser/zip.ts:41-47 | the walk over earlier records never moves before the directory start |
| Zip.ZipRegionsIs | src/parser/zip.ts:10-70 | once the EOCD and its three numbers are read, `parse` returns the local files, the directory and the EOCD |
| Zip.IsSupportedFile | src/parser/zip.ts:6-8 | the extension `zip` accepts; otherwise the buffer's first four bytes decide against `50 4B 03 04`, and a buffer shorter than four bytes makes the check throw |
| Zip.ParseEocdCounts | src/parser/zip.ts:75-77 | the signature, `num` and `cdnum` rows as the layout specifies them |
| Zip.ParseEocdSizes | src/parser/zip.ts:78-80 | the `cdrecords`, `totalrecords` and `cdsize` rows; the record count and size land in the memo |
| Zip.ParseEocdTail | src/parser/zip.ts:81-83 | the `cdoffset`, `commentLength` and comment rows; the comment is as long as the memo says; the directory offset lands in the memo |
| Zip.ParseEocd | src/parser/zip.ts:72-86 | the EOCD record as specified, with the record count, size and offset of the directory in the memo |
| Zip.ParseCentralVersions | src/parser/zip.ts:92-94 | the signature and two version rows of a central record |
| Zip.ParseCentralMethod | src/parser/zip.ts:95-97 | the flag, method and time rows of a central record |
| Zip.ParseCentralChecks | src/parser/zip.ts:98-101 | the date, checksum and two size rows of a central record |
| Zip.ParseCentralFront | src/parser/zip.ts:92-101 | the ten fixed rows before the lengths |
| Zip.ParseCentralLengths | src/parser/zip.ts:102-104 | the three length rows; the three lengths land in the memo |
| Zip.ParseCentralAttributes | src/parser/zip.ts:105-108 | the disk, attribute and offset rows, leaving the three lengths in the memo as they were |
| Zip.ParseCentralBack | src/parser/zip.ts:102-108 | the seven fixed rows from the lengths on, with the lengths in the memo |
| Zip.ParseCentralNames | src/parser/zip.ts:109-111 | filename, extra field and comment of the lengths the memo holds; the cursor ends after the extra field plus the comment and the cache holds the filename |
| Zip.ParseCentralRecord | src/parser/zip.ts:89-117 | one central record as specified: twenty rows, ending where its comment ends, labelled with its filename |
| Zip.ParseLocalVersions | src/parser/zip.ts:122-124 | the signature, version and flag rows of a local file |
| Zip.ParseLocalMethod | src/parser/zip.ts:125-127 | the method, time and date rows of a local file |
| Zip.ParseLocalFront | src/parser/zip.ts:122-127 | the six fixed rows up to the date |
| Zip.ParseLocalSizes | src/parser/zip.ts:128-130 | the checksum and two size rows; the compressed size lands in the memo |
| Zip.ParseLocalLengths | src/parser/zip.ts:131-132 | the two length rows, which land in the memo, leaving the compressed size as it was |
| Zip.ParseLocalBack | src/parser/zip.ts:128-132 | the five fixed rows from the checksum on, with the sizes and lengths in the memo |
| Zip.ParseLocalData | src/parser/zip.ts:133-135 | filename, extra field and compressed data of the lengths the memo holds; the cache holds the filename |
| Zip.ParseLocalFile | src/parser/zip.ts:119-141 | one local file as specified: fourteen rows, ending where its data ends, labelled with its filename |
| Zip.ReadRecordLength | src/parser/zip.ts:43-46 | the three reads give the record length 46 + n + m + k, at least 46, or the read's error |
| Zip.RecordStartStep | src/parser/zip.ts:41-47 | one step of the walk: record i + 1 starts where record i ends, or the walk fails with that record's read error |
| Zip.RecordStartFails | src/parser/zip.ts:41-47 | a walk that failed fails every longer walk the same way |
| Zip.WalkRecords | src/parser/zip.ts:32-47 | the walk's loop returns the start of record `count` or the error of the read that failed |
| Zip.FetchCentral | src/parser/zip.ts:24-50 | the central-directory fetcher returns the record at the walk's end, as specified |
| Zip.FetchLocal | src/parser/zip.ts:54-65 | the local-file fetcher returns the local file at the offset held by the fetched central record, as specified |
| Zip.Parse | src/parser/zip.ts:10-70 | `parse` returns exactly the specified three regions or error |
| Zip.CentralFrontIds | src/parser/zip.ts:92-101 | none of the ten front rows of a record is named `localHeaderOffset` |
| Zip.CentralBackIds | src/parser/zip.ts:102-108 | the seventh back row is the only `localHeaderOffset` row and holds the number at +42 |
| Zip.LocalOffsetRow | src/parser/zip.ts:63 | `getNumber(cdr.subRegions, 'localHeaderOffset')` finds row 16 of the record's twenty, which holds the number at +42 |
| Zip.OffsetRowAmong | src/parser/zip.ts:63 | in ten rows without the name followed by seven whose last alone has it, the name is found at index 16 |
| Zip.CentralVersionsOk | src/parser/zip.ts:92-94 | the first three rows read exactly when the record's first 8 bytes lie in the buffer and it starts with `50 4B 01 02` |
| Zip.CentralFrontOk | src/parser/zip.ts:92-101 | the fixed rows before the lengths read exactly when the first 28 bytes lie in the buffer and the signature matches |
| Zip.CentralBackOk | src/parser/zip.ts:102-108 | the rows from the lengths on read exactly when the 46 fixed bytes lie in the buffer |
| Zip.CentralRecordOk | src/parser/zip.ts:89-117 | a central record decodes exactly when its 46 fixed bytes lie in the buffer and its signature is `50 4B 01 02` |
| Zip.CentralRecordSpan | src/parser/zip.ts:42-46 | a record spans from its offset over 46 + n + m + k bytes, the length the fetcher's walk adds |
| Zip.CentralRecordLabel | src/parser/zip.ts:114 | a record is labelled with the decoded `n` bytes of its filename, `n` being the number at +28 |
| Zip.FilenameLabel | src/parser/zip.ts:109 | the first variable row is the filename decoded from the `n` bytes at +46 |
| Zip.LocalFixedOk | src/parser/zip.ts:122-132 | the fixed rows of a local file read exactly when its 30 fixed bytes lie in the buffer and its signature is `50 4B 03 04` |
| Zip.LocalFileOk | src/parser/zip.ts:119-141 | a local file decodes exactly when its 30 fixed bytes lie in the buffer and its signature matches |
| Zip.LocalFileSpan | src/parser/zip.ts:133-138 | a local file spans 30 + filename + extra field + compressed size bytes and is labelled with its filename |
| Zip.EocdOk | src/parser/zip.ts:72-86 | the EOCD decodes exactly when its 22 fixed bytes lie in the buffer and its signature is `50 4B 05 06` |
| Zip.EocdRows | src/parser/zip.ts:72-86 | the EOCD spans `[offset, end)`, has nine rows, holds record count, size and offset of the directory at rows 3, 5 and 6, and ends with the comment of `commentLength` bytes at +22 |
| Zip.RecordsContiguous | src/parser/zip.ts:41-49 | record i starts where the walk over i records ends and ends where the walk over i + 1 ends: fetched records tile the directory |
| Zip.LocalFetchAt | src/parser/zip.ts:58-64 | the local-file fetcher decodes the local file at the little-endian number at +42 of central record `index` |
| Zip.LocalFetchOf | src/parser/zip.ts:58-64 | the local-file fetcher follows the `localHeaderOffset` row of the record it fetched |
| Zip.CentralFetchOk | src/parser/zip.ts:24-50 | a central fetch fails exactly when the walk fails or the record it lands on lacks its 46 fixed bytes or its signature |
| Zip.MatchIsSignature | src/parser/zip.ts:15 | a match of the EOCD pattern lies in the buffer and is the signature's bytes |
| Zip.ZipNotFound | src/parser/zip.ts:15-18 | `parse` throws "cannot find EOCD" exactly when `50 4B 05 06` occurs nowhere in the buffer |
| Zip.EocdErrors | src/parser/zip.ts:72-86 | the EOCD fails only with the errors of its rows, never as "not found" |
| Zip.ZipLayout | src/parser/zip.ts:10-70 | a successful decode returns the local files over `[0, cdoffset)`, the directory over `[cdoffset, cdoffset + cdsize)`, each with `cdrecords` lazily fetched slots, and the EOCD at the last occurrence of its signature spanning to the end of the buffer |
| Pe.CoffIs | src/parser/pe.ts:40-52 | the COFF region is the compound over `[offset, offset + 20)` holding the front and back rows |
| Pe.PeRegionsWithMz | src/parser/pe.ts:16-30 | with `MZ` at the start, the result is the DOS stub and signature followed by the headers read just past the signature |
| Pe.PeTooShort | src/parser/pe.ts:16 | on a buffer of fewer than two bytes the `MZ` check throws a range error |
| Pe.PeWithoutMz | src/parser/pe.ts:15-29 | without `MZ` the buffer is read as a bare COFF header from offset 0 |
| Pe.OptionalHeaderIs | src/parser/pe.ts:54-92 | the optional header is the compound over `[offset, offset + length)` holding its thirty rows |
| Pe.CoffFrontRows | src/parser/pe.ts:43-45 | Machine, NumberOfSections and TimeDateStamp read exactly when their 8 bytes lie in the buffer, and then tile them |
| Pe.CoffBackRows | src/parser/pe.ts:46-49 | PointerToSymbolTable to Characteristics read exactly when bytes up to offset + 20 lie in the buffer, and then tile `[offset + 8, offset + 20)` |
| Pe.OptLinkerRows | src/parser/pe.ts:57-60 | Magic to SizeOfCode read exactly when their 8 bytes lie in the buffer, and then tile them |
| Pe.OptDataRows | src/parser/pe.ts:61-63 | SizeOfInitializedData to AddressOfEntryPoint tile `[offset + 8, offset + 20)` exactly when those bytes lie in the buffer |
| Pe.OptBasesRows | src/parser/pe.ts:64-65 | BaseOfCode and BaseOfData tile `[offset + 20, offset + 28)` exactly when those bytes lie in the buffer |
| Pe.OptAlignmentRows | src/parser/pe.ts:67-69 | ImageBase, SectionAlignment and FileAlignment tile `[offset + 28, offset + 40)` exactly when those bytes lie in the buffer |
| Pe.OptSystemVersionsRows | src/parser/pe.ts:70-72 | the operating system versions and MajorImageVersion tile `[offset + 40, offset + 46)` exactly when those bytes lie in the buffer |
| Pe.OptImageVersionsRows | src/parser/pe.ts:73-75 | MinorImageVersion and the subsystem versions tile `[offset + 46, offset + 52)` exactly when those bytes lie in the buffer |
| Pe.OptSizesRows | src/parser/pe.ts:76-80 | Win32VersionValue to CheckSum tile `[offset + 52, offset + 68)` exactly when those bytes lie in the buffer |
| Pe.OptStackRows | src/parser/pe.ts:81-84 | Subsystem to SizeOfStackCommit tile `[offset + 68, offset + 80)` exactly when those bytes lie in the buffer |
| Pe.OptHeapRows | src/parser/pe.ts:85-88 | SizeOfHeapReserve to NumberOfRvaAndSizes tile `[offset + 80, offset + 96)` exactly when those bytes lie in the buffer |
| Pe.OptFrontRows | src/parser/pe.ts:57-65 | the first nine optional rows tile `[offset, offset + 28)` exactly when those bytes lie in the buffer |
| Pe.OptMiddleRows | src/parser/pe.ts:67-77 | the middle nine optional rows tile `[offset + 28, offset + 52)` exactly when those bytes lie in the buffer |
| Pe.OptBackRows | src/parser/pe.ts:79-88 | the last twelve optional rows tile `[offset + 52, offset + 96)` exactly when those bytes lie in the buffer |
| Pe.CoffLayout | src/parser/pe.ts:40-52 | `parseCOFF` succeeds exactly when the 20 bytes from `offset` lie in the buffer; the region spans them and its seven rows tile them |
| Pe.OptRowsLayout | src/parser/pe.ts:56-90 | the thirty optional rows read exactly when their 96 bytes lie in the buffer, and then tile them |
| Pe.OptionalHeaderLayout | src/parser/pe.ts:54-92 | `parseOptionalHeader` succeeds exactly when its 96 bytes of rows lie in the buffer; the region spans the `length` bytes it is given, its thirty rows tile the first 96 |
| Pe.HeadersLayout | src/parser/pe.ts:29-35 | the headers succeed exactly when the COFF header fits and, unless SizeOfOptionalHeader is zero, the optional header's 96 bytes fit; the optional header is present exactly when SizeOfOptionalHeader is positive and starts right after the COFF header |
| Pe.DosLayout | src/parser/pe.ts:17-25 | the DOS part succeeds exactly when the pointer at 0x3C lies in the buffer and the bytes it points at read `50 45 00 00`; the stub spans `[0, PeHeaderOffset)` with the pointer row, the signature spans the four bytes at PeHeaderOffset |
| Pe.NextNumber | src/parser/pe.ts:44 | a numeric row at the cursor: the row the layout specifies, the cursor past it, the value in the memo |
| Pe.ParseDos | src/parser/pe.ts:17-26 | the DOS stub and signature as specified, with the cursor just past the signature |
| Pe.ParseCoffFront | src/parser/pe.ts:43-45 | the first three COFF rows as specified, the cursor at offset + 8 |
| Pe.ParseCoffBack | src/parser/pe.ts:46-49 | the last four COFF rows as specified, the cursor at offset + 20, SizeOfOptionalHeader in the memo |
| Pe.ParseOptLinker | src/parser/pe.ts:57-60 | the rows Magic to SizeOfCode as specified |
| Pe.ParseOptData | src/parser/pe.ts:61-63 | the rows SizeOfInitializedData to AddressOfEntryPoint as specified |
| Pe.ParseOptBases | src/parser/pe.ts:64-65 | the rows BaseOfCode and BaseOfData as specified |
| Pe.ParseOptAlignment | src/parser/pe.ts:67-69 | the three alignment rows with their descriptions, as specified |
| Pe.ParseOptSystemVersions | src/parser/pe.ts:70-72 | the three version rows with their descriptions, as specified |
| Pe.ParseOptImageVersions | src/parser/pe.ts:73-75 | the three version rows with their descriptions, as specified |
| Pe.ParseOptSizes | src/parser/pe.ts:76-80 | the rows Win32VersionValue to CheckSum with their descriptions, as specified |
| Pe.ParseOptStack | src/parser/pe.ts:81-84 | the rows Subsystem to SizeOfStackCommit with their descriptions, as specified |
| Pe.ParseOptHeap | src/parser/pe.ts:85-88 | the rows SizeOfHeapReserve to NumberOfRvaAndSizes with their descriptions, as specified |
| Pe.ParseOptFront | src/parser/pe.ts:57-65 | the first nine optional rows as specified |
| Pe.ParseOptMiddle | src/parser/pe.ts:67-77 | the middle nine optional rows as specified |
| Pe.ParseOptBack | src/parser/pe.ts:79-88 | the last twelve optional rows as specified |
| Pe.ParseCoff | src/parser/pe.ts:40-52 | `parseCOFF` returns the COFF region as specified, with the cursor at offset + 20 |
| Pe.ParseOptRows | src/parser/pe.ts:56-90 | the thirty optional rows as specified |
| Pe.ParseOptionalHeader | src/parser/pe.ts:54-92 | `parseOptionalHeader` returns the optional header as specified |
| Pe.ParseHeaders | src/parser/pe.ts:29-35 | the COFF header, then the optional header when SizeOfOptionalHeader is positive, as specified |
| Pe.ParseDocumented | src/parser/pe.ts:10-38 | `parse` with given row descriptions returns the specified regions |
| Pe.Parse | src/parser/pe.ts:10-38 | `parse` returns the specified regions, which the layout lemmas describe |
| Gz.IsSupportedFile | src/parser/gz.ts:4-6 | a buffer of at least two bytes is accepted exactly when it starts with `1F 8B`; a shorter one makes the check throw a range error |
| Gz.ExtraField | src/parser/gz.ts:95-99 | one extra subfield starts at the cursor and spans at least its four header bytes |
| Gz.ThenNil | src/parser/gz.ts:54-85 | nothing put in front of an outcome leaves it unchanged |
| Gz.ThenThen | src/parser/gz.ts:54-85 | putting two runs of regions in front, one after the other, is putting their concatenation in front |
| Gz.LayoutIs | src/parser/gz.ts:47-88 | `parse` is one `gzip` compound holding the fixed header, the optional parts and the trailer, from the first child's start to the last child's end |
| Gz.ParseFixedHeader | src/parser/gz.ts:48-54 | the six fixed rows as specified, the cursor at 10 |
| Gz.ParseExtraField | src/parser/gz.ts:95-99 | one subfield SI, LEN, content as specified, the cursor at its end |
| Gz.ParseExtraContent | src/parser/gz.ts:91-103 | the loop returns the subfields read while the position is below its start plus `len`, as specified |
| Gz.ParseExtraPart | src/parser/gz.ts:58-67 | the FEXTRA block when bit 4 is set: XLEN and its subfields under an `ExtraFields` compound ending where they stop |
| Gz.ParseStringPart | src/parser/gz.ts:69-75 | the FNAME or FCOMMENT block: a zero-terminated string when its bit is set, nothing otherwise |
| Gz.ParseHeaderCrc | src/parser/gz.ts:77-79 | the header CRC block as written: two bytes read when bit 1 is set |
| Gz.ParseTrailer | src/parser/gz.ts:81-85 | the compressed data up to eight bytes before the end, then CRC32 and ISIZE, as specified |
| Gz.Parse | src/parser/gz.ts:8-89 | `parse` returns the regions specified for the code as written |
| Gz.OneByte | src/parser/gz.ts:56 | one byte read little-endian is that byte, so `Number(flag.numValue)` is the flag byte |
| Gz.FixedHeaderLayout | src/parser/gz.ts:48-54 | the fixed header reads exactly when the buffer has ten bytes, otherwise fails with a read past the end; its rows cover [0,2), 2, 3, [4,8), 8, 9 and the flags are byte 3 |
| Gz.ExtraFieldLayout | src/parser/gz.ts:95-99 | a subfield reads exactly when its four header bytes lie in the buffer; SI, LEN and a content of LEN bytes follow each other |
| Gz.ExtraFieldsChain | src/parser/gz.ts:91-103 | the subfield walk reads each field where the previous one ended and stops at or past its end; it reads nothing exactly when it starts at or past the end |
| Gz.StringPartSpan | src/parser/gz.ts:69-75 | a set FNAME or FCOMMENT bit yields one string region from the cursor through the first zero byte, or one past the end of the buffer when there is none |
| Gz.TrailerLayout | src/parser/gz.ts:81-85 | CRC32 and ISIZE are the last eight bytes, read little-endian, and the compressed data runs from the cursor to eight bytes before the end |
| Gz.LayoutSpan | src/parser/gz.ts:87-88 | a decoded file is one `gzip` region over the whole buffer, starting with the signature and ending with the compressed data, CRC32 and ISIZE |
| Gz.HeaderCrcSkipped | src/parser/gz.ts:77-79 | as written, a file whose only flag is FHCRC gets no FHCRC region: its compressed data starts at 10 |
| Gz.TextFlagReadsCrc | src/parser/gz.ts:77-79 | as written, a file whose only flag is FTEXT has its first two bytes of compressed data read as a header CRC |
| Gz.CorrectedHeaderCrcRead | src/parser/gz.ts:77-79 | gated on FHCRC, an FHCRC-only file gets its header CRC at [10, 12) and its compressed data after it |
| Gz.CorrectedHeaderCrcGate | src/parser/gz.ts:77-79 | gated on FHCRC, the header CRC is read exactly when bit 2 is set, as the two bytes where the optional parts stopped |
| Mp3.TagLength | src/parser/mp3.ts:26-30 | the tag size is read only from a buffer of at least ten bytes |
| Mp3.FrameHeader | src/parser/mp3.ts:47-49 | a frame header's Size is a non-negative number |
| Mp3.FrameAt | src/parser/mp3.ts:44-59 | a frame that lets the loop go on has a positive size and starts where the loop stands |
| Mp3.WalkStep | src/parser/mp3.ts:43-60 | one turn of the frame loop: a failed read ends the walk with its error, a frame of size 0 stops it, any other frame joins the list and the walk goes on at `pos + size + 10` |
| Mp3.SyncsafeOfBytes | src/parser/mp3.ts:26-30 | a size below 2^28 written as four seven-bit groups reads back as itself |
| Mp3.BytesOfSyncsafe | src/parser/mp3.ts:26-30 | four bytes below 128 read as a size below 2^28, and writing that size out gives the bytes back |
| Mp3.TagLengthLayout | src/parser/mp3.ts:26-30 | the tag size is read exactly when the buffer has ten bytes, otherwise fails with a read past the end, as the syncsafe value of bytes 6 to 9 |
| Mp3.TagHeaderLayout | src/parser/mp3.ts:31-39 | the tag header covers [0, 10): FileID [0, 3), the one-byte MajorVersion, RevisionNumber and Flags, and TagSize [6, 10) holding the decoded tag size |
| Mp3.FrameHeaderLayout | src/parser/mp3.ts:47-49 | a frame header reads exactly when its ten bytes lie in the buffer: ID the text of four bytes, Size and Flags big-endian numbers of four and two bytes |
| Mp3.FrameAtLayout | src/parser/mp3.ts:43-60 | a frame whose Size bytes are zero stops the loop; any other is the `Frame` compound at `pos` labelled with its ID and content text, holding ID, Size, Flags and the content regions, and fails exactly when its content fails |
| Mp3.OtherContentLayout | src/parser/mp3.ts:68-94 | TXXX and every frame whose ID does not start with T is one Content region over its bytes, with no text |
| Mp3.TextContentOutcome | src/parser/mp3.ts:70-89 | a text frame fails with a read past the end when its encoding byte lies outside the buffer, with a range error when encoding 1 lacks its two byte order mark bytes, and decodes otherwise |
| Mp3.LatinContentLayout | src/parser/mp3.ts:83-88 | an encoding other than 1 is labelled ISO-8859-1 and the rest of the frame is one Text region whose decoded text labels the frame |
| Mp3.UnicodeContentLayout | src/parser/mp3.ts:74-82 | encoding 1 is labelled unicode; the byte order mark is two bytes and the text after it is decoded as UTF-16LE exactly when the mark is FF FE, else as UTF-16BE, with its trailing NULs trimmed |
| Mp3.WalkChain | src/parser/mp3.ts:43-60 | what the frame loop returns is exactly the chain of frames each read where the previous one ended, up to the first stop or the end of the tag |
| Mp3.WalkPositions | src/parser/mp3.ts:43-60 | frames the loop reads start inside the tag, in increasing order, each more than ten bytes after the last |
| Mp3.FramesLayout | src/parser/mp3.ts:43-60 | the ID3v2 frames read from byte 10 start inside the tag in increasing order, each where the frame read at that position says |
| Mp3.Mp3Outcome | src/parser/mp3.ts:10-63 | `parse` throws a range error under three bytes, finds nothing without `ID3`, fails under ten bytes with `ID3`, and otherwise yields one ID3v2 region over [0, size + 10) holding the tag header and the frames from byte 10 |
| Mp3.ParseTagHeader | src/parser/mp3.ts:31-39 | the tag header as specified, the cursor at 10, and the tag size written into the cached TagSize region |
| Mp3.ParseUnicodeText | src/parser/mp3.ts:74-82 | the encoding-1 branch as specified, leaving the frame's cached ID and the memo unchanged |
| Mp3.ParseLatinText | src/parser/mp3.ts:83-88 | the other-encoding branch as specified, leaving the frame's cached ID and the memo unchanged |
| Mp3.ParseFrameContent | src/parser/mp3.ts:65-97 | `parseId3v2FrameContent` as specified, keeping the frame's ID in the cache and its Size in the memo |
| Mp3.ParseFrameHeader | src/parser/mp3.ts:47-49 | the frame header as specified, with its Size in the memo and its ID in the cache |
| Mp3.ParseFrame | src/parser/mp3.ts:44-58 | one turn of the loop as specified, the frame size in the memo when it goes on |
| Mp3.ParseFrames | src/parser/mp3.ts:43-60 | the loop returns the frames the walk specifies |
| Mp3.ReadTagLength | src/parser/mp3.ts:26-30 | the four size bytes, each read on its own, give the specified tag size |
| Mp3.ParseId3v2 | src/parser/mp3.ts:22-63 | `parseID3v2` returns the ID3v2 region as specified |
| Mp3.Parse | src/parser/mp3.ts:10-20 | `parse` returns the specified regions |
| Riff.ChunkAt | src/parser/riff.ts:21-31 | a chunk that reads spans from its offset over its declared size plus the eight header bytes |
| Riff.ChunksOf | src/parser/riff.ts:18-37 | the function value the decoder's methods carry is the chunk walk of the buffer |
| Riff.ChunkAtOf | src/parser/riff.ts:21-31 | a chunk fails with the Size row's error or its content's error, and otherwise is the `Trunk` compound over `[pos, pos + size + 8)` holding FourCC, Size and the content, with the trimmed tag as its text and the content's form type after it |
| Riff.JoinNil | src/parser/riff.ts:29 | nothing in front of a walk leaves it unchanged |
| Riff.JoinJoin | src/parser/riff.ts:29 | putting two runs of regions in front, one after the other, is putting their concatenation in front |
| Riff.SizeRow | src/parser/riff.ts:24 | the Size row reads exactly when the chunk's eight header bytes lie in the buffer, and then holds the little-endian number at `pos + 4` |
| Riff.ChunkHeaderLayout | src/parser/riff.ts:21-30 | a chunk reads only when its eight header bytes lie in the buffer; it starts with FourCC and Size, its size is the little-endian number at `pos + 4`, and its text is the trimmed FourCC |
| Riff.ChunksTile | src/parser/riff.ts:18-37 | the chunks of a walk that succeeds are laid end to end from its start to the end of the buffer |
| Riff.TiledSteps | src/parser/riff.ts:20-35 | chunks laid end to end, stated chunk by chunk: the first starts at the walk's start, each next one where the one before ends, each starts inside the buffer and spans at least eight bytes, and the last ends at or past the end of the buffer |
| Riff.NestedLayout | src/parser/riff.ts:40-64 | a RIFF or LIST chunk holds its four-character name, then chunks laid end to end up to the end of the buffer; its declared size plays no part |
| Riff.WaveHeadLayout | src/parser/riff.ts:49-51 | formatTag, channels and samplesPerSecond read exactly when their eight bytes lie in the buffer, and then tile them |
| Riff.WaveTailLayout | src/parser/riff.ts:52-54 | avgBytesPerSecond, blockAlign and bitsPerSample read exactly when their eight bytes lie in the buffer, and then tile them |
| Riff.WaveFormatLayout | src/parser/riff.ts:47-55 | a WAVE `fmt` chunk reads exactly when its sixteen bytes lie in the buffer and then yields six little-endian numbers of widths 2, 2, 4, 4, 2, 2 laid end to end |
| Riff.ChunksEnd | src/parser/riff.ts:20 | at or past the end of the buffer the walk yields nothing and keeps the form type |
| Riff.ChunksStep | src/parser/riff.ts:20-35 | the walk at a position inside the buffer is the chunk read there followed by the walk from its end |
| Riff.AfterIsContinue | src/parser/riff.ts:32-34 | the walk after a chunk, stated over the chunk walk's function value, is the same walk |
| Riff.RiffParser.constructor | src/parser/riff.ts:5 | a new decoder's form type is empty |
| Riff.RiffParser.Parse | src/parser/riff.ts:11-16 | `parse` returns the chunks from byte 0 under the form type the decoder held, and leaves the decoder holding the form type that walk ends with |
| Riff.RiffParser.ParseChunks | src/parser/riff.ts:18-37 | `parseChunks` returns the chunk walk from `offset` and leaves its form type in the field |
| Riff.RiffParser.ParseChunk | src/parser/riff.ts:21-34 | one turn of the loop: the walk from `pos` is this chunk followed by the walk from its end, and the field holds the form type after it |
| Riff.RiffParser.ParseContent | src/parser/riff.ts:39-70 | `parseContent` returns the content the trimmed tag and the current form type select, and a RIFF chunk sets the form type |
| Riff.ParseChunkHeader | src/parser/riff.ts:21-27 | the empty `Trunk` compound at `pos`, FourCC and Size as specified, and the FourCC text trimmed |
| Riff.ParseWaveFormat | src/parser/riff.ts:48-55 | the six `fmt` numbers as specified |
| Riff.ParseWaveHead | src/parser/riff.ts:49-51 | the first three `fmt` numbers as specified, the cursor eight bytes on |
| Riff.ParseWaveTail | src/parser/riff.ts:52-54 | the last three `fmt` numbers as specified |
| Mp4.BoxAt | src/parser/mp4.ts:26-61 | a box that reads is a `Box` compound starting at its offset |
| Mp4.HeaderLayout | src/parser/mp4.ts:29-40 | Size is the big-endian number at the box start and Type the four bytes after it; Size 0 adds LargeSize and makes it the length, Size 1 gives the rest of the buffer, any other Size is the length; the header fails exactly when Size, or a needed LargeSize, leaves the buffer |
| Mp4.HeaderEndLayout | src/parser/mp4.ts:44-53 | the header rows end 8 bytes after the box start, 16 with LargeSize, and a `uuid` box adds UserType, 16 bytes more, where they end |
| Mp4.BrandsLayout | src/parser/mp4.ts:68-70 | the brand loop yields one four-byte Brand per started group of four bytes between 8 and the length, brand k at `offset + 8 + 4k` |
| Mp4.FileTypePayloadAt | src/parser/mp4.ts:53-64 | an `ftyp` box with a plain header reads its MajorBrand at `2 * offset + 8`, because the absolute header end is added to the offset again, while the box still spans `[offset, offset + length)` |
| Mp4.ZeroLength | src/parser/mp4.ts:33-59 | a box claims length 0, and would stall the loop, exactly when Size and LargeSize are both 0 |
| Mp4.BoxesTile | src/parser/mp4.ts:16-21 | the boxes of a successful decode follow each other without gap from 0 to the end of the buffer |
| Mp4.StalledWalk | src/parser/mp4.ts:16-21 | a box of length 0 makes the decode diverge, and then its Size bytes are zero |
| Mp4.Parse | src/parser/mp4.ts:9-24 | `parse` returns the `Boxes` compound holding the boxes as specified, or the error that stops the loop |
| Mp4.ParseBoxes | src/parser/mp4.ts:16-21 | the box loop returns the specified boxes, each starting where the one before ends |
| Mp4.ParseBoxHeader | src/parser/mp4.ts:29-40 | Size, Type and, for Size 0, LargeSize as specified, the cursor where the rows end |
| Mp4.ParseBox | src/parser/mp4.ts:26-61 | `parseBox` returns the specified box |
| Mp4.ParseHeaderRows | src/parser/mp4.ts:27-47 | the header rows as specified, with UserType in a `uuid` box |
| Mp4.ParsePayload | src/parser/mp4.ts:49-57 | the payload as specified: the `ftyp` rows for an `ftyp` box, nothing for any other type |
| Mp4.ParseBrand | src/parser/mp4.ts:69 | one four-byte Brand at the given position |
| Mp4.ParseFileTypeBox | src/parser/mp4.ts:63-72 | `parseFileTypeBox` returns MajorBrand, MinorVersion and the CompatibleBrands compound as specified |
| Mp4.ParseBrands | src/parser/mp4.ts:68-70 | the brand loop returns the specified brands |
| Png.ChunkAt | src/parser/png.ts:17-25 | a chunk that reads starts where the loop stands and spans at least its twelve bytes of Length, Type and CRC |
| Png.SnifferAccepts | src/parser/png.ts:6-8 | the extension `png` is accepted without looking at the buffer; otherwise exactly a buffer starting with the eight signature bytes is accepted, and one shorter than them makes the check throw |
| Png.SignatureLeads | src/parser/png.ts:11-15 | `parse` throws a range error on a buffer shorter than the signature and a content mismatch on other bytes; a decoded file starts with the signature span [0, 8) |
| Png.KeyEndFacts | src/parser/png.ts:46-47 | the key scan stops at the first 0 byte at or after its start, or at the end of the data, and passes no 0 byte |
| Png.TextDataLayout | src/parser/png.ts:43-54 | a tEXt chunk: the key holds no 0 byte and ends at the first 0 or the end of the data, the separator is one byte, the value runs to the end of the data, and the text of the whole is key, `:` and value |
| Png.ImageHeaderLayout | src/parser/png.ts:31-42 | IHDR reads exactly when its 13 bytes lie in the data: Width and Height of four bytes and five single-byte numbers, in order |
| Png.ChunkLayout | src/parser/png.ts:17-25 | Length is the big-endian number at the chunk start and Type the four bytes after it; a decoded chunk spans `[pos, pos + 12 + Length)` inside the buffer, carries its type as text and ends with the CRC number in its last four bytes |
| Png.ShortHeaderFails | src/parser/png.ts:20-41 | the data decoder sees the buffer only up to the end of the chunk's data, so an IHDR chunk with a Length below 13 fails even when the bytes after it exist |
| Png.ChunksTile | src/parser/png.ts:16-26 | the chunks of a decoded file cover the buffer from byte 8 exactly, chunk after chunk |
| Png.ChunkAtFails | src/parser/png.ts:20-21 | a chunk whose data or CRC cannot be read fails with that error |
| Png.ChunkAtOf | src/parser/png.ts:17-24 | a chunk whose tail reads is the `trunk` compound over `[pos, pos + 12 + Length)` holding Length, Type and the tail, with its type as text |
| Png.ChunkTailFails | src/parser/png.ts:20 | a chunk tail fails with the data decoder's error |
| Png.ChunkTailOf | src/parser/png.ts:20-21 | a chunk tail whose data reads is the data then the CRC, or the CRC's error |
| Png.Parse | src/parser/png.ts:10-28 | `parse` returns the specified regions or error |
| Png.ParseChunks | src/parser/png.ts:16-26 | the chunk loop returns the chunks from byte 8 as specified |
| Png.ParseChunkHeader | src/parser/png.ts:18-19 | Length and Type as specified; the memo holds the length and the cache the type |
| Png.ParseChunk | src/parser/png.ts:17-25 | one turn of the loop returns the specified chunk and leaves the cursor at its end |
| Png.ParseChunkTail | src/parser/png.ts:20-21 | the data read by a cursor forked over Length bytes, then the CRC, as specified, the cursor at the chunk end, the cached type kept |
| Png.ParseTrunkData | src/parser/png.ts:30-58 | `parseTrunkData` returns the IHDR rows, the tEXt compound or one Data span, as specified |
| Png.ParseImageHeader | src/parser/png.ts:32-42 | the seven IHDR numbers as specified |
| Png.ParseDimensions | src/parser/png.ts:34-35 | Width and Height as specified, the cursor eight bytes on |
| Png.ParseDepthAndColor | src/parser/png.ts:36-37 | Bit depth and Color type as specified, the cursor ten bytes on |
| Png.ParseMethods | src/parser/png.ts:38-40 | the three method bytes as specified |
| Png.ScanKey | src/parser/png.ts:46-47 | the key scan loop stops where the key ends as specified |
| Png.ParseTextData | src/parser/png.ts:43-54 | the tEXt compound as specified |
| Png.ParseKey | src/parser/png.ts:49-50 | the key up to its end and the one-byte separator after it, the key in the cache |
| Jpg.ScanEnd | src/parser/jpg.ts:38-42 | the scan loop never moves backwards |
| Jpg.SegmentAt | src/parser/jpg.ts:33-50 | a segment that reads starts at its marker and spans at least the two marker bytes |
| Jpg.Span | src/parser/jpg.ts:35-45 | a segment's span starts at its marker and covers at least the marker |
| Jpg.MarkerAt | src/parser/jpg.ts:18-51 | the region of a marker starts where the loop stands and spans at least the two marker bytes, so the loop always moves on |
| Jpg.SnifferAccepts | src/parser/jpg.ts:6-8 | the extension `jpg` is accepted without looking at the buffer; otherwise exactly a buffer starting with `FF D8` is accepted, and one under two bytes makes the check throw |
| Jpg.ScanEndFacts | src/parser/jpg.ts:38-42 | the scan loop stops at the first FF followed by a byte that is neither a stuffed 00 nor a restart marker D0-D7, or at the last byte when there is none, and passes no such pair |
| Jpg.SpanLayout | src/parser/jpg.ts:33-45 | a segment holds Marker, Length and Data, the data ending Length bytes after the Length field (the end of the buffer for Length 1); a Start Of Scan segment adds Scan Data up to where the scan loop stops |
| Jpg.SegmentLayout | src/parser/jpg.ts:33-50 | a segment reads exactly when its Length field lies in the buffer; Length is the big-endian number there and the segment is its span labelled with its marker and length |
| Jpg.SegmentsTile | src/parser/jpg.ts:17-52 | the markers of a decoded file follow each other without gap, each on an FF byte and each at least two bytes long |
| Jpg.JpgLayout | src/parser/jpg.ts:10-54 | a decoded file starts with `FF D8`, has the Start Of Image span [0, 2) first and then the markers from byte 2 on, laid end to end |
| Jpg.Parse | src/parser/jpg.ts:10-54 | `parse` returns the specified regions or error |
| Jpg.ParseSegments | src/parser/jpg.ts:17-52 | the marker loop returns the markers from byte 2 as specified, stopping at the first byte that is not FF |
| Jpg.ParseMarker | src/parser/jpg.ts:26-51 | one turn of the loop returns the End Of Image or Restart marker or the segment, as specified, the cursor at its end |
| Jpg.ParseSegment | src/parser/jpg.ts:33-50 | one segment as specified, the cursor at its end |
| Jpg.SegmentOf | src/parser/jpg.ts:33-50 | a segment whose Length row reads is its span labelled with its marker and length |
| Jpg.ParseSpan | src/parser/jpg.ts:35-46 | the compound over marker, Length and Data, stretched over the scan data of a Start Of Scan segment, as specified, the cursor at its end |
| Jpg.ParseLengthAndData | src/parser/jpg.ts:33-34 | the Length row at `pos + 2` and the Data span of Length - 2 bytes after it |
| Jpg.ScanMarker | src/parser/jpg.ts:38-42 | the scan loop returns where the scan data ends as specified |
| Ico.MemoUnsigned | src/parser/ico.ts:34-36 | the numbers the directory leaves in the memo are unsigned reads, width and height below 256 as stored |
| Ico.ReaderReadsEntries | src/parser/ico.ts:19-37 | the reader the loop uses reads the directory entry at every offset |
| Ico.Entries | src/parser/ico.ts:19-37 | after `k` turns of the loop there are `k` directories and `k` images |
| Ico.EntriesStep | src/parser/ico.ts:35-36 | each turn appends its directory to the directories and its image to the images |
| Ico.EntriesFail | src/parser/ico.ts:19-37 | the loop fails with the error of its first failing turn |
| Ico.ParseDirSize | src/parser/ico.ts:24-25 | width and height as specified, both stored numbers in the memo |
| Ico.ParseDirPalette | src/parser/ico.ts:26-27 | paletteNumber and reserved as specified, the memo's width and height kept |
| Ico.ParseDirPlanes | src/parser/ico.ts:28-29 | planes and bits as specified, the bit count in the memo |
| Ico.ParseDirData | src/parser/ico.ts:30-31 | size and offset as specified, both in the memo |
| Ico.ParseDirFront | src/parser/ico.ts:24-27 | the first four directory rows as specified, width and height in the memo |
| Ico.ParseDirBack | src/parser/ico.ts:28-31 | the last four directory rows as specified, bits, size and offset in the memo |
| Ico.ParseDirFields | src/parser/ico.ts:23-32 | the eight directory rows as specified, leaving their numbers in the memo |
| Ico.ParseDirectory | src/parser/ico.ts:20-36 | one turn of the loop returns the directory with its description and its image, as specified, the count in the memo kept |
| Ico.ParseEntry | src/parser/ico.ts:19-37 | turn i of the loop reads the directory at 6 + 16i |
| Ico.ParseEntries | src/parser/ico.ts:19-37 | the loop returns the specified directories and images, its bound re-read from the memo each turn |
| Ico.ParseHead | src/parser/ico.ts:13-14 | the signature and the image count as specified, the count in the memo |
| Ico.ParseBody | src/parser/ico.ts:15-37 | the `iconDirectories` and `images` compounds filled by the loop, as specified |
| Ico.Parse | src/parser/ico.ts:9-45 | `parse` returns the specified four regions or error |
| Ico.DirFrontFacts | src/parser/ico.ts:24-27 | the first four rows read exactly when their four bytes lie in the buffer; width and height read a stored 0 as 256 |
| Ico.DirBackFacts | src/parser/ico.ts:28-31 | the last four rows read exactly when bytes up to `pos + 16` lie in the buffer, with bits, size and offset little-endian |
| Ico.EntryOk | src/parser/ico.ts:20-36 | a directory reads exactly when its 16 bytes lie in the buffer |
| Ico.EntryFacts | src/parser/ico.ts:20-36 | a directory that reads has eight rows of widths 1, 1, 1, 1, 2, 2, 4, 4 over its 16 bytes, width and height 0 read as 256 while the description shows the stored numbers, and its image spans `size` bytes at `offset` |
| Ico.RowFacts | src/parser/ico.ts:19-37 | turn i reads exactly when directory i lies in the buffer, and then carries those facts |
| Ico.EntriesOkIff | src/parser/ico.ts:19-37 | the loop reads completely exactly when each turn does, and then holds the directory and image of turn i at index i |
| Ico.BodyLayout | src/parser/ico.ts:15-37 | `n` directories read exactly when their 16n bytes from 6 lie in the buffer; `iconDirectories` spans them and holds directory i, at 6 + 16i, with its image at index i of `images` |
| Ico.HeadOk | src/parser/ico.ts:13-14 | the head reads exactly when the buffer starts with `00 00 01 00` and holds the count, read little-endian from bytes 4 to 6 |
| Ico.IcoLayout | src/parser/ico.ts:9-45 | `parse` succeeds exactly when the buffer starts with `00 00 01 00` and holds the count and all its directories; it returns the signature, the count, the directories with the i-th at 6 + 16i, and their images in the same order |
| Ttf.ParseEntryHead | src/parser/ttf.ts:37-38 | tag and checksum as specified, the tag in the cache, the table count in the memo kept |
| Ttf.ParseEntryTail | src/parser/ttf.ts:39-40 | offset, typed as a pointer, and length, typed as a size, as specified, the cached tag kept |
| Ttf.ParseTableDirectory | src/parser/ttf.ts:34-44 | `parseTableDirectory` returns the specified entry, labelled with its tag |
| Ttf.EntryRow | src/parser/ttf.ts:25 | entry i of the directory is the entry read at 12 + 16i |
| Ttf.ParseEntry | src/parser/ttf.ts:25 | entry i as specified, the table count in the memo kept |
| Ttf.ParseEntries | src/parser/ttf.ts:24-26 | the loop returns the `numTables` specified entries, its bound re-read from the memo each turn |
| Ttf.ParseSubTableCounts | src/parser/ttf.ts:15-16 | scalarType and numTables as specified, the table count big-endian in the memo |
| Ttf.ParseSubTableSearch | src/parser/ttf.ts:17-19 | searchRange, entrySelector and rangeShift as specified |
| Ttf.ParseOffsetSubTable | src/parser/ttf.ts:13-20 | the offset subtable as specified, the table count in the memo |
| Ttf.ParseDirectory | src/parser/ttf.ts:22-26 | the table directory compound filled by the loop, as specified |
| Ttf.Parse | src/parser/ttf.ts:9-32 | `parse` returns the specified two regions or error |
| Ttf.TableInfoOk | src/parser/ttf.ts:34-44 | an entry reads exactly when its 16 bytes lie in the buffer |
| Ttf.TableInfoEntry | src/parser/ttf.ts:34-44 | an entry that reads spans its 16 bytes in four 4-byte rows: the tag as text, which labels the entry, the checksum, the offset as a pointer and the length as a size, each big-endian |
| Ttf.EntryRowFacts | src/parser/ttf.ts:24-26 | entry i reads exactly when its 16 bytes from 12 + 16i lie in the buffer, and then carries those facts |
| Ttf.DirectoryLayout | src/parser/ttf.ts:22-26 | a directory of n entries reads exactly when it is empty or its 16n bytes from 12 lie in the buffer; it spans [12, 12 + 16n) and holds entry i, read at 12 + 16i, at index i |
| Ttf.TtfLayout | src/parser/ttf.ts:9-32 | `parse` succeeds exactly when the offset subtable and all `numTables` entries lie in the buffer; the subtable spans [0, 12) and holds the count, the directory spans [12, 12 + 16 numTables) with entry i at 12 + 16i |
| Ttf.HeadOk | src/parser/ttf.ts:13-20 | the offset subtable reads exactly when the buffer holds 12 bytes, and holds the table count read big-endian from bytes 4 to 6 |
| Bdp.ExtensionFacts | src/bdp.ts:32 | the extension holds no dot and no upper-case ASCII letter, and is the lower-cased tail of the file name after its last dot, all of it when there is none |
| Bdp.SelectFirst | src/bdp.ts:37-43 | the loop picks the first id whose sniffer accepts after every id before it declined, finds none exactly when every sniffer declines, and throws the exception of the first sniffer that throws after every id before it declined |
| Bdp.ForcedType | src/bdp.ts:34-60 | `parse` with a forced type hands back its buffer and never throws; it gives the regions of that decoder when it is registered and succeeds, and none otherwise |
| Bdp.SnifferEscapes | src/bdp.ts:37-43 | as written, a one-byte file named `a.txt` makes `parse` throw, because the zip sniffer, second in line, reads four bytes outside the `try` |
| Bdp.CorrectedNeverThrows | src/bdp.ts:37-60 | with the sniffing loop inside the guard, `parse` never throws and hands back its buffer; it agrees with the written dispatcher whenever that does not throw, and gives no regions when it would |
| Bdp.Registry.constructor | src/bdp.ts:13-15 | the module loads with no decoder registered |
| Bdp.Registry.Init | src/bdp.ts:17-29 | `init` registers the ten decoders under ico, zip, pe, riff, ttf, mp3, mp4, ber, png, jpg in that order, returns those keys, and the RIFF decoder starts with an empty form type |
| Bdp.Registry.Parse | src/bdp.ts:31-61 | `parse` returns what the dispatcher specifies for the registered ids and the decoders' outcomes on the buffer; the one RIFF decoder keeps its form type unless RIFF is chosen, and a successful RIFF walk leaves it holding the form type that walk ends with |
| Bdp.Registry.Choose | src/bdp.ts:32-44 | the forced id, or the first registered id whose sniffer accepts, or the exception a sniffer throws, as specified |
| Bdp.Registry.Run | src/bdp.ts:51 | the chosen decoder's `parse` outcome on the buffer, the RIFF decoder starting from the form type it held and, when it succeeds, holding the one its walk ends with; any other decoder leaves the RIFF form type as it was |
| Util.JsObject.constructor | src/util.ts:11 | the object literal `{}` has no properties |
| Util.Snapshot | src/util.ts:1-16 | the property maps of the caller's objects, taken as a value, cover exactly those objects |
| Util.WalkStarts | src/util.ts:3 | before the first step nothing has been walked and the walk ends as the untouched heap predicts |
| Util.StuckChangesNothing | src/util.ts:10-13 | meeting a primitive before the walk is finished is the outcome the untouched heap predicts, and nothing has changed |
| Util.FinishedNotStuck | src/util.ts:3-14 | a walk that took every step did not get stuck, and it ends on a primitive exactly when the untouched heap predicts so |
| Util.FoundKeyAdvances | src/util.ts:10-13 | a step that finds its key moves to the object the key holds and changes nothing |
| Util.AddedToWorld | src/util.ts:10-13 | `{}` added at a missing key of an object the walk has not changed keeps the walk's record and moves it to the new object |
| Util.AddedToFresh | src/util.ts:10-13 | `{}` added to the empty object made at the previous step keeps the walk's record and moves it to the new object |
| Util.AddEmpty | src/util.ts:11 | `obj[k] = {}` puts a fresh empty object at `k` and changes no other property |
| Util.Advance | src/util.ts:10-13 | one intermediate step reuses the object at a present key or creates `{}` at a missing one, and then stands on it, throwing when a present key holds a primitive |
| Util.WalkPath | src/util.ts:3-14 | the loop over every key but the last throws exactly when the walk the untouched heap predicts gets stuck, and then changes nothing |
| Util.AssignedPath | src/util.ts:5-8 | after the final assignment the last object of the walk holds the value at the last key and every other key leads to the next object of the walk |
| Util.AssignedFrame | src/util.ts:5-8 | the final assignment leaves objects off the path untouched, keeps every existing property except the final one, and adds only path keys on path objects |
| Util.AssignLast | src/util.ts:5-8 | `obj[k] = value` at the end of the walk: the value lands at the last key, the path keys lead to the next objects, and nothing else changes |
| Util.Settled | src/util.ts:1-16 | a call that did not throw, stated against the heap on entry: reused keys held the next object, created objects hold only their key, untouched objects keep their properties |
| Util.SetValue | src/util.ts:1-16 | a falsy root or no keys changes nothing; the call throws exactly when the walk meets a primitive, and then changes nothing; otherwise the value lands at the last key, present objects are reused, missing ones are created as `{}`, and nothing else changes |

## Left out

- **Which util module pe.ts and mp3.ts use.** src/parser/pe.ts:3 and src/parser/mp3.ts:3
  import `./util.js`, that is src/parser/util.ts. That file has no `checkContent` and no
  `parseFixedLengthString`, yet pe.ts:16, mp3.ts:15, mp3.ts:77 and mp3.ts:79 call them.
  `Pe` and `Mp3` use the versions in src/parser/common/util.ts (`CommonUtil.CheckContent`,
  `CommonUtil.ParseFixedLengthString`) as the functions those calls evidently mean.
- **Mixed cursor classes.** png.ts and jpg.ts call `createRegion` and `p.num` on `Helper`,
  which has neither. pe.ts, mp3.ts and mp4.ts import `ParseHelper` from `./parser.js`. All
  five decoders are modelled over `CommonParser.ParseHelper`, whose `createRegion` is that
  of src/parser/common/parser.ts:52-98.
- **Value and flag definitions.** `createNumberRegion` and `createFlagRegion` store a
  `valueDefinition` or `flagDefinition` on the region (src/parser/parser.ts:115-129). gz
  passes `cmDef`, `flagDef`, `extraFlagDef` and `osDef` (src/parser/gz.ts:12-53). These
  are display tables for the user interface. `Dom.Region` has no field for them, and
  `Parser.GetValueDefinition` is not connected to any region.
- **Text decoding.** `TextDecoder` is the parameter `text`, and no property of it is
  assumed. The `textEncoding` of `Helper` is passed to it as given.
- **Lower-casing.** `Bdp.Extension` lower-cases ASCII letters only. JavaScript's
  `toLowerCase` also maps other upper-case letters, which no registered sniffer compares
  against.
- **Number precision.** `Number(bigint)` is modelled as the exact integer. Loss of
  precision above 2^53 is not modelled.
- **Logging.** Every `console.log` call is dropped: asn.ts:74-77, jpg.ts:22, pbf.ts:71 and
  bdp.ts:40,56. None of them changes a result.
- **JavaScript range errors.** `new Uint8Array(buf, start, len)` throws a RangeError when
  the view leaves the buffer. The model returns an `Err` in that case rather than assuming
  in-bounds input. This is what lets `Bdp.SnifferEscapes` state the escaping exception.
- **The ZIP fetcher cache.** The fetchers first look for decoded records in
  `cd.subRegions` (src/parser/zip.ts:28-39), but nothing ever stores into that array.
  The model therefore starts every fetch at the first central record. The sparse
  `subRegions` arrays of length `cdrecords` are modelled by their length only.
- **Unused helpers.** `parseNullTerminatedString` and `parseLengthPrefixedString` in
  src/parser/common/util.ts:49-63 are not modelled, because no decoder calls them. The
  static copies on `Helper` (src/parser/parser.ts:257-330) are the same computations as
  the functions in `CommonUtil`; they are modelled once, there, and by
  `Parser.NumberRegionSigned` for `parseBigint`.
- **Loops that never end.** An endless loop in the source is reported as `Err(Diverges)`:
  - the ASN.1 indefinite-length scan with no terminator;
  - an MP4 box of length 0;
  - the protobuf walk at the end of the buffer.
  The model does not say how long the source runs or whether it exhausts memory.
- **Sniffers** (`IsSupportedFile` of each decoder). These are predicates, modelled exactly
  as the source computes them. The properties of the PNG, JPEG, ZIP and gzip sniffers are
  stated by lemmas in the table above.
- Bdp.Registry.Parse: when the RIFF decoder is chosen and throws, the form type it holds
  afterwards is not stated, for the reason given for `Riff.RiffParser.Parse`.
- Bdp.Registry.Run: the same gap as `Bdp.Registry.Parse`, for a RIFF decode that throws.
- Riff.RiffParser.Parse: the contract ties the `formType` field to the walk only when the
  walk succeeds. After a throw, the source leaves the field holding the name of the last
  RIFF chunk read before the throw; the model says nothing about the field in that case.
- Mp4.FileTypePayloadAt: the source reads the `ftyp` payload at the box offset plus
  the absolute end of its header (src/parser/mp4.ts:53-56). This is right only for a box at
  offset 0. The model keeps the source's arithmetic, and the lemma states the resulting
  offset.
- **MP4 sizes 0 and 1.** Section 4.2 of ISO/IEC 14496-12 gives these the reverse meanings:
  0 means "to the end of the file" and 1 means "a 64-bit size follows". The model follows
  src/parser/mp4.ts:33-41 as written.
- Util.SetValue: JavaScript values are modelled as integers or objects. Prototype
  chains, getters, setters and frozen objects are not modelled.
- **Out of scope.** These parts are not modelled:
  - the user interface: src/visualizer.ts, src/uiutil.ts and src/app.ts;
  - the build scripts;
  - the type-only files src/parser/dom.ts and src/parser/common/dom.ts, which are mirrored
    by `Dom`;
  - features the source does not implement: ZIP64, PE32+ and section tables, gzip and
    protobuf registration in the dispatcher, and RIFF pad bytes.

## Findings

| source | as written | input that shows it | evidently intended | confidence | as-written member | corrected member |
|---|---|---|---|---|---|---|
| src/parser/gz.ts:77-79 | the two-byte header CRC is read when FLG bit value 1 (FTEXT) is set | a gzip file whose FLG is 0x02 (FHCRC only): no header CRC is read, and its two bytes are taken as compressed data; with FLG 0x01 two bytes of compressed data are read as a CRC | read the header CRC when bit value 2 (FHCRC) is set, as section 2.3.1 of RFC 1952 says | not executed | Gz.HeaderCrcSkipped | Gz.CorrectedHeaderCrcGate |
| src/parser/pbf.ts:35-44 | the message loop runs while the position is below the declared end; at the end of the buffer `parseVarint` reads no byte, so the loop makes no progress | the two bytes `0A 05`: field 1, length-delimited, declaring five bytes the buffer does not hold; the nested walk never ends | stop the walk at the end of the buffer | not executed | Pbf.StuckAtBufferEnd | Pbf.MessagesStop |
| src/bdp.ts:37-43 | the sniffers run before the `try`, so an exception from one escapes `parse` | a one-byte file named `a.txt`: the ICO sniffer declines, and the ZIP sniffer reads four bytes and throws a RangeError | run the sniffers inside the guard, so that `parse` always returns, with an empty region list when nothing can decode | not executed | Bdp.SnifferEscapes | Bdp.CorrectedNeverThrows |
