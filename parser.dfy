/** The `Helper` cursor of src/parser/parser.ts: a read position, an endianness, a default
    text encoding and the most recent region per id (`regionCache`). Each `create*Region`
    resolves the -1 shorthands, carves one region, moves the position to its end and records
    it under its id. */
module Parser {
  import opened Wrappers
  import opened CommonUtil
  import opened Dom
  import Text
  import ParserUtil

  /** The region `createNumberRegion` builds: the span `[p, p+l)` in the given endian, valued
      by `parseBigint`, which throws when the span leaves the buffer. */
  function NumberRegion(buf: seq<byte>, endian: Endian, p: int, l: int, id: string, description: string,
                        signed: bool, kind: Kind): Result<Region>
  {
    var v :- ParseValueSpec(buf, p, p + l, endian == BE, signed);
    Ok(Region(id, kind, description, p, p + l, Some(endian), Some(v), None, None, NoChildren))
  }

  /** A number region exists exactly for an empty span or a span inside the buffer, and it
      covers `[p, p+l)`; otherwise the read throws. */
  lemma NumberRegionSpan(buf: seq<byte>, endian: Endian, p: int, l: int, id: string, description: string,
                         signed: bool, kind: Kind)
    ensures var r := NumberRegion(buf, endian, p, l, id, description, signed, kind);
            && (r.Ok? <==> l == 0 || (0 <= p && 0 < l && p + l <= |buf|))
            && (r.Err? ==> r.error == ReadPastEnd)
            && (r.Ok? ==> r.value.startPos == p && r.value.endPos == p + l && r.value.id == id
                          && r.value.kind == kind && r.value.numValue.Some?)
  {
  }

  /** The unsigned value of a non-empty number region is its bytes read in the cursor's byte
      order (big-endian: the first byte is the most significant), and lies in [0, 256^l). */
  lemma NumberRegionUnsigned(buf: seq<byte>, endian: Endian, p: int, l: int, id: string, description: string,
                             kind: Kind)
    requires 0 <= p && 0 < l && p + l <= |buf|
    ensures var r := NumberRegion(buf, endian, p, l, id, description, false, kind);
            var bs := buf[p..p + l];
            && r.Ok? && r.value.numValue.Some?
            && r.value.numValue.value == (if endian == BE then CommonUtil.BE(bs) else CommonUtil.LE(bs))
            && 0 <= r.value.numValue.value < Pow256(l)
  {
    if endian == BE {
      BEBound(buf[p..p + l]);
    } else {
      LEBound(buf[p..p + l]);
    }
  }

  /** The signed value of a non-empty number region is the two's-complement reading: the unsigned
      value, less 256^l when the most significant byte is at least 128. */
  lemma NumberRegionSigned(buf: seq<byte>, endian: Endian, p: int, l: int, id: string, description: string,
                           kind: Kind)
    requires 0 <= p && 0 < l && p + l <= |buf|
    ensures var s := NumberRegion(buf, endian, p, l, id, description, true, kind);
            var u := NumberRegion(buf, endian, p, l, id, description, false, kind);
            var msb := buf[if endian == BE then p else p + l - 1];
            && s.Ok? && u.Ok? && s.value.numValue.Some? && u.value.numValue.Some?
            && s.value.numValue.value == (if msb >= 128 then u.value.numValue.value - Pow256(l) else u.value.numValue.value)
            && -(Pow256(l) / 2) <= s.value.numValue.value < Pow256(l) / 2
  {
    SignedValue(buf, p, p + l, endian == BE);
    assert p + l - p == l;
  }

  /** The one-byte pattern [0] matches exactly at the 0 bytes of the buffer. */
  lemma MatchZero(buf: seq<byte>, k: int)
    ensures MatchAt(buf, [0], k) <==> 0 <= k < |buf| && buf[k] == 0
  {
    var zero: seq<byte> := [0];
    MatchAtWithin(buf, zero, k);
    assert zero[0] == 0;
  }

  /** The first 0 byte at or after `from` (an index outside the buffer reads `undefined`,
      which is not 0), or -1 when there is none. */
  function FirstZero(buf: seq<byte>, from: int): (r: int)
    ensures r == -1 || (from <= r && 0 <= r < |buf| && buf[r] == 0)
    ensures forall y :: from <= y < |buf| && 0 <= y && (r == -1 || y < r) ==> buf[y] != 0
    decreases |buf| - from
  {
    if from >= |buf| then -1
    else if from >= 0 && buf[from] == 0 then from
    else FirstZero(buf, from + 1)
  }

  /** A forward search for the one-byte pattern [0] finds exactly the first 0 byte. */
  lemma ZeroSearchIsFirstZero(buf: seq<byte>, from: int, index: int)
    requires || (from <= index <= |buf| - 1 && MatchAt(buf, [0], index)
                 && forall k :: from <= k < index ==> !MatchAt(buf, [0], k))
             || (index == -1 && forall k :: from <= k <= |buf| - 1 ==> !MatchAt(buf, [0], k))
    ensures index == FirstZero(buf, from)
  {
    var first := FirstZero(buf, from);
    MatchZero(buf, index);
    if first != -1 {
      MatchZero(buf, first);
    }
  }

  /** Where `createZeroTerminatedStringRegion(p, ..)` ends: one past the first 0 byte at or
      after `p`, or one past the end of the buffer when there is none; a computed length of
      -1 (only for `p` two bytes past the end) reads as "up to the end of the buffer". */
  function ZeroTerminatedEnd(buf: seq<byte>, p: int): int
  {
    var index := FirstZero(buf, p);
    var length := (if index == -1 then |buf| else index) + 1 - p;
    if length == -1 then |buf| else p + length
  }

  /** A zero-terminated string runs through the first 0 byte at or after its start, that
      byte included; with no 0 byte it runs one byte past the buffer (except from two bytes
      past the end, where its length -1 reads as "to the end"). */
  lemma ZeroTerminatedSpan(buf: seq<byte>, p: int)
    ensures forall z :: (p <= z < |buf| && 0 <= z && buf[z] == 0
                         && forall y :: p <= y < z && 0 <= y ==> buf[y] != 0) ==> ZeroTerminatedEnd(buf, p) == z + 1
    ensures (p != |buf| + 2 && forall y :: p <= y < |buf| && 0 <= y ==> buf[y] != 0) ==> ZeroTerminatedEnd(buf, p) == |buf| + 1
  {
    var first := FirstZero(buf, p);
    forall z | p <= z < |buf| && 0 <= z && buf[z] == 0 && forall y :: p <= y < z && 0 <= y ==> buf[y] != 0
      ensures ZeroTerminatedEnd(buf, p) == z + 1
    {
      assert first == z;
    }
  }

  /** The value of a string region: the bytes decoded, cut at the first NUL when asked to. */
  function StringValue(text: TextDecoder, encoding: string, buf: seq<byte>, p: int, l: int, nulTerminated: bool): string
  {
    var s := text(encoding, Slice(buf, p, p + l));
    if nulTerminated then Text.BeforeNul(s) else s
  }

  /** `getValueDefinition(e)`: the inverse of an enum object, built by assigning
      `def[e[k]] = k` for every key in `Object.keys` order. The entries are the (key, value)
      pairs in that order; a value shared by several keys ends up with the last of them. */
  method GetValueDefinition(entries: seq<(string, string)>) returns (def: map<string, string>)
    ensures forall v :: v in def <==> exists k :: 0 <= k < |entries| && entries[k].1 == v
    ensures forall k :: 0 <= k < |entries| && (forall j :: k < j < |entries| ==> entries[j].1 != entries[k].1)
              ==> def[entries[k].1] == entries[k].0
  {
    def := map[];
    for i := 0 to |entries|
      invariant forall v :: v in def <==> exists k :: 0 <= k < i && entries[k].1 == v
      invariant forall k :: 0 <= k < i && (forall j :: k < j < i ==> entries[j].1 != entries[k].1)
                  ==> def[entries[k].1] == entries[k].0
    {
      def := def[entries[i].1 := entries[i].0];
    }
  }

  class Helper {
    const text: TextDecoder
    const buffer: seq<byte>
    var position: int
    var endian: Endian
    var textEncoding: string
    var regionCache: map<string, Region>

    constructor(text: TextDecoder, buffer: seq<byte>)
      ensures this.text == text && this.buffer == buffer
      ensures position == 0 && endian == LE && textEncoding == "utf-8" && regionCache == map[]
    {
      this.text := text;
      this.buffer := buffer;
      position := 0;
      endian := LE;
      textEncoding := "utf-8";
      regionCache := map[];
    }

    /** `fork(pos, length)`: a new helper over the prefix of the buffer that ends at
        `pos + length` (clamped as `ArrayBuffer.slice` clamps), positioned at `pos` (the current
        position for -1), in the same endian. The text encoding and the cache start afresh. */
    method Fork(pos: int, length: int) returns (q: Helper)
      ensures fresh(q)
      ensures var p := if pos == -1 then position else pos;
              && q.buffer == Slice(buffer, 0, p + length)
              && q.position == p && q.endian == endian && q.text == text
              && q.textEncoding == "utf-8" && q.regionCache == map[]
    {
      var p := if pos == -1 then position else pos;
      q := new Helper(text, Slice(buffer, 0, p + length));
      q.position := p;
      q.endian := endian;
    }

    /** `updatePosAndLength`: -1 as position means the current position, -1 as length means
        "up to the end of the buffer"; any other value is kept. */
    function UpdatePosAndLength(pos: int, length: int): (pl: (int, int))
      reads this
      ensures pos == -1 ==> pl.0 == position
      ensures pos != -1 ==> pl.0 == pos
      ensures length == -1 ==> pl.0 + pl.1 == |buffer|
      ensures length != -1 ==> pl.1 == length
    {
      var p := if pos == -1 then position else pos;
      (p, if length == -1 then |buffer| - p else length)
    }

    /** `createCompoundRegion`: with children, the span runs from the first child's start to
        the last child's end; without, it is the resolved `[pos, pos+length)`. Being a
        function, it moves nothing and records nothing. */
    function CreateCompoundRegion(pos: int, length: int, id: string, description: string,
                                  subRegions: seq<Region>): Region
      reads this
    {
      var pl := UpdatePosAndLength(pos, length);
      var r := Region(id, Compound, description, pl.0, pl.0 + pl.1, None, None, None, None, Sub(subRegions));
      if |subRegions| > 0 then r.(startPos := subRegions[0].startPos, endPos := subRegions[|subRegions| - 1].endPos)
      else r
    }

    /** The compound region holds the children it is given and spans them, or the resolved
        span when there are none. */
    lemma CompoundRegionSpan(pos: int, length: int, id: string, description: string, subRegions: seq<Region>)
      ensures var r := CreateCompoundRegion(pos, length, id, description, subRegions);
              && r.id == id && r.kind == Compound && r.description == description
              && r.children == Sub(subRegions) && r.numValue.None? && r.strValue.None? && r.endian.None?
              && (|subRegions| > 0 ==>
                    r.startPos == subRegions[0].startPos && r.endPos == subRegions[|subRegions| - 1].endPos)
              && (|subRegions| == 0 ==>
                    var pl := UpdatePosAndLength(pos, length); r.startPos == pl.0 && r.endPos == pl.0 + pl.1)
    {
    }

    /** `createNumberRegion`: the region over the resolved span with the `parseBigint` value
        in the current endian; the position moves to its end and it replaces any cached region
        with the same id. When the read throws, nothing changes. */
    method CreateNumberRegion(pos: int, length: int, id: string, description: string, signed: bool, kind: Kind)
      returns (r: Result<Region>)
      modifies this
      ensures var pl := old(UpdatePosAndLength(pos, length));
              && r == NumberRegion(buffer, endian, pl.0, pl.1, id, description, signed, kind)
              && (r.Ok? ==> position == r.value.endPos && regionCache == old(regionCache)[id := r.value])
              && (r.Err? ==> position == old(position) && regionCache == old(regionCache))
      ensures endian == old(endian) && textEncoding == old(textEncoding)
    {
      var pl := UpdatePosAndLength(pos, length);
      var p, l := pl.0, pl.1;
      var v := CommonUtil.ParseValue(buffer, p, p + l, endian == BE, signed);
      if v.Err? {
        return Err(v.error);
      }
      var region := Region(id, kind, description, p, p + l, Some(endian), Some(v.value), None, None, NoChildren);
      position := region.endPos;
      regionCache := regionCache[id := region];
      return Ok(region);
    }

    /** `createFlagRegion`: an unsigned number region typed Flag. */
    method CreateFlagRegion(pos: int, length: int, id: string, description: string) returns (r: Result<Region>)
      modifies this
      ensures var pl := old(UpdatePosAndLength(pos, length));
              && r == NumberRegion(buffer, endian, pl.0, pl.1, id, description, false, Flag)
              && (r.Ok? ==> position == r.value.endPos && regionCache == old(regionCache)[id := r.value])
              && (r.Err? ==> position == old(position) && regionCache == old(regionCache))
      ensures endian == old(endian) && textEncoding == old(textEncoding)
    {
      r := CreateNumberRegion(pos, length, id, description, false, Flag);
    }

    /** `createSignedNumberRegion`: a two's-complement number region typed Number. */
    method CreateSignedNumberRegion(pos: int, length: int, id: string, description: string) returns (r: Result<Region>)
      modifies this
      ensures var pl := old(UpdatePosAndLength(pos, length));
              && r == NumberRegion(buffer, endian, pl.0, pl.1, id, description, true, Number)
              && (r.Ok? ==> position == r.value.endPos && regionCache == old(regionCache)[id := r.value])
              && (r.Err? ==> position == old(position) && regionCache == old(regionCache))
      ensures endian == old(endian) && textEncoding == old(textEncoding)
    {
      r := CreateNumberRegion(pos, length, id, description, true, Number);
    }

    /** `createOffsetRegion`: an unsigned number region typed Offset. */
    method CreateOffsetRegion(pos: int, length: int, id: string, description: string) returns (r: Result<Region>)
      modifies this
      ensures var pl := old(UpdatePosAndLength(pos, length));
              && r == NumberRegion(buffer, endian, pl.0, pl.1, id, description, false, Offset)
              && (r.Ok? ==> position == r.value.endPos && regionCache == old(regionCache)[id := r.value])
              && (r.Err? ==> position == old(position) && regionCache == old(regionCache))
      ensures endian == old(endian) && textEncoding == old(textEncoding)
    {
      r := CreateNumberRegion(pos, length, id, description, false, Offset);
    }

    /** `createSizeRegion`: an unsigned number region typed Size. */
    method CreateSizeRegion(pos: int, length: int, id: string, description: string) returns (r: Result<Region>)
      modifies this
      ensures var pl := old(UpdatePosAndLength(pos, length));
              && r == NumberRegion(buffer, endian, pl.0, pl.1, id, description, false, Size)
              && (r.Ok? ==> position == r.value.endPos && regionCache == old(regionCache)[id := r.value])
              && (r.Err? ==> position == old(position) && regionCache == old(regionCache))
      ensures endian == old(endian) && textEncoding == old(textEncoding)
    {
      r := CreateNumberRegion(pos, length, id, description, false, Size);
    }

    /** `createTimeRegion`: an unsigned number region typed Time. */
    method CreateTimeRegion(pos: int, length: int, id: string, description: string) returns (r: Result<Region>)
      modifies this
      ensures var pl := old(UpdatePosAndLength(pos, length));
              && r == NumberRegion(buffer, endian, pl.0, pl.1, id, description, false, Time)
              && (r.Ok? ==> position == r.value.endPos && regionCache == old(regionCache)[id := r.value])
              && (r.Err? ==> position == old(position) && regionCache == old(regionCache))
      ensures endian == old(endian) && textEncoding == old(textEncoding)
    {
      r := CreateNumberRegion(pos, length, id, description, false, Time);
    }

    /** `createGeneralRegion`: an untyped span that cannot fail; the position moves to its
        end and it replaces any cached region with the same id. */
    method CreateGeneralRegion(pos: int, length: int, id: string, description: string) returns (r: Region)
      modifies this
      ensures var pl := old(UpdatePosAndLength(pos, length));
              && r == Region(id, General, description, pl.0, pl.0 + pl.1, Some(endian), None, None, None, NoChildren)
              && position == r.endPos && regionCache == old(regionCache)[id := r]
      ensures endian == old(endian) && textEncoding == old(textEncoding)
    {
      var pl := UpdatePosAndLength(pos, length);
      r := Region(id, General, description, pl.0, pl.0 + pl.1, Some(endian), None, None, None, NoChildren);
      position := r.endPos;
      regionCache := regionCache[id := r];
    }

    /** `createStringRegion`: the region over the resolved span, valued by decoding its bytes
        (`slice` clamps, so this never throws) in the given encoding or else the helper's,
        cut at the first NUL when `nulTerminated`. The position moves to its end and it
        replaces any cached region with the same id. */
    method CreateStringRegion(pos: int, length: int, id: string, description: string,
                              encoding: Option<string>, nulTerminated: bool) returns (r: Region)
      modifies this
      ensures var pl := old(UpdatePosAndLength(pos, length));
              var enc := if encoding.Some? then encoding.value else textEncoding;
              && r == Region(id, Str, description, pl.0, pl.0 + pl.1, Some(endian),
                             None, Some(StringValue(text, enc, buffer, pl.0, pl.1, nulTerminated)), None, NoChildren)
              && position == r.endPos && regionCache == old(regionCache)[id := r]
      ensures endian == old(endian) && textEncoding == old(textEncoding)
    {
      var pl := UpdatePosAndLength(pos, length);
      var enc := if encoding.Some? then encoding.value else textEncoding;
      var decoded := text(enc, Slice(buffer, pl.0, pl.0 + pl.1));
      var value := if nulTerminated then Text.BeforeNul(decoded) else decoded;
      r := Region(id, Str, description, pl.0, pl.0 + pl.1, Some(endian), None, Some(value), None, NoChildren);
      position := r.endPos;
      regionCache := regionCache[id := r];
    }

    /** `createZeroTerminatedStringRegion`: a NUL-terminated string region from `pos` through
        the first 0 byte at or after it, that byte included. With no 0 byte the length is
        `byteLength + 1 - pos`, one byte past the buffer. (Only a start two bytes past the end
        makes that length -1, which then reads as "to the end".) */
    method CreateZeroTerminatedStringRegion(pos: int, id: string, description: string, encoding: Option<string>)
      returns (r: Region)
      modifies this
      ensures var p := if pos == -1 then old(position) else pos;
              && r.startPos == p && r.id == id && r.kind == Str
              && r.endPos == ZeroTerminatedEnd(buffer, p)
              && r.endian == Some(endian) && r.description == description && r.children == NoChildren
              && r.numValue.None? && r.interpreted.None?
              && r.strValue == Some(StringValue(text, if encoding.Some? then encoding.value else textEncoding,
                                                buffer, p, r.endPos - p, true))
              && position == r.endPos && regionCache == old(regionCache)[id := r]
      ensures endian == old(endian) && textEncoding == old(textEncoding)
    {
      var p := if pos == -1 then position else pos;
      var index := SearchPatternForward(p, [0]);
      ZeroSearchIsFirstZero(buffer, p, index);
      if index == -1 {
        index := |buffer|;
      }
      assert index + 1 - p == -1 ==> p == |buffer| + 2;
      assert p == -1 ==> position == -1;
      r := CreateStringRegion(p, index + 1 - p, id, description, encoding, true);
    }

    /** `CV(content)` applied to a region: `ensureContent` of the expected bytes at the
        region's start, which throws unless `checkContent` returns true. */
    method CV(content: seq<byte>, r: Region) returns (o: Outcome)
      ensures o.Pass? <==> (0 <= r.startPos && r.startPos + |content| <= |buffer|
                            && buffer[r.startPos..r.startPos + |content|] == content)
      ensures o.Fail? ==> o.error == (if CheckContentSpec(buffer, r.startPos, content).Err? then RangeError else ContentMismatch)
    {
      o := CommonUtil.EnsureContent(buffer, r.startPos, content);
    }

    method SetEndian(e: Endian)
      modifies this
      ensures endian == e
      ensures position == old(position) && textEncoding == old(textEncoding) && regionCache == old(regionCache)
    {
      endian := e;
    }

    /** `setTextEncoding(enc)`: an absent encoding leaves the current one in place. */
    method SetTextEncoding(enc: Option<string>)
      modifies this
      ensures textEncoding == (if enc.Some? then enc.value else old(textEncoding))
      ensures position == old(position) && endian == old(endian) && regionCache == old(regionCache)
    {
      if enc.Some? {
        textEncoding := enc.value;
      }
    }

    /** `getNumber(name, r)`: with a region that has a child list, the value of its first
        child named `name`, or 0 when none is; otherwise the value of the cached region
        `name`, and reading a missing entry throws. `Number(undefined)`, NaN, is `None`. */
    method GetNumber(name: string, r: Option<Region>) returns (v: Result<Option<int>>)
      ensures r.Some? && r.value.children.Sub? ==>
                var kids := r.value.children.regions;
                && v.Ok?
                && ((forall i :: 0 <= i < |kids| ==> kids[i].id != name) ==> v.value == Some(0))
                && (forall i :: (0 <= i < |kids| && kids[i].id == name
                                 && forall j :: 0 <= j < i ==> kids[j].id != name) ==> v.value == kids[i].numValue)
      ensures !(r.Some? && r.value.children.Sub?) ==>
                v == (if name in regionCache then Ok(regionCache[name].numValue) else Err(MissingRegion))
    {
      if r.Some? && r.value.children.Sub? {
        var kids := r.value.children.regions;
        for i := 0 to |kids|
          invariant forall j :: 0 <= j < i ==> kids[j].id != name
        {
          if kids[i].id == name {
            return Ok(kids[i].numValue);
          }
        }
        return Ok(Some(0));
      }
      if name !in regionCache {
        return Err(MissingRegion);
      }
      return Ok(regionCache[name].numValue);
    }

    /** `searchPatternForward(from, pattern)`: the first full match at or after `from`, or -1. */
    method SearchPatternForward(from: int, pattern: seq<byte>) returns (r: int)
      ensures || (from <= r <= |buffer| - |pattern| && MatchAt(buffer, pattern, r)
                  && forall k :: from <= k < r ==> !MatchAt(buffer, pattern, k))
              || (r == -1 && forall k :: from <= k <= |buffer| - |pattern| ==> !MatchAt(buffer, pattern, k))
    {
      r := ParserUtil.SearchFrom(buffer, pattern, from);
    }

    /** `searchPatternBackward(buf, pattern)`: the last full match in `buf`, or -1. */
    method SearchPatternBackward(buf: seq<byte>, pattern: seq<byte>) returns (r: int)
      ensures r == -1 || (0 <= r <= |buf| - |pattern| && MatchAt(buf, pattern, r))
      ensures r != -1 ==> forall k :: r < k <= |buf| - |pattern| ==> !MatchAt(buf, pattern, k)
      ensures r == -1 ==> forall k :: 0 <= k <= |buf| - |pattern| ==> !MatchAt(buf, pattern, k)
    {
      r := ParserUtil.SearchBack(buf, pattern);
    }
  }
}
