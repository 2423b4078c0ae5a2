/** The cursor of src/parser/common/parser.ts. `ParseHelper` keeps a read position, an
    endianness, a memo of the most recent numeric value per region id (`num`) and the most
    recent region per id (`regionCache`); `createRegion` carves one typed region, runs an
    optional validation callback, then advances the position and records the region.
    The PE, MP3, MP4, PNG and JPEG decoders call `createRegion` and `num` too, and are given
    these semantics. */
module CommonParser {
  import opened Wrappers
  import opened CommonUtil
  import opened Dom
  import Text

  /** The callbacks passed to `createRegion`: the `CV(content)` validator and the ICO
      width/height interpreter that turns a stored 0 into 256. */
  datatype Callback = NoCallback | Expect(content: seq<byte>) | ZeroMeans256

  /** `pos === -1` stands for the current position. */
  function ResolvePos(pos: int, position: int): (p: int)
    ensures pos == -1 ==> p == position
    ensures pos != -1 ==> p == pos
  {
    if pos == -1 then position else pos
  }

  /** `length === -1` stands for "to the end of the buffer". */
  function ResolveLength(length: int, pos: int, byteLength: int): (l: int)
    ensures length == -1 ==> pos + l == byteLength
    ensures length != -1 ==> l == length
  {
    if length == -1 then byteLength - pos else length
  }

  /** The region `createRegion` builds before its callback runs: the span `[pos, pos+length)`
      in the current endian, with the value its type calls for. A number read that leaves the
      buffer throws. */
  function Carve(text: TextDecoder, buf: seq<byte>, endian: Endian, kind: Kind,
                 pos: int, length: int, id: string, description: string): (r: Result<Region>)
  {
    var base := Region(id, kind, description, pos, pos + length, Some(endian), None, None, None, NoChildren);
    match kind
    case Number | Offset | Size | SignedNumber =>
      var v :- ParseValueSpec(buf, pos, pos + length, endian == BE, kind == SignedNumber);
      Ok(base.(numValue := Some(v)))
    case Str => Ok(base.(strValue := Some(text("utf-8", Slice(buf, pos, pos + length)))))
    case NulStr => Ok(base.(strValue := Some(Text.BeforeNul(text("utf-8", Slice(buf, pos, pos + length))))))
    case Compound => Ok(base.(children := Sub([])))
    case General | Flag | Time => Ok(base)
  }

  /** The callback run on a carved region: `CV` throws unless the expected bytes sit at the
      region's start; the ICO interpreter replaces a value of 0 by 256. Neither moves the span. */
  function RunCallback(buf: seq<byte>, cb: Callback, r: Region): (res: Result<Region>)
  {
    match cb
    case NoCallback => Ok(r)
    case Expect(content) =>
      var c := CheckContentSpec(buf, r.startPos, content);
      if c.Err? then Err(RangeError)
      else if !c.value then Err(ContentMismatch)
      else Ok(r)
    case ZeroMeans256 => Ok(if r.numValue == Some(0) then r.(numValue := Some(256)) else r)
  }

  /** The arguments of one `createRegion` call once its position is resolved: type, width, id,
      description and callback. A row of a field table. */
  datatype Field = Field(kind: Kind, width: int, id: string, description: string, cb: Callback)

  /** A number field without callback. */
  function N(width: int, id: string, description: string := ""): Field
  {
    Field(Number, width, id, description, NoCallback)
  }

  /** The callback lets the region through. */
  predicate CallbackPasses(buf: seq<byte>, cb: Callback, start: int)
  {
    cb.Expect? ==> CheckContentSpec(buf, start, cb.content) == Ok(true)
  }

  /** What `createRegion` returns for field `f` at `start`: the carved region after its
      callback, or the exception one of them throws. */
  function FieldAt(text: TextDecoder, buf: seq<byte>, endian: Endian, start: int, f: Field): Result<Region>
  {
    var c := Carve(text, buf, endian, f.kind, start, f.width, f.id, f.description);
    if c.Err? then c else RunCallback(buf, f.cb, c.value)
  }

  /** The region `createRegion('S', start, width, id, description)` builds: the decoded
      bytes of the span. */
  function StringAt(text: TextDecoder, buf: seq<byte>, endian: Endian, start: int, width: int,
                    id: string, description: string): Region
  {
    Region(id, Str, description, start, start + width, Some(endian), None,
           Some(text("utf-8", Slice(buf, start, start + width))), None, NoChildren)
  }

  /** The region `createRegion('G', start, width, id, description)` builds: a bare span. */
  function GeneralAt(endian: Endian, start: int, width: int, id: string, description: string): Region
  {
    Region(id, General, description, start, start + width, Some(endian), None, None, None, NoChildren)
  }

  /** String and general rows without a callback cannot fail. */
  lemma PlainFields(text: TextDecoder, buf: seq<byte>, endian: Endian, start: int, width: int,
                    id: string, description: string)
    ensures FieldAt(text, buf, endian, start, Field(Str, width, id, description, NoCallback))
         == Ok(StringAt(text, buf, endian, start, width, id, description))
    ensures FieldAt(text, buf, endian, start, Field(General, width, id, description, NoCallback))
         == Ok(GeneralAt(endian, start, width, id, description))
  {
  }

  /** The number a numeric field reads at `start`, before any callback. */
  function RawValue(buf: seq<byte>, endian: Endian, start: int, f: Field): Result<int>
  {
    ParseValueSpec(buf, start, start + f.width, endian == BE, f.kind == SignedNumber)
  }

  /** `createRegion` succeeds iff its number (if any) can be read and its callback passes; the
      region then spans `[start, start + width)` with the given id and type, and a numeric
      region holds the number read, which the ICO callback turns from 0 into 256. */
  lemma FieldAtFacts(text: TextDecoder, buf: seq<byte>, endian: Endian, start: int, f: Field)
    ensures var r := FieldAt(text, buf, endian, start, f);
            var raw := RawValue(buf, endian, start, f);
            && (r.Ok? <==> (f.kind.IsNumeric() ==> raw.Ok?) && CallbackPasses(buf, f.cb, start))
            && (r.Ok? ==> r.value.id == f.id && r.value.kind == f.kind && r.value.startPos == start
                          && r.value.endPos == start + f.width && r.value.endian == Some(endian)
                          && r.value.numValue == (if !f.kind.IsNumeric() then None
                                                  else if f.cb == ZeroMeans256 && raw.value == 0 then Some(256)
                                                  else Some(raw.value))
                          && r.value.children == (if f.kind == Compound then Sub([]) else NoChildren))
  {
    var c := Carve(text, buf, endian, f.kind, start, f.width, f.id, f.description);
    var raw := RawValue(buf, endian, start, f);
    if f.kind.IsNumeric() {
      assert c.Ok? <==> raw.Ok?;
      if c.Ok? {
        assert c.value.numValue == Some(raw.value) && c.value.children == NoChildren;
      }
    } else {
      assert c.Ok? && c.value.numValue.None?;
    }
  }

  /** The regions read so far in front of the outcome of reading the rest. */
  function Prepend(done: seq<Region>, rest: Result<seq<Region>>): Result<seq<Region>>
  {
    if rest.Err? then rest else Ok(done + rest.value)
  }

  /** Nothing in front of an outcome leaves it as it is. */
  lemma PrependNil(rest: Result<seq<Region>>)
    ensures Prepend([], rest) == rest
  {
    if rest.Ok? {
      assert [] + rest.value == rest.value;
    }
  }

  /** Two runs put in front one after the other are one run put in front. */
  lemma PrependPrepend(done: seq<Region>, more: seq<Region>, rest: Result<seq<Region>>)
    ensures Prepend(done, Prepend(more, rest)) == Prepend(done + more, rest)
  {
    if rest.Ok? {
      assert done + (more + rest.value) == done + more + rest.value;
    }
  }

  /** How a repeated record placed at an offset reads, such as a directory entry. */
  type ReadRecordAt = int -> Result<Region>

  /** The first `k` records of a table whose record i sits at `base + stride * i`, read in
      order; the first failing record decides the outcome. */
  function Table(read: ReadRecordAt, base: int, stride: int, k: nat): (r: Result<seq<Region>>)
    ensures r.Ok? ==> |r.value| == k
  {
    if k == 0 then Ok([])
    else
      var prev :- Table(read, base, stride, k - 1);
      var e :- read(base + stride * (k - 1));
      Ok(prev + [e])
  }

  /** Record i of a table. */
  function TableRow(read: ReadRecordAt, base: int, stride: int, i: int): Result<Region>
  {
    read(base + stride * i)
  }

  /** The table grows by the record just read. */
  lemma TableStep(read: ReadRecordAt, base: int, stride: int, i: nat, prev: seq<Region>, e: Region)
    requires Table(read, base, stride, i) == Ok(prev) && TableRow(read, base, stride, i) == Ok(e)
    ensures Table(read, base, stride, i + 1) == Ok(prev + [e])
  {
  }

  /** A table reads completely iff each of its records does, and then holds record i at
      index i. */
  lemma {:induction false} TableOkIff(read: ReadRecordAt, base: int, stride: int, k: nat)
    ensures Table(read, base, stride, k).Ok? <==> forall i :: 0 <= i < k ==> TableRow(read, base, stride, i).Ok?
    ensures Table(read, base, stride, k).Ok? ==>
              forall i :: 0 <= i < k ==> TableRow(read, base, stride, i) == Ok(Table(read, base, stride, k).value[i])
  {
    if k > 0 {
      TableOkIff(read, base, stride, k - 1);
      assert TableRow(read, base, stride, k - 1) == read(base + stride * (k - 1));
    }
  }

  /** A table fails with the error of its first failing record. */
  lemma {:induction false} TableFails(read: ReadRecordAt, base: int, stride: int, i: nat, k: nat)
    requires i < k && Table(read, base, stride, i).Ok? && TableRow(read, base, stride, i).Err?
    ensures Table(read, base, stride, k) == Err(TableRow(read, base, stride, i).error)
  {
    if k > i + 1 {
      TableFails(read, base, stride, i, k - 1);
    }
  }

  /** Every entry of `after` other than `id` is the entry of `before`: one `createRegion`
      writes at most the key it is given. */
  ghost predicate Kept<V>(before: map<string, V>, after: map<string, V>, id: string)
  {
    forall k :: k != id ==> (k in after <==> k in before) && (k in after ==> after[k] == before[k])
  }

  /** Every entry of `before` other than `id` survives unchanged in `after`. */
  ghost predicate Retained<V>(before: map<string, V>, after: map<string, V>, id: string)
  {
    forall k :: k != id && k in before ==> k in after && after[k] == before[k]
  }

  /** The memo entry `k`, if any, survives unchanged. */
  ghost predicate Same(before: map<string, int>, after: map<string, int>, k: string)
  {
    k in before ==> k in after && after[k] == before[k]
  }

  /** The unsigned little-endian number of `width` bytes at `pos`, as the memo records it. */
  function Raw(buf: seq<byte>, pos: int, width: int): Result<int>
  {
    ParseValueSpec(buf, pos, pos + width, false, false)
  }

  /** An unsigned read is never negative, and it succeeds whenever its bytes lie in the
      buffer. */
  lemma RawUnsigned(buf: seq<byte>, pos: int, width: int)
    requires width > 0
    ensures Raw(buf, pos, width).Ok? <==> 0 <= pos && pos + width <= |buf|
    ensures Raw(buf, pos, width).Ok? ==> Raw(buf, pos, width).value == CommonUtil.LE(buf[pos..pos + width]) >= 0
  {
  }

  /** Region `r` is a number spanning `[start, end)` that holds the little-endian number
      stored there. */
  ghost predicate NumberRowAt(buf: seq<byte>, r: Region, start: int, end: int)
  {
    && r.kind == Number && r.startPos == start && r.endPos == end
    && 0 <= start <= end <= |buf| && r.numValue == Some(CommonUtil.LE(buf[start..end]))
  }

  /** Rows `rs` are numbers that follow each other without gap or overlap from `start`
      to `end`, each holding the little-endian number stored in its bytes. */
  ghost predicate Tiles(buf: seq<byte>, rs: seq<Region>, start: int, end: int)
    decreases |rs|
  {
    if rs == [] then start == end
    else NumberRowAt(buf, rs[0], start, rs[0].endPos) && Tiles(buf, rs[1..], rs[0].endPos, end)
  }

  /** A row followed by a run of rows is a run of rows. */
  lemma TilesCons(buf: seq<byte>, r: Region, rs: seq<Region>, start: int, end: int)
    requires NumberRowAt(buf, r, start, r.endPos) && Tiles(buf, rs, r.endPos, end)
    ensures Tiles(buf, [r] + rs, start, end)
  {
    assert ([r] + rs)[1..] == rs;
  }

  /** Two rows that meet are a run. */
  lemma Tiles2(buf: seq<byte>, r0: Region, r1: Region, p0: int, p1: int, p2: int)
    requires NumberRowAt(buf, r0, p0, p1) && NumberRowAt(buf, r1, p1, p2)
    ensures Tiles(buf, [r0, r1], p0, p2)
  {
    TilesCons(buf, r1, [], p1, p2);
    TilesCons(buf, r0, [r1], p0, p2);
  }

  /** Three rows that meet are a run. */
  lemma Tiles3(buf: seq<byte>, r0: Region, r1: Region, r2: Region, p0: int, p1: int, p2: int, p3: int)
    requires NumberRowAt(buf, r0, p0, p1) && NumberRowAt(buf, r1, p1, p2) && NumberRowAt(buf, r2, p2, p3)
    ensures Tiles(buf, [r0, r1, r2], p0, p3)
  {
    Tiles2(buf, r1, r2, p1, p2, p3);
    TilesCons(buf, r0, [r1, r2], p0, p3);
  }

  /** Four rows that meet are a run. */
  lemma Tiles4(buf: seq<byte>, r0: Region, r1: Region, r2: Region, r3: Region, p0: int, p1: int, p2: int, p3: int, p4: int)
    requires NumberRowAt(buf, r0, p0, p1) && NumberRowAt(buf, r1, p1, p2) && NumberRowAt(buf, r2, p2, p3)
    requires NumberRowAt(buf, r3, p3, p4)
    ensures Tiles(buf, [r0, r1, r2, r3], p0, p4)
  {
    Tiles3(buf, r1, r2, r3, p1, p2, p3, p4);
    TilesCons(buf, r0, [r1, r2, r3], p0, p4);
  }

  /** Two runs that meet make one run. */
  lemma {:induction false} TilesJoin(buf: seq<byte>, a: seq<Region>, b: seq<Region>, start: int, middle: int, end: int)
    requires Tiles(buf, a, start, middle) && Tiles(buf, b, middle, end)
    ensures Tiles(buf, a + b, start, end)
    decreases |a|
  {
    if a == [] {
      assert a + b == b;
    } else {
      TilesJoin(buf, a[1..], b, a[0].endPos, middle, end);
      assert (a + b)[1..] == a[1..] + b;
    }
  }

  /** Three runs that meet make one run. */
  lemma TilesJoin3(buf: seq<byte>, a: seq<Region>, b: seq<Region>, c: seq<Region>, p0: int, p1: int, p2: int, p3: int)
    requires Tiles(buf, a, p0, p1) && Tiles(buf, b, p1, p2) && Tiles(buf, c, p2, p3)
    ensures Tiles(buf, a + b + c, p0, p3)
  {
    TilesJoin(buf, a, b, p0, p1, p2);
    TilesJoin(buf, a + b, c, p0, p2, p3);
  }

  /** A number row without callback reads exactly when its bytes lie in the buffer, and then
      spans them and holds their little-endian value. */
  lemma NumberRow(text: TextDecoder, buf: seq<byte>, pos: int, width: int, id: string, description: string)
    requires pos >= 0 && width > 0
    ensures var r := FieldAt(text, buf, LE, pos, N(width, id, description));
            && (r.Ok? <==> pos + width <= |buf|)
            && (r.Ok? ==> r.value.id == id && NumberRowAt(buf, r.value, pos, pos + width))
  {
    FieldAtFacts(text, buf, LE, pos, N(width, id, description));
    RawUnsigned(buf, pos, width);
  }

  /** Region `r` is a number spanning `[start, end)` that holds the big-endian number stored
      there. */
  ghost predicate BigNumberRowAt(buf: seq<byte>, r: Region, start: int, end: int)
  {
    && r.kind == Number && r.startPos == start && r.endPos == end
    && 0 <= start <= end <= |buf| && r.numValue == Some(CommonUtil.BE(buf[start..end]))
  }

  /** A big-endian number row without callback reads exactly when its bytes lie in the
      buffer, and then spans them and holds their big-endian value. */
  lemma BigNumberRow(text: TextDecoder, buf: seq<byte>, pos: int, width: int, id: string, description: string)
    requires pos >= 0 && width > 0
    ensures var r := FieldAt(text, buf, BE, pos, N(width, id, description));
            && (r.Ok? <==> pos + width <= |buf|)
            && (r.Ok? ==> r.value.id == id && BigNumberRowAt(buf, r.value, pos, pos + width))
  {
    FieldAtFacts(text, buf, BE, pos, N(width, id, description));
  }

  class ParseHelper {
    const buffer: seq<byte>
    const text: TextDecoder
    var position: int
    var endian: Endian
    var num: map<string, int>
    var regionCache: map<string, Region>

    constructor(text: TextDecoder, buffer: seq<byte>)
      ensures this.buffer == buffer && this.text == text
      ensures position == 0 && endian == LE && num == map[] && regionCache == map[]
    {
      this.buffer := buffer;
      this.text := text;
      position := 0;
      num := map[];
      regionCache := map[];
      endian := LE;
    }

    /** `fork(pos, length)`: a cursor over the prefix `[0, pos+length)` at `pos`, same endian,
        empty memo and cache. */
    method Fork(pos: int, length: int) returns (q: ParseHelper)
      ensures fresh(q)
      ensures var p := ResolvePos(pos, position);
              q.buffer == Slice(buffer, 0, p + length) && q.text == text
              && q.position == p && q.endian == endian && q.num == map[] && q.regionCache == map[]
    {
      var p := if pos == -1 then position else pos;
      q := new ParseHelper(text, Slice(buffer, 0, p + length));
      q.position := p;
      q.endian := endian;
    }

    /** `createCompoundRegion`: the span `[pos, pos+length)` whatever the children; neither the
        position nor the cache changes. */
    function CreateCompoundRegion(pos: int, length: int, id: string, description: string, children: seq<Region>): (r: Region)
      reads this
      ensures r.startPos == ResolvePos(pos, position)
      ensures r.endPos == r.startPos + ResolveLength(length, r.startPos, |buffer|)
      ensures r.kind == Compound && r.id == id && r.children == Sub(children) && r.endian.None?
    {
      var p := if pos == -1 then position else pos;
      var l := if length == -1 then |buffer| - p else length;
      Region(id, Compound, description, p, p + l, None, None, None, None, Sub(children))
    }

    /** The type switch of `createRegion`: the carved region with its value. */
    method ReadRegion(f: Field, pos: int) returns (r: Result<Region>)
      ensures r == Carve(text, buffer, endian, f.kind, pos, f.width, f.id, f.description)
      ensures r.Ok? ==> r.value.startPos == pos && r.value.endPos == pos + f.width && r.value.id == f.id && r.value.kind == f.kind
      ensures f.kind.IsNumeric() ==> var v := RawValue(buffer, endian, pos, f);
                                     (r.Ok? <==> v.Ok?) && (r.Ok? ==> r.value.numValue == Some(v.value))
    {
      var kind, length, id := f.kind, f.width, f.id;
      var reg := Region(id, kind, f.description, pos, pos + length, Some(endian), None, None, None, NoChildren);
      match kind {
        case Number | Offset | Size | SignedNumber =>
          var v := ParseValue(buffer, pos, pos + length, endian == BE, kind == SignedNumber);
          if v.Err? {
            return Err(v.error);
          }
          reg := reg.(numValue := Some(v.value));
        case Str =>
          reg := reg.(strValue := Some(text("utf-8", Slice(buffer, pos, pos + length))));
        case NulStr =>
          reg := reg.(strValue := Some(Text.BeforeNul(text("utf-8", Slice(buffer, pos, pos + length)))));
        case Compound =>
          reg := reg.(children := Sub([]));
        case General | Flag | Time =>
      }
      return Ok(reg);
    }

    /** Runs a callback on a carved region. */
    method Check(cb: Callback, reg: Region) returns (r: Result<Region>)
      ensures r == RunCallback(buffer, cb, reg)
      ensures r.Ok? ==> r.value.startPos == reg.startPos && r.value.endPos == reg.endPos
                        && r.value.id == reg.id && r.value.kind == reg.kind
    {
      match cb {
        case NoCallback =>
        case Expect(content) =>
          var o := EnsureContent(buffer, reg.startPos, content);
          if o.Fail? {
            return Err(o.error);
          }
        case ZeroMeans256 =>
          if reg.numValue == Some(0) {
            return Ok(reg.(numValue := Some(256)));
          }
      }
      return Ok(reg);
    }

    /** `createRegion(type, pos, length, ID, description, callback)`: the region, the memo
        written before the callback runs, and position and cache updated only after it passes. */
    method CreateRegion(kind: Kind, pos: int, length: int, id: string, description: string, cb: Callback)
      returns (r: Result<Region>)
      modifies this
      ensures var p := ResolvePos(pos, old(position));
              var f := Field(kind, ResolveLength(length, p, |buffer|), id, description, cb);
              && r == FieldAt(text, buffer, endian, p, f)
              && (r.Ok? ==> position == p + f.width && id in regionCache && regionCache[id] == r.value)
      ensures var p := ResolvePos(pos, old(position));
              var f := Field(kind, ResolveLength(length, p, |buffer|), id, description, cb);
              var v := RawValue(buffer, endian, p, f);
              kind.IsNumeric() && v.Ok? ==> id in num && num[id] == v.value
      ensures var p := ResolvePos(pos, old(position));
              var f := Field(kind, ResolveLength(length, p, |buffer|), id, description, cb);
              var v := RawValue(buffer, endian, p, f);
              num == if kind.IsNumeric() && v.Ok? then old(num)[id := v.value] else old(num)
      ensures regionCache == if r.Ok? then old(regionCache)[id := r.value] else old(regionCache)
      ensures Retained(old(regionCache), regionCache, id) && Retained(old(num), num, id)
      ensures r.Err? ==> position == old(position) && regionCache == old(regionCache)
      ensures endian == old(endian)
    {
      var p := pos;
      if p == -1 {
        p := position;
      }
      var l := length;
      if l == -1 {
        l := |buffer| - p;
      }
      var f := Field(kind, l, id, description, cb);
      assert p == ResolvePos(pos, old(position)) && f == Field(kind, ResolveLength(length, p, |buffer|), id, description, cb);
      var carved := ReadRegion(f, p);
      if carved.Err? {
        return carved;
      }
      if kind.IsNumeric() {
        num := num[id := carved.value.numValue.value];
      }
      r := Check(cb, carved.value);
      if r.Ok? {
        position := r.value.endPos;
        regionCache := regionCache[id := r.value];
      }
    }

    /** `createRegion('G', pos, length, id, description)`: a plain span that cannot fail; the
        position moves to its end, the cache records it and the memo stays as it was. */
    method CreateGeneralRegion(pos: int, length: int, id: string, description: string) returns (r: Region)
      modifies this
      ensures var p := ResolvePos(pos, old(position));
              r == Region(id, General, description, p, p + ResolveLength(length, p, |buffer|), Some(endian), None, None, None, NoChildren)
      ensures position == r.endPos && regionCache == old(regionCache)[id := r] && Retained(old(regionCache), regionCache, id)
      ensures num == old(num) && endian == old(endian)
    {
      var p := if pos == -1 then position else pos;
      var l := if length == -1 then |buffer| - p else length;
      r := Region(id, General, description, p, p + l, Some(endian), None, None, None, NoChildren);
      position := r.endPos;
      regionCache := regionCache[id := r];
    }

    /** `createRegion('S', pos, length, id, description)`: a decoded string span that cannot
        fail; the position moves to its end, the cache records it and the memo stays as it
        was. */
    method CreateStringRegion(pos: int, length: int, id: string, description: string) returns (r: Region)
      modifies this
      ensures var p := ResolvePos(pos, old(position));
              r == StringAt(text, buffer, endian, p, ResolveLength(length, p, |buffer|), id, description)
      ensures position == r.endPos && regionCache == old(regionCache)[id := r] && Retained(old(regionCache), regionCache, id)
      ensures num == old(num) && endian == old(endian)
    {
      var p := if pos == -1 then position else pos;
      var l := if length == -1 then |buffer| - p else length;
      r := Region(id, Str, description, p, p + l, Some(endian), None, Some(text("utf-8", Slice(buffer, p, p + l))), None, NoChildren);
      position := r.endPos;
      regionCache := regionCache[id := r];
    }

    /** `createRegion('C', pos, length, id, description)`: a compound span with an empty child
        list that cannot fail; the position moves to its end and the cache records it. */
    method CreateCompound(pos: int, length: int, id: string, description: string) returns (r: Region)
      modifies this
      ensures var p := ResolvePos(pos, old(position));
              r == Region(id, Compound, description, p, p + ResolveLength(length, p, |buffer|), Some(endian), None, None, None, Sub([]))
      ensures position == r.endPos && regionCache == old(regionCache)[id := r] && Retained(old(regionCache), regionCache, id)
      ensures num == old(num) && endian == old(endian)
    {
      var p := if pos == -1 then position else pos;
      var l := if length == -1 then |buffer| - p else length;
      r := Region(id, Compound, description, p, p + l, Some(endian), None, None, None, Sub([]));
      position := r.endPos;
      regionCache := regionCache[id := r];
    }

    method SetEndian(e: Endian)
      modifies this
      ensures endian == e && position == old(position) && num == old(num) && regionCache == old(regionCache)
    {
      endian := e;
    }
  }

  /** The first region of the list named `name`, if any. */
  function FindRegion(rs: seq<Region>, name: string): (r: Option<Region>)
    ensures r.Some? ==> r.value in rs && r.value.id == name
    ensures r.None? <==> forall i :: 0 <= i < |rs| ==> rs[i].id != name
  {
    if rs == [] then None
    else if rs[0].id == name then Some(rs[0])
    else FindRegion(rs[1..], name)
  }

  /** `getNumber(regions, name)`: the number of the first region named `name`, 0 when the list
      is absent or holds no such region (`Number(undefined)`, NaN, is `None`). */
  method GetNumber(regions: Option<seq<Region>>, name: string) returns (v: Option<int>)
    ensures regions.None? ==> v == Some(0)
    ensures regions.Some? ==> v == match FindRegion(regions.value, name)
                                   case None => Some(0)
                                   case Some(r) => r.numValue
  {
    if regions.Some? {
      var rs := regions.value;
      var i := 0;
      while i < |rs|
        invariant 0 <= i <= |rs|
        invariant FindRegion(rs, name) == FindRegion(rs[i..], name)
      {
        if rs[i].id == name {
          return rs[i].numValue;
        }
        assert rs[i..][1..] == rs[i + 1..];
        i := i + 1;
      }
    }
    return Some(0);
  }

  /** The first region named `name` is the one at index `i` when no earlier region has that
      name. */
  lemma {:induction false} FindRegionAt(rs: seq<Region>, name: string, i: nat)
    requires i < |rs| && rs[i].id == name
    requires forall j :: 0 <= j < i ==> rs[j].id != name
    ensures FindRegion(rs, name) == Some(rs[i])
  {
    if i > 0 {
      FindRegionAt(rs[1..], name, i - 1);
    }
  }

  /** A little-endian numeric row read at `pos`, `createRegion('N', pos, width, id, description)`: the row
      the specification reads there, the cursor past it and the value in the memo. */
  method NumberAt(p: ParseHelper, pos: int, width: int, id: string, description: string, ghost text: TextDecoder, ghost buf: seq<byte>)
    returns (r: Result<Region>)
    requires p.text == text && p.buffer == buf && p.endian == LE && pos >= 0 && width >= 0
    modifies p
    ensures r == FieldAt(text, buf, LE, pos, N(width, id, description))
    ensures r.Ok? ==> p.position == pos + width && id in p.num && Ok(p.num[id]) == Raw(buf, pos, width)
    ensures Retained(old(p.num), p.num, id)
    ensures p.endian == LE
  {
    r := p.CreateRegion(Number, pos, width, id, description, NoCallback);
  }
}
