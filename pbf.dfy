/** The schema-less protobuf walker of src/parser/pbf.ts over the `Helper` cursor. Each
    message is a varint tag (field number and wire type) followed by a payload whose shape
    the wire type decides; a length-delimited payload is walked again as nested messages,
    and a failure inside it only leaves its content without children. */
module Pbf {
  import opened Wrappers
  import opened CommonUtil
  import opened Dom
  import Text
  import opened Parser

  /** How many bytes `parseVarint(a, index)` consumes: up to and including the first byte
      below 128, or up to the end of the array. */
  function VarintLen(a: seq<byte>, index: nat): (len: nat)
    ensures index < |a| ==> 1 <= len && index + len <= |a|
    ensures index >= |a| ==> len == 0
    decreases |a| - index
  {
    if index >= |a| then 0
    else if a[index] < 128 then 1
    else 1 + VarintLen(a, index + 1)
  }

  /** The value `parseVarint(a, index)` accumulates as `value * 128 + (byte & 127)`: the
      first byte is the most significant group. */
  function VarintValue(a: seq<byte>, index: nat): nat
  {
    var len := VarintLen(a, index);
    if len == 0 then 0 else Base128(a[index..index + len])
  }

  /** `parseVarint(a, index)`. */
  method ParseVarint(a: seq<byte>, index: nat) returns (value: nat, len: nat)
    ensures len == VarintLen(a, index) && value == VarintValue(a, index)
  {
    value, len := 0, 0;
    while index + len < |a|
      invariant index + len <= |a| || len == 0
      invariant VarintLen(a, index) == len + VarintLen(a, index + len)
      invariant value == (if len == 0 then 0 else Base128(a[index..index + len]))
      decreases |a| - index - len
    {
      var byte := a[index + len];
      ghost var run := a[index..index + len + 1];
      assert run[..len] == a[index..index + len] && run[len] == byte;
      assert Base128(run) == (if len == 0 then 0 else Base128(a[index..index + len])) * 128 + byte % 128;
      value := value * 128 + byte % 128;
      len := len + 1;
      if byte < 128 {
        assert VarintLen(a, index + len - 1) == 1;
        break;
      }
    }
  }

  /** The varint is the shortest run that ends at a byte below 128 (or at the end of the
      array): every byte before its last has the top bit set, and its value is below 128^len. */
  lemma {:induction false} VarintShape(a: seq<byte>, index: nat)
    requires index < |a|
    ensures var len := VarintLen(a, index);
            && 1 <= len && index + len <= |a|
            && (forall k :: index <= k < index + len - 1 ==> a[k] >= 128)
            && (a[index + len - 1] < 128 || index + len == |a|)
            && VarintValue(a, index) < Pow128(len)
    decreases |a| - index
  {
    var len := VarintLen(a, index);
    if a[index] >= 128 && index + 1 < |a| {
      VarintShape(a, index + 1);
    }
    Base128Bound(a[index..index + len]);
  }

  /** The zig-zag decoding of `parseMessage`: even v is v/2, odd v is -(v+1)/2 (the division
      is exact, so truncation and Dafny's division agree). */
  function ZigZag(v: nat): int
  {
    if v % 2 == 0 then v / 2 else (-(v as int) - 1) / 2
  }

  /** The zig-zag encoding: 0, -1, 1, -2, 2, ... to 0, 1, 2, 3, 4, ... */
  function ZigZagEncode(n: int): nat
  {
    if n >= 0 then 2 * n else -2 * n - 1
  }

  /** Zig-zag decoding is a bijection from the naturals onto the integers: it inverts the
      encoding in both directions, so 3 decodes to -2 and 4 to 2. */
  lemma ZigZagRoundTrip(v: nat, n: int)
    ensures ZigZagEncode(ZigZag(v)) == v
    ensures ZigZag(ZigZagEncode(n)) == n
  {
  }

  /** `WireType[t]`: the enum name of a wire type, `undefined` outside 0..5. */
  function WireTypeName(t: int): string
  {
    if t == 0 then "Varint"
    else if t == 1 then "Number64"
    else if t == 2 then "LengthDelimited"
    else if t == 3 then "StartGroup"
    else if t == 4 then "EndGroup"
    else if t == 5 then "Number32"
    else "undefined"
  }

  /** The tag's description `${fieldNum}: ${WireType[wireType]}`, with field number
      `tag / 8` and wire type `tag % 8`. */
  function TagDescription(tag: nat): string
  {
    Text.Decimal(tag / 8) + ": " + WireTypeName(tag % 8)
  }

  /** The size of what is left of the buffer from `pos` on. */
  function Remaining(buf: seq<byte>, pos: int): nat
  {
    if pos < |buf| then |buf| - pos else 0
  }

  /** The regions a walk read and the position it ended at. */
  datatype Walk = Walk(regions: seq<Region>, next: int)

  /** A payload region and the position after it. */
  datatype Payload = Payload(region: Region, next: nat)

  /** The regions read so far in front of the outcome of the remaining iterations. */
  function Then(done: seq<Region>, rest: Result<Walk>): Result<Walk>
  {
    if rest.Err? then rest else Ok(Walk(done + rest.value.regions, rest.value.next))
  }

  /** The `tag` region of a message at `pos`: the varint there, described by its field
      number and wire type. */
  function TagRegion(buf: seq<byte>, endian: Endian, pos: nat): Region
  {
    Region("tag", General, TagDescription(VarintValue(buf, pos)), pos, pos + VarintLen(buf, pos), Some(endian),
           None, None, None, NoChildren)
  }

  /** A `message`: its tag and its payload under one compound region spanning both. */
  function MessageRegion(tag: Region, payload: Region): Region
  {
    Region("message", Compound, "", tag.startPos, payload.endPos, None, None, None, None, Sub([tag, payload]))
  }

  /** `parseMessages(p, len)` from `pos` until the position reaches `end`: the messages and
      the position after them. Once the position is at or past the end of the buffer but
      still below `end`, the tag read there is empty and the payload a zero-length varint,
      so the position never moves and the source loops forever; `stopAtBufferEnd` (not in
      the source) leaves the loop there instead. */
  function Messages(buf: seq<byte>, endian: Endian, pos: nat, end: int, stopAtBufferEnd: bool): Result<Walk>
    decreases Remaining(buf, pos), 1
  {
    if pos >= end then Ok(Walk([], pos))
    else if pos >= |buf| then (if stopAtBufferEnd then Ok(Walk([], pos)) else Err(Diverges))
    else
      var m :- OneMessage(buf, endian, pos, stopAtBufferEnd);
      Then([m.region], Messages(buf, endian, m.next, end, stopAtBufferEnd))
  }

  /** One iteration of `parseMessages` at `pos`: the `message` region, holding the tag and
      the payload of its wire type, and the position after it. */
  function OneMessage(buf: seq<byte>, endian: Endian, pos: nat, stopAtBufferEnd: bool): (r: Result<Payload>)
    requires pos < |buf|
    ensures r.Ok? ==> r.value.next > pos
    ensures r.Ok? ==> r.value.region.startPos == pos && r.value.region.endPos == r.value.next
    decreases Remaining(buf, pos), 0
  {
    var tag := TagRegion(buf, endian, pos);
    var m :- Message(buf, endian, tag.endPos, VarintValue(buf, pos) % 8, stopAtBufferEnd);
    Ok(Payload(MessageRegion(tag, m.region), m.next))
  }

  /** `parseMessage(p, type)` at `pos`: the payload region and the position after it. Wire
      types other than 0, 1, 2 and 5 throw. */
  function Message(buf: seq<byte>, endian: Endian, pos: nat, wireType: int, stopAtBufferEnd: bool): (r: Result<Payload>)
    ensures r.Ok? ==> r.value.next >= pos
    ensures r.Ok? ==> r.value.region.startPos == pos && r.value.region.endPos == r.value.next
    ensures wireType == 0 ==> r.Ok? && r.value.region.id == "Varint"
    ensures wireType != 0 && wireType != 1 && wireType != 2 && wireType != 5 ==> r == Err(UnknownWireType)
    decreases Remaining(buf, pos), 4
  {
    if wireType == 0 then Ok(VarintPayload(buf, endian, pos))
    else if wireType == 5 then Fixed(buf, endian, pos, 4, "Number32")
    else if wireType == 1 then Fixed(buf, endian, pos, 8, "Number64")
    else if wireType == 2 then LengthDelimited(buf, endian, pos, stopAtBufferEnd)
    else Err(UnknownWireType)
  }

  /** A varint payload, zig-zag decoded. */
  function VarintPayload(buf: seq<byte>, endian: Endian, pos: nat): Payload
  {
    var len := VarintLen(buf, pos);
    Payload(Region("Varint", Number, "", pos, pos + len, Some(endian), Some(ZigZag(VarintValue(buf, pos))), None, None, NoChildren),
     pos + len)
  }

  /** A fixed-width payload: a `width`-byte unsigned number in the cursor's endian. */
  function Fixed(buf: seq<byte>, endian: Endian, pos: nat, width: nat, name: string): (r: Result<Payload>)
  {
    var region :- NumberRegion(buf, endian, pos, width, name, "", false, Number);
    Ok(Payload(region, pos + width))
  }

  /** The `Len` varint of a length-delimited payload. */
  function LenRegion(buf: seq<byte>, endian: Endian, pos: nat): Region
  {
    Region("Len", Number, "", pos, pos + VarintLen(buf, pos), Some(endian), Some(VarintValue(buf, pos)), None, None, NoChildren)
  }

  /** A length-delimited payload: `Len`, then `Content`; the position ends where the declared
      content ends. */
  function LengthDelimited(buf: seq<byte>, endian: Endian, pos: nat, stopAtBufferEnd: bool): (r: Result<Payload>)
    ensures r.Ok? ==> r.value.next >= pos
    ensures r.Ok? ==> r.value.region.startPos == pos && r.value.region.endPos == r.value.next
    decreases Remaining(buf, pos), 3
  {
    var l := LenRegion(buf, endian, pos);
    var content :- Content(buf, endian, l.endPos, VarintValue(buf, pos), stopAtBufferEnd);
    Ok(Payload(Region("LengthDelimited", Compound, "", pos, content.endPos, None, None, None, None, Sub([l, content])),
        content.endPos))
  }

  /** The `Content` of `size` bytes at `start`, whose children are the nested messages when
      their walk succeeds and none when it throws. Only a walk that never ends is not
      caught. */
  function Content(buf: seq<byte>, endian: Endian, start: nat, size: nat, stopAtBufferEnd: bool): (r: Result<Region>)
    ensures r.Ok? ==> r.value.startPos == start && r.value.endPos == start + size
    ensures r.Err? ==> r.error == Diverges
    decreases Remaining(buf, start), 2
  {
    ContentRegion(start, size, Messages(buf, endian, start, start + size, stopAtBufferEnd))
  }

  /** The `Content` region given the outcome of the nested walk. */
  function ContentRegion(start: nat, size: nat, nested: Result<Walk>): (r: Result<Region>)
    ensures r.Err? <==> nested == Err(Diverges)
    ensures r.Ok? && nested.Err? ==> r.value.children == Sub([])
  {
    if nested.Err? && nested.error == Diverges then Err(Diverges)
    else Ok(Region("Content", Compound, "", start, start + size, None, None, None, None,
                   Sub(if nested.Ok? then nested.value.regions else [])))
  }

  /** What `parse` returns: the messages that fill the whole buffer, little-endian. */
  function PbfRegions(buf: seq<byte>): Result<seq<Region>>
  {
    var r :- Messages(buf, LE, 0, |buf|, false);
    Ok(r.regions)
  }

  /** The outcome of a cursor method that ends at `position`, as the spec functions state it. */
  function Walked(r: Result<seq<Region>>, position: int): Result<Walk>
  {
    if r.Ok? then Ok(Walk(r.value, position)) else Err(r.error)
  }

  /** The outcome of a payload method that ends at `position`. */
  function Placed(r: Result<Region>, position: int): Result<Payload>
  {
    if r.Ok? && position >= 0 then Ok(Payload(r.value, position)) else if r.Ok? then Err(Diverges) else Err(r.error)
  }

  lemma ThenNil(rest: Result<Walk>)
    ensures Then([], rest) == rest
  {
    if rest.Ok? {
      assert [] + rest.value.regions == rest.value.regions;
    }
  }

  /** The message loop at the end of its range, or stuck at the end of the buffer. */
  lemma MessagesEnd(buf: seq<byte>, endian: Endian, pos: nat, end: int, done: seq<Region>)
    requires pos >= end || pos >= |buf|
    ensures pos >= end ==> Then(done, Messages(buf, endian, pos, end, false)) == Ok(Walk(done, pos))
    ensures pos < end ==> Then(done, Messages(buf, endian, pos, end, false)) == Err(Diverges)
  {
    assert done + [] == done;
  }

  /** One iteration of the message loop: the message read at `pos`, then the rest. */
  lemma MessagesStep(buf: seq<byte>, endian: Endian, pos: nat, end: int, m: Result<Payload>)
    requires pos < end && pos < |buf|
    requires m == OneMessage(buf, endian, pos, false)
    ensures Messages(buf, endian, pos, end, false)
            == if m.Err? then Err(m.error) else Then([m.value.region], Messages(buf, endian, m.value.next, end, false))
  {
  }

  /** Putting regions in front twice is putting them in front once. */
  lemma ThenThen(done: seq<Region>, more: seq<Region>, rest: Result<Walk>)
    ensures Then(done, Then(more, rest)) == Then(done + more, rest)
  {
    if rest.Ok? {
      assert done + (more + rest.value.regions) == done + more + rest.value.regions;
    }
  }

  /** A length-delimited payload given its content. */
  lemma LengthDelimitedIs(buf: seq<byte>, endian: Endian, pos: nat, c: Result<Region>)
    requires c == Content(buf, endian, pos + VarintLen(buf, pos), VarintValue(buf, pos), false)
    ensures LengthDelimited(buf, endian, pos, false)
            == if c.Err? then Err(c.error)
               else Ok(Payload(Region("LengthDelimited", Compound, "", pos, c.value.endPos, None, None, None, None,
                                      Sub([LenRegion(buf, endian, pos), c.value])), c.value.endPos))
  {
  }

  /** The tag of the message at the cursor. */
  method ReadTag(p: Helper, ghost buf: seq<byte>) returns (tag: Region, v: nat)
    requires p.buffer == buf && p.position >= 0
    modifies p
    ensures tag == TagRegion(buf, old(p.endian), old(p.position)) && v == VarintValue(buf, old(p.position))
    ensures p.position == tag.endPos && p.endian == old(p.endian)
  {
    var n;
    v, n := ParseVarint(p.buffer, p.position);
    tag := p.CreateGeneralRegion(p.position, n, "tag", "");
    tag := tag.(description := TagDescription(v));
  }

  /** `parseMessages(p, len)`: the loop over messages up to `p.position + len`. */
  method ParseMessages(p: Helper, len: int, ghost buf: seq<byte>) returns (r: Result<seq<Region>>)
    requires p.buffer == buf && p.position >= 0
    modifies p
    ensures Walked(r, p.position) == Messages(buf, old(p.endian), old(p.position), old(p.position) + len, false)
    ensures p.endian == old(p.endian) && p.position >= 0
    decreases Remaining(buf, p.position), 1
  {
    ghost var start, endian := p.position, p.endian;
    var ret: seq<Region> := [];
    var endPos := p.position + len;
    ThenNil(Messages(buf, endian, start, endPos, false));
    while p.position < endPos
      invariant p.buffer == buf && p.endian == endian && p.position >= start
      invariant Messages(buf, endian, start, endPos, false) == Then(ret, Messages(buf, endian, p.position, endPos, false))
      decreases Remaining(buf, p.position)
    {
      if p.position >= |p.buffer| {
        // The tag and the payload read here are empty: the source never leaves the loop.
        MessagesEnd(buf, endian, p.position, endPos, ret);
        return Err(Diverges);
      }
      ghost var pos := p.position;
      var m := ParseOneMessage(p, buf);
      MessagesStep(buf, endian, pos, endPos, Placed(m, p.position));
      if m.Err? {
        return Err(m.error);
      }
      var message := m.value;
      ThenThen(ret, [message], Messages(buf, endian, p.position, endPos, false));
      ret := ret + [message];
    }
    MessagesEnd(buf, endian, p.position, endPos, ret);
    return Ok(ret);
  }

  /** The body of the `parseMessages` loop: the tag, the payload its wire type calls for, and
      the `message` region over both. */
  method ParseOneMessage(p: Helper, ghost buf: seq<byte>) returns (r: Result<Region>)
    requires p.buffer == buf && 0 <= p.position < |buf|
    modifies p
    ensures Placed(r, p.position) == OneMessage(buf, old(p.endian), old(p.position), false)
    ensures p.endian == old(p.endian) && p.position >= 0
    decreases Remaining(buf, p.position), 0
  {
    var tag, v := ReadTag(p, buf);
    var m := ParseMessage(p, v % 8, buf);
    if m.Err? {
      return Err(m.error);
    }
    var message := p.CreateCompoundRegion(-1, -1, "message", "", [tag, m.value]);
    assert message == MessageRegion(tag, m.value);
    return Ok(message);
  }

  /** `parseMessage(p, type)`. */
  method ParseMessage(p: Helper, wireType: int, ghost buf: seq<byte>) returns (r: Result<Region>)
    requires p.buffer == buf && p.position >= 0
    modifies p
    ensures Placed(r, p.position) == Message(buf, old(p.endian), old(p.position), wireType, false)
    ensures p.endian == old(p.endian) && p.position >= 0
    decreases Remaining(buf, p.position), 4
  {
    if wireType == 0 {
      var v, n := ParseVarint(p.buffer, p.position);
      var region := p.CreateGeneralRegion(p.position, n, "Varint", "");
      return Ok(region.(kind := Number, numValue := Some(ZigZag(v))));
    } else if wireType == 5 {
      r := p.CreateNumberRegion(-1, 4, "Number32", "", false, Number);
    } else if wireType == 1 {
      r := p.CreateNumberRegion(-1, 8, "Number64", "", false, Number);
    } else if wireType == 2 {
      r := ParseLengthDelimited(p, buf);
    } else {
      return Err(UnknownWireType);
    }
  }

  /** The `Len` varint at the cursor. */
  method ReadLen(p: Helper, ghost buf: seq<byte>) returns (l: Region, v: nat)
    requires p.buffer == buf && p.position >= 0
    modifies p
    ensures l == LenRegion(buf, old(p.endian), old(p.position)) && v == VarintValue(buf, old(p.position))
    ensures p.position == l.endPos && p.endian == old(p.endian)
  {
    var n;
    v, n := ParseVarint(p.buffer, p.position);
    l := p.CreateGeneralRegion(p.position, n, "Len", "");
    l := l.(kind := Number, numValue := Some(v));
  }

  /** The length-delimited branch of `parseMessage`: whatever the nested walk does, the
      position ends at the end of the declared content. */
  method ParseLengthDelimited(p: Helper, ghost buf: seq<byte>) returns (r: Result<Region>)
    requires p.buffer == buf && p.position >= 0
    modifies p
    ensures Placed(r, p.position) == LengthDelimited(buf, old(p.endian), old(p.position), false)
    ensures p.endian == old(p.endian) && p.position >= 0
    decreases Remaining(buf, p.position), 3
  {
    ghost var pos := p.position;
    var l, v := ReadLen(p, buf);
    var startPos := p.position;
    var content := ParseContent(p, v, buf);
    LengthDelimitedIs(buf, old(p.endian), old(p.position), content);
    if content.Err? {
      assert Placed(Err(content.error), p.position) == LengthDelimited(buf, old(p.endian), old(p.position), false);
      return Err(content.error);
    }
    var region := p.CreateCompoundRegion(startPos, v, "LengthDelimited", "", [l, content.value]);
    assert region == Region("LengthDelimited", Compound, "", l.startPos, content.value.endPos, None, None, None, None,
                            Sub([l, content.value]));
    p.position := startPos + v;
    assert Placed(Ok(region), p.position) == Ok(Payload(region, startPos + v));
    assert Placed(Ok(region), p.position) == LengthDelimited(buf, old(p.endian), old(p.position), false);
    return Ok(region);
  }

  /** The `Content` compound region and the nested walk inside the `try`. */
  method ParseContent(p: Helper, size: nat, ghost buf: seq<byte>) returns (r: Result<Region>)
    requires p.buffer == buf && p.position >= 0
    modifies p
    ensures r == Content(buf, old(p.endian), old(p.position), size, false)
    ensures p.endian == old(p.endian) && p.position >= 0
    decreases Remaining(buf, p.position), 2
  {
    ghost var nestedSpec := Messages(buf, p.endian, p.position, p.position + size, false);
    var content := p.CreateCompoundRegion(p.position, size, "Content", "", []);
    var nested := ParseMessages(p, size, buf);
    assert Walked(nested, p.position) == nestedSpec;
    if nested.Ok? {
      content := content.(children := Sub(nested.value));
    } else if nested.error == Diverges {
      return Err(Diverges);
    }
    return Ok(content);
  }

  /** `parse(buffer)`: the messages over the whole buffer, little-endian. */
  method Parse(buffer: seq<byte>, text: TextDecoder) returns (r: Result<seq<Region>>)
    ensures r == PbfRegions(buffer)
  {
    var p := new Helper(text, buffer);
    p.SetEndian(LE);
    r := ParseMessages(p, |buffer|, buffer);
  }

  /** Regions laid end to end: the first starts at `from`, each starts where the one before
      it ends, and the last ends at `to`. */
  ghost predicate Tiles(rs: seq<Region>, from: int, to: int)
    decreases |rs|
  {
    if |rs| == 0 then from == to else rs[0].startPos == from && Tiles(rs[1..], rs[0].endPos, to)
  }

  /** The messages of a walk tile the bytes it read: the first starts at `pos`, each starts
      where the one before ended, and the walk ends where the last one does, at or past `end`
      (or, when it stops at the buffer end, at or past that). */
  lemma {:induction false} MessagesTile(buf: seq<byte>, endian: Endian, pos: nat, end: int, stop: bool)
    requires Messages(buf, endian, pos, end, stop).Ok?
    ensures var w := Messages(buf, endian, pos, end, stop).value;
            && Tiles(w.regions, pos, w.next)
            && (w.next >= end || (stop && w.next >= |buf|))
    decreases Remaining(buf, pos)
  {
    if pos < end && pos < |buf| {
      var m := OneMessage(buf, endian, pos, stop).value;
      MessagesTile(buf, endian, m.next, end, stop);
      var rest := Messages(buf, endian, m.next, end, stop).value;
      assert ([m.region] + rest.regions)[1..] == rest.regions;
    }
  }

  /** Wire types 5 and 1 read a 4- and an 8-byte unsigned number in the cursor's byte order
      (little-endian under `parse`); the read throws when those bytes leave the buffer. */
  lemma FixedWidths(buf: seq<byte>, endian: Endian, pos: nat, wireType: int, stop: bool)
    requires wireType == 5 || wireType == 1
    ensures var w := if wireType == 5 then 4 else 8;
            var r := Message(buf, endian, pos, wireType, stop);
            && (r.Ok? <==> pos + w <= |buf|)
            && (r.Err? ==> r.error == ReadPastEnd)
            && (r.Ok? ==> r.value.next == pos + w && r.value.region.kind == Number
                          && r.value.region.numValue == Some(if endian == BE then CommonUtil.BE(buf[pos..pos + w]) else CommonUtil.LE(buf[pos..pos + w])))
  {
    var w := if wireType == 5 then 4 else 8;
    var name := if wireType == 5 then "Number32" else "Number64";
    NumberRegionSpan(buf, endian, pos, w, name, "", false, Number);
    if pos + w <= |buf| {
      NumberRegionUnsigned(buf, endian, pos, w, name, "", Number);
    }
  }

  /** The first message: field 1, length-delimited, declaring 5 bytes of content of which
      none are present. */
  lemma StuckAtBufferEnd()
    ensures PbfRegions([0x0A, 0x05]) == Err(Diverges)
  {
    var buf: seq<byte> := [0x0A, 0x05];
    assert VarintLen(buf, 0) == 1 && VarintValue(buf, 0) == 10;
    assert VarintLen(buf, 1) == 1 && VarintValue(buf, 1) == 5;
    assert Messages(buf, LE, 2, 7, false) == Err(Diverges);
    assert Content(buf, LE, 2, 5, false) == Err(Diverges);
  }

  /** `parse` with the message loop leaving off at the end of the buffer. */
  function StoppingRegions(buf: seq<byte>): (r: Result<seq<Region>>)
    ensures r != Err(Diverges)
  {
    MessagesStop(buf, LE, 0, |buf|);
    var w :- Messages(buf, LE, 0, |buf|, true);
    Ok(w.regions)
  }

  /** A walk that stops at the buffer end always ends: it gives regions or a decoding error. */
  lemma {:induction false} MessagesStop(buf: seq<byte>, endian: Endian, pos: nat, end: int)
    ensures Messages(buf, endian, pos, end, true) != Err(Diverges)
    decreases Remaining(buf, pos), 1
  {
    if pos < end && pos < |buf| {
      var tag := TagRegion(buf, endian, pos);
      MessageStop(buf, endian, tag.endPos, VarintValue(buf, pos) % 8);
      var m := OneMessage(buf, endian, pos, true);
      if m.Ok? {
        MessagesStop(buf, endian, m.value.next, end);
      }
    }
  }

  lemma {:induction false} MessageStop(buf: seq<byte>, endian: Endian, pos: nat, wireType: int)
    ensures Message(buf, endian, pos, wireType, true) != Err(Diverges)
    decreases Remaining(buf, pos), 4
  {
    if wireType == 5 || wireType == 1 {
      FixedWidths(buf, endian, pos, wireType, true);
    } else if wireType == 2 {
      var start := pos + VarintLen(buf, pos);
      MessagesStop(buf, endian, start, start + VarintValue(buf, pos));
      assert Content(buf, endian, start, VarintValue(buf, pos), true).Ok?;
    }
  }

  /** After a length-delimited payload the position is exactly the start of its content plus
      the declared length, whatever the nested walk did; a nested walk that throws leaves the
      `Content` region without children, and only one that never ends is not caught. */
  lemma LengthDelimitedEnds(buf: seq<byte>, endian: Endian, pos: nat, stop: bool)
    ensures var r := LengthDelimited(buf, endian, pos, stop);
            var start := pos + VarintLen(buf, pos);
            var nested := Messages(buf, endian, start, start + VarintValue(buf, pos), stop);
            && (r.Err? <==> nested == Err(Diverges))
            && (r.Ok? ==> r.value.next == start + VarintValue(buf, pos)
                          && r.value.region.children.Sub? && |r.value.region.children.regions| == 2
                          && r.value.region.children.regions[1].children
                             == Sub(if nested.Ok? then nested.value.regions else []))
  {
    var start := pos + VarintLen(buf, pos);
    var size := VarintValue(buf, pos);
    var content := Content(buf, endian, start, size, stop);
    assert content == ContentRegion(start, size, Messages(buf, endian, start, start + size, stop));
  }
}
