/** The BER decoder of src/parser/asn.ts: a walk over type-length-value triples as laid
    out in section 8.1 of ITU-T X.690. Each TLV becomes a compound region with Type, Length
    and Value children; a constructed value is decoded again, over the buffer cut at the end
    of its declared content. */
module Asn {
  import opened Wrappers
  import opened CommonUtil
  import opened Dom
  import opened CommonParser
  import Text

  /** Labels of the universal-class tag numbers 0 to 36. */
  const StandardTypes: seq<string> := [
    "EOC", "Boolean", "Integer", "BitString", "OctetString", "NULL", "OID", "ObjectDescriptor",
    "External", "Real", "Enumerated", "EmbededPDV", "UTF8String", "RelativeOID", "Time", "Reserved",
    "Sequence", "Set", "NumericString", "PrintableString", "T61String", "VideotexString", "IA5String",
    "UTCTime", "GeneralizedTime", "GraphicString", "VisibleString", "GeneralString", "UniversalString",
    "CharacterString", "BMPString", "Date", "TimeOfDay", "DateTime", "Duration", "OIDIRI", "RelativeOIDIRI"]

  /** Tag class 0 is Universal, 1 Application, 2 Context-specific, 3 Private. */
  datatype AsnType = AsnType(tagClass: int, constructed: bool, tagNumber: int)

  /** The identifier octet split into class (bits 8-7), constructed bit (bit 6) and low tag
      bits (bits 5-1), section 8.1.2 of ITU-T X.690. */
  function IdentifierFields(b: byte): (int, bool, int)
  {
    (b / 64, (b / 32) % 2 == 1, b % 32)
  }

  /** The fields are the source's shifts and masks, `b >> 6`, `(b >> 5) & 1` and `b & 0x1F`,
      for every octet `x`. */
  lemma IdentifierFieldsAreShifts(x: bv8)
    ensures IdentifierFields(x as int) == ((x >> 6) as int, (x >> 5) & 1 == 1, (x & 0x1F) as int)
  {
    ClassIsShift(x);
    ConstructedIsShift(x);
    TagBitsAreMask(x);
  }

  lemma ClassIsShift(x: bv8)
    ensures (x >> 6) as int == (x as int) / 64
  {
  }

  lemma ConstructedIsShift(x: bv8)
    ensures ((x >> 5) & 1 == 1) == (((x as int) / 32) % 2 == 1)
  {
  }

  lemma TagBitsAreMask(x: bv8)
    ensures (x & 0x1F) as int == (x as int) % 32
  {
  }

  /** Together the fields give back the octet. */
  lemma IdentifierFieldsSplit(b: byte)
    ensures var (c, k, n) := IdentifierFields(b);
            b == c * 64 + (if k then 32 else 0) + n
  {
  }

  /** The high-tag-number form: bytes from index `i` on add their low 7 bits to `acc`, most
      significant first, up to and including the first byte below 0x80. Past the end the
      source reads `undefined`, which never ends the loop. */
  function LongTag(arr: seq<byte>, i: nat, acc: nat): (r: Result<(nat, nat)>)
    decreases |arr| - i
    ensures r.Ok? ==> i < r.value.1 <= |arr|
  {
    if i >= |arr| then Err(Diverges)
    else
      var acc' := acc * 128 + arr[i] % 128;
      if arr[i] < 128 then Ok((acc', i + 1)) else LongTag(arr, i + 1, acc')
  }

  /** `parseAsnType(arr)`: the type and the number of identifier octets. An empty array reads
      `undefined`, whose bits are all 0. */
  function ParseAsnType(arr: seq<byte>): (r: Result<(AsnType, nat)>)
  {
    var f := IdentifierFields(if |arr| > 0 then arr[0] else 0);
    if f.2 == 0x1F then
      var long :- LongTag(arr, 1, 0);
      Ok((AsnType(f.0, f.1, long.0), long.1))
    else
      Ok((AsnType(f.0, f.1, f.2), 1))
  }

  /** The long-form loop ends exactly when some byte from `i` on is below 0x80. */
  lemma {:induction false} LongTagFinds(arr: seq<byte>, i: nat, acc: nat)
    requires 1 <= i <= |arr|
    ensures var r := LongTag(arr, i, acc);
            && (r.Ok? <==> exists j :: i <= j < |arr| && arr[j] < 128)
            && (r.Err? ==> r.error == Diverges)
    decreases |arr| - i
  {
    if i < |arr| {
      if arr[i] >= 128 {
        LongTagFinds(arr, i + 1, acc * 128 + arr[i] % 128);
      } else {
        assert i <= i < |arr| && arr[i] < 128;
      }
    }
  }

  /** When the long-form loop ends, it stopped at the first byte below 0x80 from `i` on, and
      the tag number accumulated so far is the base-128 value of the bytes from index 1. */
  lemma {:induction false} LongTagStops(arr: seq<byte>, i: nat)
    requires 1 <= i <= |arr|
    ensures var r := LongTag(arr, i, Base128(arr[1..i]));
            r.Ok? ==> var (tag, end) := r.value;
                      && i < end <= |arr| && arr[end - 1] < 128
                      && (forall j :: i <= j < end - 1 ==> arr[j] >= 128)
                      && tag == Base128(arr[1..end])
    decreases |arr| - i
  {
    if i < |arr| {
      var acc := Base128(arr[1..i]);
      var acc' := acc * 128 + arr[i] % 128;
      assert arr[1..i + 1][..i - 1] == arr[1..i];
      assert Base128(arr[1..i + 1]) == acc';
      if arr[i] >= 128 {
        LongTagStops(arr, i + 1);
        assert LongTag(arr, i, acc) == LongTag(arr, i + 1, acc');
      } else {
        assert LongTag(arr, i, acc) == Ok((acc', i + 1));
      }
    }
  }

  /** High-tag form (low bits 0x1F): the tag number is the base-128 value of the bytes after
      the first, up to and including the first one below 0x80, and the identifier is one byte
      longer than those; with no such byte the source loops forever. */
  lemma LongTagForm(arr: seq<byte>)
    requires |arr| > 0 && arr[0] % 32 == 31
    ensures var r := ParseAsnType(arr);
            && (r.Ok? <==> exists j :: 1 <= j < |arr| && arr[j] < 128)
            && (r.Err? ==> r.error == Diverges)
            && (r.Ok? ==> var (t, tl) := r.value;
                          && 2 <= tl <= |arr| && arr[tl - 1] < 128
                          && (forall j :: 1 <= j < tl - 1 ==> arr[j] >= 128)
                          && t.tagNumber == Base128(arr[1..tl])
                          && t.tagClass == arr[0] / 64 && t.constructed == ((arr[0] / 32) % 2 == 1))
  {
    assert Base128(arr[1..1]) == 0;
    LongTagFinds(arr, 1, 0);
    LongTagStops(arr, 1);
  }

  /** Low-tag form: one identifier octet, the tag number being its low five bits. */
  lemma ShortTagForm(arr: seq<byte>)
    requires |arr| > 0 && arr[0] % 32 != 31
    ensures ParseAsnType(arr) == Ok((AsnType(arr[0] / 64, (arr[0] / 32) % 2 == 1, arr[0] % 32), 1))
  {
  }

  /** The indefinite-form scan: the first index `i` with two consecutive zero bytes. An index
      past the end reads `undefined`, so without a terminator the scan never ends. */
  function FindEoc(arr: seq<byte>, i: nat): (r: Result<nat>)
    decreases |arr| - i
    ensures r.Ok? ==> i <= r.value && r.value + 1 < |arr| && arr[r.value] == 0 && arr[r.value + 1] == 0
    ensures r.Err? ==> r.error == Diverges
  {
    if i + 1 >= |arr| then Err(Diverges)
    else if arr[i] == 0 && arr[i + 1] == 0 then Ok(i)
    else FindEoc(arr, i + 1)
  }

  lemma {:induction false} FindEocFirst(arr: seq<byte>, i: nat)
    ensures var r := FindEoc(arr, i);
            && (r.Ok? <==> exists j :: i <= j && j + 1 < |arr| && arr[j] == 0 && arr[j + 1] == 0)
            && (r.Ok? ==> forall j :: i <= j < r.value ==> !(arr[j] == 0 && arr[j + 1] == 0))
    decreases |arr| - i
  {
    if i + 1 < |arr| && !(arr[i] == 0 && arr[i + 1] == 0) {
      FindEocFirst(arr, i + 1);
    }
  }

  /** `parseAsnLength(arr)`: (content length, number of length octets, indefinite?).
      Section 8.1.3 of ITU-T X.690: a byte below 0x80 is the length itself; 0x80 announces
      content closed by two zero bytes; otherwise its low 7 bits count the big-endian length
      bytes that follow. An empty array reads `undefined`: no comparison holds, the long form
      is taken with zero length bytes, and the length is 0. */
  function ParseAsnLength(arr: seq<byte>): (r: Result<(int, int, bool)>)
    ensures r.Ok? ==> r.value.0 >= 0 && r.value.1 >= 1
  {
    if |arr| > 0 && arr[0] < 0x80 then Ok((arr[0], 1, false))
    else if |arr| > 0 && arr[0] == 0x80 then
      var i :- FindEoc(arr, 0);
      Ok((i - 1, 1, true))
    else
      var ll := if |arr| > 0 then arr[0] % 128 else 0;
      var l :- LongLength(arr, ll);
      Ok((l, ll + 1, false))
  }

  /** The long form's `parseValue(arr, 1, ll + 1, true, false)`: the `ll` bytes after the first,
      big-endian; reading past the end throws. */
  function LongLength(arr: seq<byte>, ll: nat): (r: Result<int>)
  {
    if ll + 1 <= |arr| then Ok(CommonUtil.BE(arr[1..ll + 1]))
    else if ll == 0 then Ok(0)
    else Err(ReadPastEnd)
  }

  /** `LongLength` is the shared integer reader on those bytes. */
  lemma LongLengthIsParseValue(arr: seq<byte>, ll: nat)
    ensures LongLength(arr, ll) == ParseValueSpec(arr, 1, ll + 1, true, false)
  {
  }

  /** The three length forms: short, long (big-endian, throws when the length bytes run past
      the end) and indefinite (content up to the first pair of zero bytes). */
  lemma LengthForms(arr: seq<byte>)
    requires |arr| > 0
    ensures arr[0] < 0x80 ==> ParseAsnLength(arr) == Ok((arr[0], 1, false))
    ensures arr[0] > 0x80 ==> var n := arr[0] - 0x80;
              ParseAsnLength(arr) == if n + 1 <= |arr| then Ok((CommonUtil.BE(arr[1..n + 1]), n + 1, false))
                                     else Err(ReadPastEnd)
    ensures arr[0] == 0x80 ==> var r := ParseAsnLength(arr);
              && (r.Ok? <==> exists j :: 1 <= j && j + 1 < |arr| && arr[j] == 0 && arr[j + 1] == 0)
              && (r.Ok? ==> var i := r.value.0 + 1;
                            && r.value.1 == 1 && r.value.2
                            && 1 <= i && i + 1 < |arr| && arr[i] == 0 && arr[i + 1] == 0
                            && forall j :: 1 <= j < i ==> !(arr[j] == 0 && arr[j + 1] == 0))
  {
    if arr[0] == 0x80 {
      FindEocFirst(arr, 0);
    }
  }

  /** The decoded header of one TLV. */
  datatype Header = Header(t: AsnType, tl: int, l: int, ll: int, eoc: bool)

  function ReadHeader(arr: seq<byte>): (r: Result<Header>)
    requires |arr| > 0
    ensures r.Ok? ==> r.value.tl >= 1 && r.value.ll >= 1 && r.value.l >= 0
  {
    var ty :- ParseAsnType(arr);
    var len :- ParseAsnLength(arr[ty.1..]);
    Ok(Header(ty.0, ty.1, len.0, len.1, len.2))
  }

  /** The label of a type: a universal tag's standard name (absent beyond the table), or
      else the decimal tag number. */
  function Label(t: AsnType): Option<string>
  {
    if t.tagClass == 0 then (if 0 <= t.tagNumber < |StandardTypes| then Some(StandardTypes[t.tagNumber]) else None)
    else Some(Text.Decimal(t.tagNumber))
  }

  /** `${x}` of an optional string. */
  function Template(s: Option<string>): string
  {
    if s.Some? then s.value else "undefined"
  }

  /** The Type child: the identifier octets, described by the tag number and valued by its label. */
  function TypeRegion(h: Header, pos: int, endian: Endian): Region
  {
    Region("Type", General, Text.Decimal(h.t.tagNumber), pos, pos + h.tl, Some(endian), None, Label(h.t), None, NoChildren)
  }

  /** The Length child: the length octets, valued by the content length. */
  function LengthRegion(h: Header, pos: int, endian: Endian): Region
  {
    Region("Length", General, "length: " + Text.Decimal(h.l), pos + h.tl, pos + h.tl + h.ll, Some(endian), Some(h.l), None, None, NoChildren)
  }

  /** The Value child of a constructed type, holding the TLVs nested in it. */
  function ValueRegion(h: Header, pos: int, sub: seq<Region>): Region
  {
    var vs := pos + h.tl + h.ll;
    var ve := vs + h.l + (if h.eoc then 2 else 0);
    Region("Value", Compound, "", vs, ve, None, None, Some(Text.Decimal(vs) + " - " + Text.Decimal(ve)), None, Sub(sub))
  }

  /** The Value child of a primitive type. */
  function PrimitiveRegion(h: Header, pos: int, endian: Endian): Region
  {
    var vs := pos + h.tl + h.ll;
    Region("Value", General, "", vs, vs + h.l + (if h.eoc then 2 else 0), Some(endian), None, None, None, NoChildren)
  }

  /** The TLV itself, valued by the label of its type, over its Type, Length and Value
      children; `sub` are the TLVs nested in a constructed value. */
  function TlvRegion(h: Header, pos: int, endian: Endian, sub: seq<Region>): Region
  {
    var V := if h.t.constructed then ValueRegion(h, pos, sub) else PrimitiveRegion(h, pos, endian);
    Region("TLV", Compound, "", pos, pos + h.tl + h.ll + h.l + (if h.eoc then 2 else 0), None, None,
           Some(Template(Label(h.t))), None, Sub([TypeRegion(h, pos, endian), LengthRegion(h, pos, endian), V]))
  }

  /** The TLVs nested in a constructed value: decoded again from the value's start, over the
      buffer cut at the end of the declared content; none for a primitive value. */
  function Nested(text: TextDecoder, buf: seq<byte>, pos: int, h: Header): Result<seq<Region>>
    requires 0 <= pos < |buf| && h.tl >= 1 && h.ll >= 1 && h.l >= 0
    decreases |buf| - pos, 0
  {
    var vs := pos + h.tl + h.ll;
    if h.t.constructed then Tlvs(text, Slice(buf, 0, vs + h.l), vs, LE) else Ok([])
  }

  /** The TLV that starts at `pos`. */
  function TlvAt(text: TextDecoder, buf: seq<byte>, pos: int, endian: Endian): (r: Result<Region>)
    requires 0 <= pos < |buf|
    decreases |buf| - pos, 1
    ensures r.Ok? ==> r.value.startPos == pos && r.value.endPos > pos
  {
    var h :- ReadHeader(buf[pos..]);
    var sub :- Nested(text, buf, pos, h);
    Ok(TlvRegion(h, pos, endian, sub))
  }

  /** `TlvAt` once the header and the nested TLVs are known. */
  lemma TlvAtIs(text: TextDecoder, buf: seq<byte>, pos: int, endian: Endian, h: Header, sub: Result<seq<Region>>)
    requires 0 <= pos < |buf| && ReadHeader(buf[pos..]) == Ok(h)
    requires sub == Nested(text, buf, pos, h)
    ensures TlvAt(text, buf, pos, endian) == if sub.Err? then Err(sub.error) else Ok(TlvRegion(h, pos, endian, sub.value))
  {
  }

  /** `parseTLV` from `pos`: TLVs one after the other until the position reaches the end of
      the buffer. */
  function Tlvs(text: TextDecoder, buf: seq<byte>, pos: int, endian: Endian): Result<seq<Region>>
    requires 0 <= pos
    decreases |buf| - pos, 2
  {
    if pos >= |buf| then Ok([])
    else
      var tlv :- TlvAt(text, buf, pos, endian);
      var rest :- Tlvs(text, buf, tlv.endPos, endian);
      Ok([tlv] + rest)
  }

  /** The shape of a TLV region: Type, Length and Value children in that order, tiling it. */
  predicate Tiled(tlv: Region, h: Header, pos: int)
  {
    && tlv.children.Sub? && |tlv.children.regions| == 3
    && var T := tlv.children.regions[0];
    var L := tlv.children.regions[1];
    var V := tlv.children.regions[2];
    && T.startPos == tlv.startPos == pos && T.endPos == L.startPos && L.endPos == V.startPos
    && V.endPos == tlv.endPos
    && T.endPos - T.startPos == h.tl && L.endPos - L.startPos == h.ll
    && tlv.endPos - tlv.startPos == h.tl + h.ll + h.l + (if h.eoc then 2 else 0)
    && L.numValue == Some(h.l)
    && tlv.strValue == Some(Template(Label(h.t)))
    && (if h.t.constructed then V.kind == Compound && V.children.Sub? else V.kind == General && V.children == NoChildren)
  }

  lemma TlvRegionTiled(h: Header, pos: int, endian: Endian, sub: seq<Region>)
    ensures Tiled(TlvRegion(h, pos, endian, sub), h, pos)
    ensures h.t.constructed ==> TlvRegion(h, pos, endian, sub).children.regions[2].children == Sub(sub)
  {
  }

  /** A TLV is tiled by its Type, Length and Value children, in that order: the Type holds the
      identifier octets, the Length the length octets and its value, and the Value the content
      plus the two end-of-contents bytes of the indefinite form. A constructed Value holds the
      TLVs decoded from the buffer cut at the end of the declared content. */
  lemma TlvLayout(text: TextDecoder, buf: seq<byte>, pos: int, endian: Endian, h: Header, tlv: Region)
    requires 0 <= pos < |buf|
    requires ReadHeader(buf[pos..]) == Ok(h)
    requires TlvAt(text, buf, pos, endian) == Ok(tlv)
    ensures Tiled(tlv, h, pos)
    ensures h.t.constructed ==> Nested(text, buf, pos, h) == Ok(tlv.children.regions[2].children.regions)
  {
    var n := Nested(text, buf, pos, h);
    TlvAtIs(text, buf, pos, endian, h, n);
    TlvShape(text, buf, pos, endian, h, n, tlv);
  }

  /** The layout of a TLV region built from its header and its nested TLVs. */
  lemma TlvShape(text: TextDecoder, buf: seq<byte>, pos: int, endian: Endian, h: Header,
                 n: Result<seq<Region>>, tlv: Region)
    requires 0 <= pos < |buf| && h.tl >= 1 && h.ll >= 1 && h.l >= 0
    requires n == Nested(text, buf, pos, h)
    requires (if n.Err? then Err(n.error) else Ok(TlvRegion(h, pos, endian, n.value))) == Ok(tlv)
    ensures Tiled(tlv, h, pos)
    ensures h.t.constructed ==> Nested(text, buf, pos, h) == Ok(tlv.children.regions[2].children.regions)
  {
    assert n.Ok? && tlv == TlvRegion(h, pos, endian, n.value);
    TlvRegionTiled(h, pos, endian, n.value);
  }

  /** The TLVs of one level follow each other without gap from `pos`, and the last one ends at
      or past the end of the buffer. */
  lemma {:induction false} TlvsTile(text: TextDecoder, buf: seq<byte>, pos: int, endian: Endian)
    requires 0 <= pos
    requires Tlvs(text, buf, pos, endian).Ok?
    ensures var rs := Tlvs(text, buf, pos, endian).value;
            && (|rs| == 0 <==> pos >= |buf|)
            && (|rs| > 0 ==> rs[0].startPos == pos && rs[|rs| - 1].endPos >= |buf|)
            && (forall i :: 0 <= i < |rs| - 1 ==> rs[i].endPos == rs[i + 1].startPos)
            && (forall i :: 0 <= i < |rs| ==> rs[i].startPos < rs[i].endPos)
    decreases |buf| - pos
  {
    if pos < |buf| {
      var tlv := TlvAt(text, buf, pos, endian).value;
      TlvsTile(text, buf, tlv.endPos, endian);
      var rest := Tlvs(text, buf, tlv.endPos, endian).value;
      assert Tlvs(text, buf, pos, endian).value == [tlv] + rest;
    }
  }

  /** One step of `parseTLV`'s loop: the TLV at `pos` joins the regions already read, or its
      error ends the level. */
  lemma TlvsStep(text: TextDecoder, buf: seq<byte>, pos: int, endian: Endian, acc: seq<Region>)
    requires 0 <= pos < |buf|
    ensures var t := TlvAt(text, buf, pos, endian);
            && (t.Err? ==> Tlvs(text, buf, pos, endian) == Err(t.error))
            && (t.Ok? ==> Prepend(acc, Tlvs(text, buf, pos, endian)) == Prepend(acc + [t.value], Tlvs(text, buf, t.value.endPos, endian)))
  {
    var t := TlvAt(text, buf, pos, endian);
    if t.Ok? {
      var rest := Tlvs(text, buf, t.value.endPos, endian);
      assert Tlvs(text, buf, pos, endian) == Prepend([t.value], rest);
      if rest.Ok? {
        assert acc + ([t.value] + rest.value) == acc + [t.value] + rest.value;
      }
    }
  }

  /** The Type and Length regions of a TLV whose header is `h`, read at the position, which
      moves past both. */
  method ReadTypeLength(p: ParseHelper, h: Header) returns (T: Region, L: Region)
    requires h.tl >= 1 && h.ll >= 1
    modifies p
    ensures T == TypeRegion(h, old(p.position), p.endian) && L == LengthRegion(h, old(p.position), p.endian)
    ensures p.position == old(p.position) + h.tl + h.ll
    ensures p.endian == old(p.endian) && p.num == old(p.num)
  {
    T := p.CreateGeneralRegion(-1, h.tl, "Type", Text.Decimal(h.t.tagNumber));
    T := T.(strValue := Label(h.t));
    L := p.CreateGeneralRegion(-1, h.ll, "Length", "length: " + Text.Decimal(h.l));
    L := L.(numValue := Some(h.l));
  }

  /** The Value region of the TLV at `pos`, read at the position just past its Length: a
      constructed value is decoded again by a fresh cursor over the buffer cut at the end of
      the declared content. */
  method ReadValue(p: ParseHelper, h: Header, ghost pos: int) returns (r: Result<Region>)
    requires 0 <= pos < |p.buffer| && h.tl >= 1 && h.ll >= 1 && h.l >= 0
    requires p.position == pos + h.tl + h.ll
    modifies p
    decreases |p.buffer| - pos, 1
    ensures var n := Nested(p.text, p.buffer, pos, h);
            r == if n.Err? then Err(n.error)
                 else Ok(if h.t.constructed then ValueRegion(h, pos, n.value) else PrimitiveRegion(h, pos, p.endian))
    ensures p.endian == old(p.endian) && p.num == old(p.num)
  {
    if h.t.constructed {
      r := ReadConstructed(p, h, pos);
    } else {
      var V := p.CreateGeneralRegion(-1, h.l + (if h.eoc then 2 else 0), "Value", "");
      return Ok(V);
    }
  }

  /** A constructed Value: a compound region over the content, holding the TLVs read by a
      cursor over the buffer cut at the end of the declared content. */
  method ReadConstructed(p: ParseHelper, h: Header, ghost pos: int) returns (r: Result<Region>)
    requires 0 <= pos < |p.buffer| && h.tl >= 1 && h.ll >= 1 && h.l >= 0 && h.t.constructed
    requires p.position == pos + h.tl + h.ll
    decreases |p.buffer| - pos, 0
    ensures var n := Nested(p.text, p.buffer, pos, h);
            r == if n.Err? then Err(n.error) else Ok(ValueRegion(h, pos, n.value))
  {
    var e2 := if h.eoc then 2 else 0;
    var b2 := Slice(p.buffer, 0, p.position + h.l);
    var V := p.CreateCompoundRegion(-1, h.l + e2, "Value", "", []);
    V := V.(strValue := Some(Text.Decimal(V.startPos) + " - " + Text.Decimal(V.endPos)));
    var sub := NestedTlvs(p.text, b2, V.startPos);
    assert sub == Nested(p.text, p.buffer, pos, h);
    if sub.Err? {
      return Err(sub.error);
    }
    V := V.(children := Sub(sub.value));
    return Ok(V);
  }

  /** The TLVs of a constructed value, read by a fresh cursor over the cut buffer, placed at
      the value's start. */
  method NestedTlvs(text: TextDecoder, buf: seq<byte>, pos: int) returns (r: Result<seq<Region>>)
    requires 0 <= pos
    decreases |buf| - pos, 5
    ensures r == Tlvs(text, buf, pos, LE)
  {
    var p2 := new ParseHelper(text, buf);
    p2.position := pos;
    r := ParseTLV(p2);
  }

  /** The body of `parseTLV`'s loop: one TLV read at the position, which then moves to its end. */
  method ParseOne(p: ParseHelper) returns (r: Result<Region>)
    requires 0 <= p.position < |p.buffer|
    modifies p
    decreases |p.buffer| - p.position, 3
    ensures r == TlvAt(p.text, p.buffer, old(p.position), p.endian)
    ensures r.Ok? ==> p.position == r.value.endPos
    ensures p.endian == old(p.endian) && p.num == old(p.num)
  {
    var pos := p.position;
    var hr := ReadHeader(p.buffer[pos..]);
    if hr.Err? {
      return Err(hr.error);
    }
    var h := hr.value;
    TlvAtIs(p.text, p.buffer, pos, p.endian, h, Nested(p.text, p.buffer, pos, h));
    r := ReadTlv(p, h, pos);
  }

  /** The regions of the TLV at the position once its header `h` is decoded: Type, Length and
      Value read in turn, then the TLV over them; the position moves to the TLV's end. */
  method ReadTlv(p: ParseHelper, h: Header, ghost pos: int) returns (r: Result<Region>)
    requires 0 <= pos < |p.buffer| && h.tl >= 1 && h.ll >= 1 && h.l >= 0
    requires p.position == pos
    modifies p
    decreases |p.buffer| - pos, 2
    ensures var n := Nested(p.text, p.buffer, pos, h);
            r == if n.Err? then Err(n.error) else Ok(TlvRegion(h, pos, p.endian, n.value))
    ensures r.Ok? ==> p.position == r.value.endPos
    ensures p.endian == old(p.endian) && p.num == old(p.num)
  {
    var T, L := ReadTypeLength(p, h);
    var V := ReadValue(p, h, pos);
    if V.Err? {
      return Err(V.error);
    }
    var tlv := p.CreateCompoundRegion(T.startPos, h.tl + h.ll + h.l + (if h.eoc then 2 else 0), "TLV", "", [T, L, V.value]);
    tlv := tlv.(strValue := Some(Template(T.strValue)));
    p.position := tlv.endPos;
    return Ok(tlv);
  }

  /** `parseTLV(p)`: reads TLVs while the position lies inside the buffer. */
  method ParseTLV(p: ParseHelper) returns (r: Result<seq<Region>>)
    requires 0 <= p.position
    modifies p
    decreases |p.buffer| - p.position, 4
    ensures r == Tlvs(p.text, p.buffer, old(p.position), p.endian)
    ensures r.Ok? ==> p.position == if |r.value| == 0 then old(p.position) else r.value[|r.value| - 1].endPos
    ensures p.endian == old(p.endian) && p.num == old(p.num)
  {
    var acc: seq<Region> := [];
    ghost var all := Tlvs(p.text, p.buffer, p.position, p.endian);
    assert all.Ok? ==> [] + all.value == all.value;
    while p.position < |p.buffer|
      invariant old(p.position) <= p.position
      invariant Tlvs(p.text, p.buffer, old(p.position), p.endian) == Prepend(acc, Tlvs(p.text, p.buffer, p.position, p.endian))
      invariant p.position == if |acc| == 0 then old(p.position) else acc[|acc| - 1].endPos
      invariant p.endian == old(p.endian) && p.num == old(p.num)
      decreases |p.buffer| - p.position
    {
      TlvsStep(p.text, p.buffer, p.position, p.endian, acc);
      var tlv := ParseOne(p);
      if tlv.Err? {
        return Err(tlv.error);
      }
      acc := acc + [tlv.value];
    }
    assert acc + [] == acc;
    return Ok(acc);
  }

  /** `parse(buffer)`: the TLVs of the whole buffer, read with a fresh cursor. */
  method Parse(text: TextDecoder, buffer: seq<byte>) returns (r: Result<seq<Region>>)
    ensures r == Tlvs(text, buffer, 0, LE)
  {
    var p := new ParseHelper(text, buffer);
    r := ParseTLV(p);
  }

  /** `isSupportedFile`: by extension only. */
  predicate IsSupportedFile(ext: string)
  {
    ext == "ber" || ext == "der" || ext == "cer"
  }
}
