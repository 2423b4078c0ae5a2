/** The JPEG decoder of src/parser/jpg.ts over the `ParseHelper` cursor in big-endian order.
    The file must start with the SOI marker FF D8. Markers follow it while the cursor is in
    the buffer: the walk stops at the first byte that is not FF. End Of Image and the restart
    markers D0-D6 are two bytes alone; any other marker opens a segment of Length(2) and
    Length - 2 data bytes, and a Start Of Scan segment also takes the entropy-coded bytes up
    to the next marker that is not a stuffed zero or a restart. */
module Jpg {
  import opened Wrappers
  import opened CommonUtil
  import opened Dom
  import opened CommonParser
  import Text

  const JpgSignature: seq<byte> := [0xFF, 0xD8]

  /** `isSupportedFile`: the extension `jpg`, or else the SOI marker at byte 0; the marker
      test throws on a buffer shorter than 2 bytes. */
  function IsSupportedFile(ext: string, buf: seq<byte>): Result<bool>
  {
    if ext == "jpg" then Ok(true) else CheckContentSpec(buf, 0, JpgSignature)
  }

  /** `bytes[i]` of a `Uint8Array`: undefined outside the buffer. */
  function ByteAt(buf: seq<byte>, i: int): Option<byte>
  {
    if 0 <= i < |buf| then Some(buf[i]) else None
  }

  /** FF at `x` followed by a byte that is neither a stuffed 00 nor a restart marker D0-D7:
      where the entropy-coded data of a scan ends. */
  predicate EndsScan(buf: seq<byte>, x: nat)
    requires x + 1 < |buf|
  {
    buf[x] == 0xFF && buf[x + 1] != 0x00 && (buf[x + 1] < 0xD0 || buf[x + 1] > 0xD7)
  }

  /** Where the scan loop started at `x` stops: the first `EndsScan` position, or the last
      byte of the buffer when there is none, or `x` itself when it is already there. */
  function ScanEnd(buf: seq<byte>, x: nat): (e: nat)
    ensures x <= e
    decreases |buf| - x
  {
    if x + 1 >= |buf| then x
    else if EndsScan(buf, x) then x
    else ScanEnd(buf, x + 1)
  }

  /** The segment opened by the marker at `pos`: Marker, Length and Data, the segment's span
      ending with the data, plus the Scan Data up to `ScanEnd` after a Start Of Scan marker
      (DA). Its text is the two marker bytes in hex and the span's length. A Length of 1
      gives the data a width of -1, which the cursor reads as the rest of the buffer. */
  function SegmentAt(text: TextDecoder, buf: seq<byte>, pos: nat): (r: Result<Region>)
    ensures r.Ok? ==> r.value.startPos == pos && r.value.endPos >= pos + 2
  {
    var l :- FieldAt(text, buf, BE, pos + 2, N(2, "Length"));
    UnsignedRange(buf, pos + 2, pos + 4, true);
    Ok(Labelled(buf, Span(buf, pos, l)))
  }

  /** The span of the segment at `pos` with Length row `l`, before its text is set. */
  function Span(buf: seq<byte>, pos: nat, l: Region): (s: Region)
    requires pos + 4 <= |buf| && l.numValue.Some? && l.numValue.value >= 0
    ensures s.startPos == pos && s.endPos >= pos + 2
  {
    var m := GeneralAt(BE, pos, 2, "Marker", "");
    var d := GeneralAt(BE, pos + 4, ResolveLength(l.numValue.value - 2, pos + 4, |buf|), "Data", "");
    var plain := Region("Segment", Compound, "", pos, d.endPos, None, None, None, None, Sub([m, l, d]));
    if buf[pos + 1] == 0xDA then ScanSegment(buf, plain, d.endPos) else plain
  }

  /** A segment's text: its marker bytes in hex, then its length in brackets. */
  function Labelled(buf: seq<byte>, s: Region): Region
    requires 0 <= s.startPos && s.startPos + 1 < |buf|
  {
    s.(strValue := Some(Text.Hex(buf[s.startPos]) + Text.Hex(buf[s.startPos + 1]) + " (" + Text.Decimal(s.endPos - s.startPos) + ")"))
  }

  /** A Start Of Scan segment `s` stretched over the Scan Data that follows its data at `at`. */
  function ScanSegment(buf: seq<byte>, s: Region, at: nat): Region
    requires s.children.Sub?
  {
    var scan := GeneralAt(BE, at, ScanEnd(buf, at) - at, "Scan Data", "");
    s.(endPos := scan.endPos, children := Sub(s.children.regions + [scan]))
  }

  /** The region of the marker at `pos`: the marker alone, named End Of Image for D9 and
      Restart for D0-D6, or else the segment it opens. The second byte is undefined at the
      end of the buffer, which selects the segment. */
  function MarkerAt(text: TextDecoder, buf: seq<byte>, pos: nat): (r: Result<Region>)
    ensures r.Ok? ==> r.value.startPos == pos && r.value.endPos >= pos + 2
  {
    var m := GeneralAt(BE, pos, 2, "Marker", "");
    var m2 := ByteAt(buf, pos + 1);
    if m2 == Some(0xD9) then Ok(m.(strValue := Some("End Of Image")))
    else if m2.Some? && 0xD0 <= m2.value < 0xD7 then Ok(m.(strValue := Some("Restart")))
    else SegmentAt(text, buf, pos)
  }

  /** The marker walk from `pos` to the end of the buffer or the first byte that is not FF. */
  function Segments(text: TextDecoder, buf: seq<byte>, pos: nat): Result<seq<Region>>
    decreases |buf| - pos
  {
    if pos >= |buf| || buf[pos] != 0xFF then Ok([])
    else
      var s :- MarkerAt(text, buf, pos);
      Prepend([s], Segments(text, buf, s.endPos))
  }

  /** `parse`: the SOI check, then the SOI span and the marker walk after it. */
  function JpgRegions(text: TextDecoder, buf: seq<byte>): Result<seq<Region>>
  {
    var signed :- CheckContentSpec(buf, 0, JpgSignature);
    if !signed then Err(ContentMismatch)
    else
      var rest :- Segments(text, buf, 2);
      Ok([GeneralAt(BE, 0, 2, "Start Of Image", "")] + rest)
  }

  // Properties of the decoding

  /** The sniffer throws only for another extension and a buffer of under 2 bytes, and
      accepts exactly the `jpg` extension or a buffer starting FF D8. */
  lemma SnifferAccepts(ext: string, buf: seq<byte>)
    ensures IsSupportedFile(ext, buf).Err? <==> ext != "jpg" && |buf| < 2
    ensures IsSupportedFile(ext, buf) == Ok(true) <==> ext == "jpg" || (|buf| >= 2 && buf[0] == 0xFF && buf[1] == 0xD8)
  {
    if |buf| >= 2 {
      SliceIsData(buf, 0, JpgSignature);
    }
  }

  /** The scan loop stops at the first position from `x` on where the scan data ends, and
      without one at `x` or the last byte, whichever is later. */
  lemma {:induction false} ScanEndFacts(buf: seq<byte>, x: nat)
    ensures var e := ScanEnd(buf, x);
            && (e + 1 < |buf| ==> EndsScan(buf, e))
            && (e + 1 >= |buf| ==> e == x || e == |buf| - 1)
            && (forall k :: x <= k < e ==> k + 1 < |buf| && !EndsScan(buf, k))
    decreases |buf| - x
  {
    if x + 1 < |buf| && !EndsScan(buf, x) {
      ScanEndFacts(buf, x + 1);
    }
  }

  /** The span of a segment: marker, Length row and Data; without a scan it ends after
      Length bytes counted from the Length field, or at the end of the buffer when Length
      is 1; a Start Of Scan segment goes on to where the scan data ends. */
  lemma SpanLayout(buf: seq<byte>, pos: nat, l: Region)
    requires pos + 4 <= |buf| && l.numValue.Some? && l.numValue.value >= 0
    ensures var s := Span(buf, pos, l);
            var n := l.numValue.value;
            var dataEnd := if n == 1 then |buf| else pos + 2 + n;
            var kids := s.Kids();
            && s.id == "Segment" && s.kind == Compound
            && |kids| >= 3 && kids[0] == GeneralAt(BE, pos, 2, "Marker", "") && kids[1] == l
            && kids[2] == GeneralAt(BE, pos + 4, dataEnd - (pos + 4), "Data", "")
            && (buf[pos + 1] != 0xDA ==> |kids| == 3 && s.endPos == dataEnd)
            && (buf[pos + 1] == 0xDA ==>
                  && |kids| == 4 && s.endPos == ScanEnd(buf, dataEnd)
                  && kids[3] == GeneralAt(BE, dataEnd, ScanEnd(buf, dataEnd) - dataEnd, "Scan Data", ""))
  {
  }

  /** A segment is read iff its Length fits in the buffer; the Length row is the big-endian
      number there, and the segment's span is `Span` of it. */
  lemma SegmentLayout(text: TextDecoder, buf: seq<byte>, pos: nat)
    ensures SegmentAt(text, buf, pos).Ok? <==> pos + 4 <= |buf|
    ensures var r := SegmentAt(text, buf, pos);
            r.Ok? ==>
              var l := FieldAt(text, buf, BE, pos + 2, N(2, "Length")).value;
              && BigNumberRowAt(buf, l, pos + 2, pos + 4) && l.id == "Length"
              && r.value == Labelled(buf, Span(buf, pos, l))
  {
    BigNumberRow(text, buf, pos + 2, 2, "Length", "");
    var l := FieldAt(text, buf, BE, pos + 2, N(2, "Length"));
    if l.Ok? {
      SegmentOf(text, buf, pos, l.value);
    }
  }

  /** Regions `rs` follow each other from `pos` without gap, each starting on an FF byte
      and none empty. */
  ghost predicate Tiled(buf: seq<byte>, rs: seq<Region>, pos: int)
    decreases |rs|
  {
    if rs == [] then true
    else && 0 <= pos < |buf| && buf[pos] == 0xFF
         && rs[0].startPos == pos && rs[0].endPos >= pos + 2 && Tiled(buf, rs[1..], rs[0].endPos)
  }

  /** The marker walk tiles the buffer from where it starts: every marker sits right where
      the one before it ends. */
  lemma {:induction false} SegmentsTile(text: TextDecoder, buf: seq<byte>, pos: nat)
    ensures var r := Segments(text, buf, pos);
            r.Ok? ==> Tiled(buf, r.value, pos)
    decreases |buf| - pos
  {
    if pos < |buf| && buf[pos] == 0xFF && MarkerAt(text, buf, pos).Ok? {
      SegmentsTile(text, buf, MarkerAt(text, buf, pos).value.endPos);
    }
  }

  /** A decoded file starts with the SOI span, then the markers from byte 2 on. */
  lemma JpgLayout(text: TextDecoder, buf: seq<byte>)
    ensures var r := JpgRegions(text, buf);
            && (r.Ok? ==> |buf| >= 2 && buf[0] == 0xFF && buf[1] == 0xD8)
            && (r.Ok? ==> |r.value| >= 1 && r.value[0] == GeneralAt(BE, 0, 2, "Start Of Image", "")
                          && Tiled(buf, r.value[1..], 2))
  {
    if |buf| >= 2 {
      SliceIsData(buf, 0, JpgSignature);
    }
    SegmentsTile(text, buf, 2);
    var r := JpgRegions(text, buf);
    if r.Ok? {
      assert r.value[1..] == Segments(text, buf, 2).value;
    }
  }

  // The cursor-driven decode

  /** `parse`: check the SOI marker, then walk the markers after it. */
  method Parse(text: TextDecoder, buffer: seq<byte>) returns (r: Result<seq<Region>>)
    ensures r == JpgRegions(text, buffer)
  {
    var signed := EnsureContent(buffer, 0, JpgSignature);
    if signed.Fail? {
      return Err(signed.error);
    }
    var p := new ParseHelper(text, buffer);
    p.SetEndian(BE);
    var soi := p.CreateGeneralRegion(0, |JpgSignature|, "Start Of Image", "");
    var rest := ParseSegments(p, text, buffer);
    if rest.Err? {
      return Err(rest.error);
    }
    return Ok([soi] + rest.value);
  }

  /** The marker loop of `parse`, driven by the cursor position. */
  method ParseSegments(p: ParseHelper, ghost text: TextDecoder, ghost buf: seq<byte>) returns (r: Result<seq<Region>>)
    requires p.text == text && p.buffer == buf && p.endian == BE && p.position == 2
    modifies p
    ensures r == Segments(text, buf, 2)
  {
    var segments: seq<Region> := [];
    PrependNil(Segments(text, buf, 2));
    while p.position < |p.buffer|
      invariant p.endian == BE && p.position >= 2
      invariant Segments(text, buf, 2) == Prepend(segments, Segments(text, buf, p.position))
      decreases |buf| - p.position
    {
      var pos := p.position;
      var m := p.CreateGeneralRegion(-1, 2, "Marker", "");
      var m1 := p.buffer[m.startPos];
      if m1 != 0xFF {
        break;
      }
      var s := ParseMarker(p, m, text, buf);
      if s.Err? {
        return Err(s.error);
      }
      PrependPrepend(segments, [s.value], Segments(text, buf, s.value.endPos));
      segments := segments + [s.value];
    }
    return Ok(segments + []);
  }

  /** One turn of the marker loop once the marker `m` is read and its first byte is FF. */
  method ParseMarker(p: ParseHelper, m: Region, ghost text: TextDecoder, ghost buf: seq<byte>) returns (r: Result<Region>)
    requires p.text == text && p.buffer == buf && p.endian == BE
    requires m == GeneralAt(BE, m.startPos, 2, "Marker", "") && 0 <= m.startPos < |buf| && p.position == m.startPos + 2
    modifies p
    ensures p.endian == BE
    ensures r == MarkerAt(text, buf, m.startPos)
    ensures r.Ok? ==> p.position == r.value.endPos
  {
    var m2 := ByteAt(p.buffer, m.startPos + 1);
    if m2 == Some(0xD9) {
      return Ok(m.(strValue := Some("End Of Image")));
    } else if m2.Some? && 0xD0 <= m2.value < 0xD7 {
      return Ok(m.(strValue := Some("Restart")));
    }
    r := ParseSegment(p, m.startPos, text, buf);
  }

  /** One segment after the marker at `pos`: Length and Data, the compound over them, the
      scan data after a Start Of Scan marker, then the segment's text. */
  method ParseSegment(p: ParseHelper, pos: nat, ghost text: TextDecoder, ghost buf: seq<byte>) returns (r: Result<Region>)
    requires p.text == text && p.buffer == buf && p.endian == BE && p.position == pos + 2 && pos < |buf|
    modifies p
    ensures p.endian == BE
    ensures r == SegmentAt(text, buf, pos)
    ensures r.Ok? ==> p.position == r.value.endPos
  {
    var m := GeneralAt(BE, pos, 2, "Marker", "");
    var l, d := ParseLengthAndData(p, pos, text, buf);
    if l.Err? {
      return Err(l.error);
    }
    SegmentOf(text, buf, pos, l.value);
    var span := ParseSpan(p, m, l.value, d, text, buf);
    var s := span.(strValue := Some(Text.Hex(p.buffer[span.startPos]) + Text.Hex(p.buffer[span.startPos + 1]) + " (" + Text.Decimal(span.endPos - span.startPos) + ")"));
    assert s == Labelled(buf, span);
    return Ok(s);
  }

  /** A segment with a readable Length row. */
  lemma SegmentOf(text: TextDecoder, buf: seq<byte>, pos: nat, l: Region)
    requires FieldAt(text, buf, BE, pos + 2, N(2, "Length")) == Ok(l)
    ensures pos + 4 <= |buf| && l.numValue.Some? && l.numValue.value >= 0
    ensures SegmentAt(text, buf, pos) == Ok(Labelled(buf, Span(buf, pos, l)))
  {
    UnsignedRange(buf, pos + 2, pos + 4, true);
  }

  /** The compound over marker, Length and Data, stretched over the scan data after a Start
      Of Scan marker. */
  method ParseSpan(p: ParseHelper, m: Region, l: Region, d: Region, ghost text: TextDecoder, ghost buf: seq<byte>) returns (s: Region)
    requires p.text == text && p.buffer == buf && p.endian == BE && m == GeneralAt(BE, m.startPos, 2, "Marker", "") && m.startPos >= 0
    requires m.startPos + 4 <= |buf| && l.numValue.Some? && l.numValue.value >= 0
    requires d == GeneralAt(BE, m.startPos + 4, ResolveLength(l.numValue.value - 2, m.startPos + 4, |buf|), "Data", "")
    requires p.position == d.endPos >= m.startPos + 2
    modifies p
    ensures p.endian == BE
    ensures s == Span(buf, m.startPos, l) && p.position == s.endPos
  {
    s := p.CreateCompoundRegion(m.startPos, d.endPos - m.startPos, "Segment", "", [m, l, d]);
    if p.buffer[m.startPos + 1] == 0xDA {
      ghost var plain := s;
      var x := ScanMarker(p.buffer, p.position);
      var scan := p.CreateGeneralRegion(-1, x - p.position, "Scan Data", "");
      s := s.(children := Sub(s.children.regions + [scan]), endPos := scan.endPos);
      assert s == ScanSegment(buf, plain, d.endPos);
    }
  }

  /** Length(2) at `pos + 2`, then the Data span of Length - 2 bytes after it. */
  method ParseLengthAndData(p: ParseHelper, pos: nat, ghost text: TextDecoder, ghost buf: seq<byte>)
    returns (l: Result<Region>, d: Region)
    requires p.text == text && p.buffer == buf && p.endian == BE && p.position == pos + 2
    modifies p
    ensures p.endian == BE
    ensures l == FieldAt(text, buf, BE, pos + 2, N(2, "Length"))
    ensures l.Ok? ==>
              && pos + 4 <= |buf|
              && d == GeneralAt(BE, pos + 4, ResolveLength(l.value.numValue.value - 2, pos + 4, |buf|), "Data", "")
              && p.position == d.endPos >= pos + 2
  {
    l := p.CreateRegion(Number, -1, 2, "Length", "", NoCallback);
    if l.Err? {
      return l, Blank("Data", General, "", pos + 4, pos + 4);
    }
    FieldAtFacts(text, buf, BE, pos + 2, N(2, "Length"));
    UnsignedRange(buf, pos + 2, pos + 4, true);
    d := p.CreateGeneralRegion(-1, p.num["Length"] - 2, "Data", "");
  }

  /** The scan loop: from `x0`, step over every byte pair that does not end the scan data. */
  method ScanMarker(bytes: seq<byte>, x0: nat) returns (x: nat)
    ensures x == ScanEnd(bytes, x0)
  {
    x := x0;
    while x < |bytes| - 1
      invariant x0 <= x && ScanEnd(bytes, x) == ScanEnd(bytes, x0)
      decreases |bytes| - x
    {
      if EndsScan(bytes, x) {
        break;
      }
      x := x + 1;
    }
  }
}
