/** The RIFF decoder of src/parser/riff.ts over the `ParseHelper` cursor in little-endian order.
    A chunk is a four-character tag, a four-byte size and `size` bytes of content, and the next
    chunk starts right after it. RIFF and LIST chunks hold a four-character name and then more
    chunks, walked up to the end of the buffer; under the form type WAVE, `fmt ` holds six
    numbers and `data` one span. The form type is a field of the decoder, set by every RIFF
    chunk and kept from one file to the next. */
module Riff {
  import opened Wrappers
  import opened CommonUtil
  import opened Dom
  import opened CommonParser
  import Text

  /** `isSupportedFile`: `indexOf(ext) >= 0` over the extensions `wav` and `ani`. */
  predicate IsSupportedFile(ext: string)
  {
    ext in ["wav", "ani"]
  }

  /** The regions a walk yields and the form type it leaves behind. */
  datatype Walked = Walked(regions: seq<Region>, form: string)

  /** One chunk, its declared size and the form type after it. */
  datatype Chunk = Chunk(region: Region, size: nat, form: string)

  /** The chunks from `pos` to the end of the buffer, under form type `form`. */
  function Chunks(text: TextDecoder, buf: seq<byte>, pos: nat, form: string): (r: Result<Walked>)
    decreases |buf| + 12 - pos, 2
  {
    if pos >= |buf| then Ok(Walked([], form))
    else After(text, buf, pos, ChunkAt(text, buf, pos, form))
  }

  /** The walk once the chunk at `pos` has been read as `c`: its error, or the chunk in front
      of the walk from its end. */
  function After(text: TextDecoder, buf: seq<byte>, pos: nat, c: Result<Chunk>): (r: Result<Walked>)
    requires pos < |buf|
    decreases |buf| + 12 - pos, 0
  {
    if c.Err? then Err(c.error)
    else Join([c.value.region], Chunks(text, buf, pos + c.value.size + 8, c.value.form))
  }

  /** The chunk at `pos`: FourCC [pos, pos + 4), Size [pos + 4, pos + 8), then the content
      the trimmed tag selects, all under a `Trunk` compound over [pos, pos + Size + 8) whose
      text is the trimmed tag. */
  function ChunkAt(text: TextDecoder, buf: seq<byte>, pos: nat, form: string): (r: Result<Chunk>)
    requires pos < |buf|
    ensures r.Ok? ==> r.value.region.startPos == pos && r.value.region.endPos == pos + r.value.size + 8
    decreases |buf| + 12 - pos, 1
  {
    var fourCC := StringAt(text, buf, LE, pos, 4, "FourCC", "RIFF FourCC tag");
    var size :- FieldAt(text, buf, LE, pos + 4, N(4, "Size", "RIFF chunk size"));
    var n: nat := size.numValue.value;
    var tag := Text.Trim(fourCC.strValue.value);
    var content :- Content(text, buf, tag, pos + 8, n, form);
    Ok(Chunk(Region("Trunk", Compound, "RIFF Trunk", pos, pos + n + 8, Some(LE), None, Some(tag), None,
                    Sub([fourCC, size] + content.regions)), n, content.form))
  }

  /** The content of a chunk tagged `tag` at `offset`, `size` bytes long; the chunk's header
      starts inside the buffer. */
  function Content(text: TextDecoder, buf: seq<byte>, tag: string, offset: nat, size: nat, form: string): (r: Result<Walked>)
    requires offset < |buf| + 8
    decreases |buf| + 20 - offset, 0
  {
    if tag == "RIFF" then
      var formType := StringAt(text, buf, LE, offset, 4, "FormType", "");
      Join([formType], Chunks(text, buf, offset + 4, formType.strValue.value))
    else if form == "WAVE" && tag == "fmt" then
      var f :- WaveFormat(text, buf, offset);
      Ok(Walked(f, form))
    else if form == "WAVE" && tag == "data" then
      Ok(Walked([GeneralAt(LE, offset, size, "data", "")], form))
    else if tag == "LIST" then
      Join([StringAt(text, buf, LE, offset, 4, "ListName", "")], Chunks(text, buf, offset + 4, form))
    else
      Ok(Walked([GeneralAt(LE, offset, size, "data", "")], form))
  }

  /** The six numbers of a WAVE `fmt ` chunk, of widths 2, 2, 4, 4, 2 and 2. */
  function WaveFormat(text: TextDecoder, buf: seq<byte>, offset: int): Result<seq<Region>>
  {
    var head :- WaveHead(text, buf, offset);
    var tail :- WaveTail(text, buf, offset + 8);
    Ok(head + tail)
  }

  /** formatTag, channels and samplesPerSecond. */
  function WaveHead(text: TextDecoder, buf: seq<byte>, offset: int): Result<seq<Region>>
  {
    var formatTag :- FieldAt(text, buf, LE, offset, N(2, "formatTag"));
    var channels :- FieldAt(text, buf, LE, offset + 2, N(2, "channels"));
    var samples :- FieldAt(text, buf, LE, offset + 4, N(4, "samplesPerSecond"));
    Ok([formatTag, channels, samples])
  }

  /** avgBytesPerSecond, blockAlign and bitsPerSample. */
  function WaveTail(text: TextDecoder, buf: seq<byte>, offset: int): Result<seq<Region>>
  {
    var bytes :- FieldAt(text, buf, LE, offset, N(4, "avgBytesPerSecond"));
    var align :- FieldAt(text, buf, LE, offset + 4, N(2, "blockAlign"));
    var bits :- FieldAt(text, buf, LE, offset + 6, N(2, "bitsPerSample"));
    Ok([bytes, align, bits])
  }

  /** `done` in front of the regions of a walk that succeeded, with its form type. */
  function Join(done: seq<Region>, rest: Result<Walked>): Result<Walked>
  {
    if rest.Err? then rest else Ok(Walked(done + rest.value.regions, rest.value.form))
  }

  /** `parse`: the chunks from byte 0, under the form type the decoder holds. */
  function RiffRegions(text: TextDecoder, buf: seq<byte>, form: string): Result<Walked>
  {
    Chunks(text, buf, 0, form)
  }

  /** A walk the decoder ran agrees with the walk `w` describes: the same outcome, the same
      regions, and the form type it left behind. */
  predicate Agrees(w: Result<Walked>, r: Result<seq<Region>>, form: string)
  {
    && (r.Ok? <==> w.Ok?)
    && (r.Ok? ==> r.value == w.value.regions && form == w.value.form)
    && (r.Err? ==> r.error == w.error)
  }

  /** `ChunkAt` from the Size field read at `pos + 4` and the content walk `w` after it. */
  lemma ChunkAtOf(text: TextDecoder, buf: seq<byte>, pos: nat, form: string, size: Result<Region>, w: Result<Walked>)
    requires pos < |buf|
    requires size == FieldAt(text, buf, LE, pos + 4, N(4, "Size", "RIFF chunk size"))
    requires size.Ok? ==> size.value.numValue.Some? && size.value.numValue.value >= 0
    requires size.Ok? ==> w == Content(text, buf, Text.Trim(StringAt(text, buf, LE, pos, 4, "FourCC", "RIFF FourCC tag").strValue.value),
                                       pos + 8, size.value.numValue.value, form)
    ensures size.Err? ==> ChunkAt(text, buf, pos, form).Err? && ChunkAt(text, buf, pos, form).error == size.error
    ensures size.Ok? && w.Err? ==> ChunkAt(text, buf, pos, form).Err? && ChunkAt(text, buf, pos, form).error == w.error
    ensures size.Ok? && w.Ok? ==>
      var fourCC := StringAt(text, buf, LE, pos, 4, "FourCC", "RIFF FourCC tag");
      var n := size.value.numValue.value;
      && ChunkAt(text, buf, pos, form).Ok?
      && ChunkAt(text, buf, pos, form).value
         == Chunk(Region("Trunk", Compound, "RIFF Trunk", pos, pos + n + 8, Some(LE), None, Some(Text.Trim(fourCC.strValue.value)), None,
                         Sub([fourCC, size.value] + w.value.regions)), n, w.value.form)
  {
  }

  lemma JoinNil(w: Result<Walked>)
    ensures Join([], w) == w
  {
    if w.Ok? {
      assert [] + w.value.regions == w.value.regions;
    }
  }

  lemma JoinJoin(done: seq<Region>, more: seq<Region>, rest: Result<Walked>)
    ensures Join(done, Join(more, rest)) == Join(done + more, rest)
  {
    if rest.Ok? {
      assert done + (more + rest.value.regions) == done + more + rest.value.regions;
    }
  }

  // Layout

  /** The Size field of the chunk at `pos` reads exactly when the eight header bytes lie in
      the buffer, and then holds the little-endian number in bytes `pos + 4 .. pos + 8`. */
  lemma SizeRow(text: TextDecoder, buf: seq<byte>, pos: nat)
    ensures var s := FieldAt(text, buf, LE, pos + 4, N(4, "Size", "RIFF chunk size"));
            && (s.Ok? <==> pos + 8 <= |buf|)
            && (s.Err? ==> s.error == ReadPastEnd)
            && (s.Ok? ==> s.value.id == "Size" && NumberRowAt(buf, s.value, pos + 4, pos + 8))
  {
    NumberRow(text, buf, pos + 4, 4, "Size", "RIFF chunk size");
  }

  /** A chunk reads only when its eight header bytes lie in the buffer. It then holds the
      FourCC string over `[pos, pos + 4)` and the Size number over `[pos + 4, pos + 8)`, its
      declared size is the little-endian number in bytes `pos + 4 .. pos + 8`, and its text is
      the trimmed FourCC. */
  lemma ChunkHeaderLayout(text: TextDecoder, buf: seq<byte>, pos: nat, form: string)
    requires pos < |buf|
    ensures pos + 8 > |buf| ==> ChunkAt(text, buf, pos, form).Err? && ChunkAt(text, buf, pos, form).error == ReadPastEnd
    ensures ChunkAt(text, buf, pos, form).Ok? ==>
              var c := ChunkAt(text, buf, pos, form).value;
              var fourCC := StringAt(text, buf, LE, pos, 4, "FourCC", "RIFF FourCC tag");
              && pos + 8 <= |buf|
              && c.size == CommonUtil.LE(buf[pos + 4..pos + 8])
              && |c.region.Kids()| >= 2 && c.region.Kids()[0] == fourCC
              && c.region.Kids()[1].id == "Size" && NumberRowAt(buf, c.region.Kids()[1], pos + 4, pos + 8)
              && c.region.strValue == Some(Text.Trim(fourCC.strValue.value))
  {
    var size := FieldAt(text, buf, LE, pos + 4, N(4, "Size", "RIFF chunk size"));
    SizeRow(text, buf, pos);
    if size.Ok? {
      var fourCC := StringAt(text, buf, LE, pos, 4, "FourCC", "RIFF FourCC tag");
      ChunkAtOf(text, buf, pos, form, size, Content(text, buf, Text.Trim(fourCC.strValue.value), pos + 8, size.value.numValue.value, form));
    } else {
      ChunkAtOf(text, buf, pos, form, size, Err(size.error));
    }
  }

  /** Regions `rs` are chunks laid end to end from `pos`: each starts where the one before it
      ends and before `end`, is at least eight bytes long, and the last one reaches `end`. */
  ghost predicate Tiled(rs: seq<Region>, pos: int, end: int)
    decreases |rs|
  {
    if rs == [] then pos >= end
    else rs[0].startPos == pos && pos < end && rs[0].endPos >= pos + 8 && Tiled(rs[1..], rs[0].endPos, end)
  }

  /** The chunks of a walk that succeeds are laid end to end from `pos` to the end of the
      buffer. */
  lemma {:induction false} ChunksTile(text: TextDecoder, buf: seq<byte>, pos: nat, form: string)
    requires Chunks(text, buf, pos, form).Ok?
    ensures Tiled(Chunks(text, buf, pos, form).value.regions, pos, |buf|)
    decreases |buf| + 12 - pos
  {
    if pos < |buf| {
      var c := ChunkAt(text, buf, pos, form);
      assert Chunks(text, buf, pos, form) == After(text, buf, pos, c);
      var next := pos + c.value.size + 8;
      var rest := Chunks(text, buf, next, c.value.form);
      assert After(text, buf, pos, c) == Join([c.value.region], rest);
      ChunksTile(text, buf, next, c.value.form);
      assert Chunks(text, buf, pos, form).value.regions[1..] == rest.value.regions;
    }
  }

  /** Chunks laid end to end, stated chunk by chunk. */
  lemma {:induction false} TiledSteps(rs: seq<Region>, pos: int, end: int)
    requires Tiled(rs, pos, end)
    ensures |rs| > 0 ==> rs[0].startPos == pos && rs[|rs| - 1].endPos >= end
    ensures |rs| == 0 ==> pos >= end
    ensures forall i :: 0 <= i < |rs| ==> rs[i].startPos < end && rs[i].endPos >= rs[i].startPos + 8
    ensures forall i :: 0 < i < |rs| ==> rs[i].startPos == rs[i - 1].endPos
    decreases |rs|
  {
    if rs != [] {
      TiledSteps(rs[1..], rs[0].endPos, end);
      forall i | 0 < i < |rs|
        ensures rs[i].startPos == rs[i - 1].endPos
      {
        if i > 1 {
          assert rs[i] == rs[1..][i - 1] && rs[i - 1] == rs[1..][i - 2];
        }
      }
      forall i | 0 <= i < |rs|
        ensures rs[i].startPos < end && rs[i].endPos >= rs[i].startPos + 8
      {
        if i > 0 {
          assert rs[i] == rs[1..][i - 1];
        }
      }
    }
  }

  /** A RIFF or LIST chunk holds its four-character name, then chunks laid end to end up to
      the end of the buffer rather than to its own end; its declared size plays no part. */
  lemma NestedLayout(text: TextDecoder, buf: seq<byte>, tag: string, offset: nat, size: nat, size': nat, form: string)
    requires offset < |buf| + 8 && (tag == "RIFF" || tag == "LIST")
    ensures Content(text, buf, tag, offset, size, form) == Content(text, buf, tag, offset, size', form)
    ensures Content(text, buf, tag, offset, size, form).Ok? ==>
              var rs := Content(text, buf, tag, offset, size, form).value.regions;
              && |rs| >= 1 && rs[0].startPos == offset && rs[0].endPos == offset + 4
              && Tiled(rs[1..], offset + 4, |buf|)
  {
    var name := StringAt(text, buf, LE, offset, 4, if tag == "RIFF" then "FormType" else "ListName", "");
    var inner := if tag == "RIFF" then name.strValue.value else form;
    var nested := Chunks(text, buf, offset + 4, inner);
    assert Content(text, buf, tag, offset, size, form) == Join([name], nested);
    if nested.Ok? {
      ChunksTile(text, buf, offset + 4, inner);
      assert Join([name], nested).value.regions[1..] == nested.value.regions;
    }
  }

  /** The ids and widths of the six numbers of a WAVE `fmt ` chunk. */
  const WaveIds: seq<string> := ["formatTag", "channels", "samplesPerSecond", "avgBytesPerSecond", "blockAlign", "bitsPerSample"]
  const WaveWidths: seq<int> := [2, 2, 4, 4, 2, 2]

  /** The first three numbers read exactly when their eight bytes lie in the buffer. */
  lemma WaveHeadLayout(text: TextDecoder, buf: seq<byte>, offset: nat)
    ensures WaveHead(text, buf, offset).Ok? <==> offset + 8 <= |buf|
    ensures WaveHead(text, buf, offset).Err? ==> WaveHead(text, buf, offset).error == ReadPastEnd
    ensures WaveHead(text, buf, offset).Ok? ==>
              var rs := WaveHead(text, buf, offset).value;
              && |rs| == 3 && Tiles(buf, rs, offset, offset + 8)
              && (forall i :: 0 <= i < 3 ==> rs[i].id == WaveIds[i] && rs[i].endPos - rs[i].startPos == WaveWidths[i])
  {
    NumberRow(text, buf, offset, 2, "formatTag", "");
    NumberRow(text, buf, offset + 2, 2, "channels", "");
    NumberRow(text, buf, offset + 4, 4, "samplesPerSecond", "");
    if WaveHead(text, buf, offset).Ok? {
      var rs := WaveHead(text, buf, offset).value;
      Tiles3(buf, rs[0], rs[1], rs[2], offset, offset + 2, offset + 4, offset + 8);
    }
  }

  /** The last three numbers read exactly when their eight bytes lie in the buffer. */
  lemma WaveTailLayout(text: TextDecoder, buf: seq<byte>, offset: nat)
    ensures WaveTail(text, buf, offset).Ok? <==> offset + 8 <= |buf|
    ensures WaveTail(text, buf, offset).Err? ==> WaveTail(text, buf, offset).error == ReadPastEnd
    ensures WaveTail(text, buf, offset).Ok? ==>
              var rs := WaveTail(text, buf, offset).value;
              && |rs| == 3 && Tiles(buf, rs, offset, offset + 8)
              && (forall i :: 0 <= i < 3 ==> rs[i].id == WaveIds[i + 3] && rs[i].endPos - rs[i].startPos == WaveWidths[i + 3])
  {
    NumberRow(text, buf, offset, 4, "avgBytesPerSecond", "");
    NumberRow(text, buf, offset + 4, 2, "blockAlign", "");
    NumberRow(text, buf, offset + 6, 2, "bitsPerSample", "");
    if WaveTail(text, buf, offset).Ok? {
      var rs := WaveTail(text, buf, offset).value;
      Tiles3(buf, rs[0], rs[1], rs[2], offset, offset + 4, offset + 6, offset + 8);
    }
  }

  /** A WAVE `fmt ` chunk reads exactly when its sixteen bytes lie in the buffer, and then
      yields six little-endian numbers laid end to end from the content offset, named and
      sized as `WaveIds` and `WaveWidths` say. */
  lemma WaveFormatLayout(text: TextDecoder, buf: seq<byte>, offset: nat)
    ensures WaveFormat(text, buf, offset).Ok? <==> offset + 16 <= |buf|
    ensures WaveFormat(text, buf, offset).Err? ==> WaveFormat(text, buf, offset).error == ReadPastEnd
    ensures WaveFormat(text, buf, offset).Ok? ==>
              var rs := WaveFormat(text, buf, offset).value;
              && |rs| == 6 && Tiles(buf, rs, offset, offset + 16)
              && (forall i :: 0 <= i < 6 ==> rs[i].id == WaveIds[i] && rs[i].endPos - rs[i].startPos == WaveWidths[i])
  {
    WaveHeadLayout(text, buf, offset);
    WaveTailLayout(text, buf, offset + 8);
    if WaveFormat(text, buf, offset).Ok? {
      var head, tail := WaveHead(text, buf, offset).value, WaveTail(text, buf, offset + 8).value;
      TilesJoin(buf, head, tail, offset, offset + 8, offset + 16);
      var rs := head + tail;
      forall i | 0 <= i < 6
        ensures rs[i].id == WaveIds[i] && rs[i].endPos - rs[i].startPos == WaveWidths[i]
      {
        if i < 3 {
          assert rs[i] == head[i];
        } else {
          assert rs[i] == tail[i - 3];
        }
      }
    }
  }

  /** A walk as the decoder's methods carry it: the outcome from a position under a form
      type, kept abstract so that only the steps a method takes are unfolded. */
  type WalkFrom = (nat, string) -> Result<Walked>

  /** `walk` is the chunk walk of `buf`. */
  ghost predicate IsChunks(walk: WalkFrom, text: TextDecoder, buf: seq<byte>)
  {
    forall x: nat, f: string {:trigger Chunks(text, buf, x, f)} :: walk(x, f) == Chunks(text, buf, x, f)
  }

  /** `After` over an abstract walk. */
  function Continue(walk: WalkFrom, pos: nat, c: Result<Chunk>): Result<Walked>
  {
    if c.Err? then Err(c.error) else Join([c.value.region], walk(pos + c.value.size + 8, c.value.form))
  }

  /** The chunk walk of `buf` as a function value. */
  function ChunksOf(text: TextDecoder, buf: seq<byte>): (walk: WalkFrom)
    ensures IsChunks(walk, text, buf)
  {
    (x: nat, f: string) => Chunks(text, buf, x, f)
  }

  /** At or past the end of the buffer the walk yields nothing and keeps the form type. */
  lemma ChunksEnd(text: TextDecoder, buf: seq<byte>, pos: nat, form: string)
    requires pos >= |buf|
    ensures Chunks(text, buf, pos, form).Ok?
    ensures Chunks(text, buf, pos, form).value == Walked([], form)
  {
  }

  /** The walk at `pos` is the chunk `ChunkAt` reads there followed by the rest. */
  lemma ChunksStep(walk: WalkFrom, text: TextDecoder, buf: seq<byte>, pos: nat, form: string, c: Result<Chunk>)
    requires IsChunks(walk, text, buf) && pos < |buf|
    requires c.Err? ==> ChunkAt(text, buf, pos, form).Err? && ChunkAt(text, buf, pos, form).error == c.error
    requires c.Ok? ==> ChunkAt(text, buf, pos, form).Ok? && ChunkAt(text, buf, pos, form).value == c.value
    ensures walk(pos, form) == Continue(walk, pos, c)
  {
    assert ChunkAt(text, buf, pos, form) == c;
    assert walk(pos, form) == Chunks(text, buf, pos, form);
    AfterIsContinue(walk, text, buf, pos, c);
  }

  /** `After` and `Continue` agree once `walk` is the chunk walk. */
  lemma AfterIsContinue(walk: WalkFrom, text: TextDecoder, buf: seq<byte>, pos: nat, c: Result<Chunk>)
    requires IsChunks(walk, text, buf) && pos < |buf|
    ensures After(text, buf, pos, c) == Continue(walk, pos, c)
  {
    if c.Ok? {
      assert walk(pos + c.value.size + 8, c.value.form) == Chunks(text, buf, pos + c.value.size + 8, c.value.form);
    }
  }

  /** The decoder object of src/parser/riff.ts; `formType` is the field the walk updates. */
  class RiffParser {
    var formType: string

    constructor()
      ensures formType == ""
    {
      formType := "";
    }

    /** `parse(buffer)`: the chunks from byte 0 in little-endian order. */
    method Parse(text: TextDecoder, buffer: seq<byte>) returns (r: Result<seq<Region>>)
      modifies this
      ensures Agrees(RiffRegions(text, buffer, old(formType)), r, formType)
    {
      var p := new ParseHelper(text, buffer);
      p.SetEndian(LE);
      ghost var walk := ChunksOf(text, buffer);
      r := ParseChunks(p, 0, walk);
      assert walk(0, old(formType)) == Chunks(text, buffer, 0, old(formType));
    }

    /** `parseChunks(p, offset)`: chunk after chunk up to the end of the buffer. */
    method ParseChunks(p: ParseHelper, offset: nat, ghost walk: WalkFrom) returns (r: Result<seq<Region>>)
      requires p.endian == LE && IsChunks(walk, p.text, p.buffer)
      modifies this, p
      ensures p.endian == LE
      ensures Agrees(walk(offset, old(formType)), r, formType)
      decreases |p.buffer| + 12 - offset, 2
    {
      var regions: seq<Region> := [];
      var pos := offset;
      JoinNil(walk(pos, formType));
      while pos < |p.buffer|
        invariant p.endian == LE && offset <= pos
        invariant walk(offset, old(formType)) == Join(regions, walk(pos, formType))
        decreases |p.buffer| - pos
      {
        var chunk := ParseChunk(p, pos, walk);
        if chunk.Err? {
          return Err(chunk.error);
        }
        JoinJoin(regions, [chunk.value.region], walk(pos + chunk.value.size + 8, formType));
        regions := regions + [chunk.value.region];
        pos := pos + chunk.value.size + 8;
      }
      ChunksEnd(p.text, p.buffer, pos, formType);
      assert walk(pos, formType) == Chunks(p.text, p.buffer, pos, formType);
      assert regions + [] == regions;
      return Ok(regions);
    }

    /** One turn of the chunk loop at `pos`: the walk from `pos` is this chunk, then the walk
        from its end under the form type it leaves. */
    method ParseChunk(p: ParseHelper, pos: nat, ghost walk: WalkFrom) returns (r: Result<Chunk>)
      requires p.endian == LE && pos < |p.buffer| && IsChunks(walk, p.text, p.buffer)
      modifies this, p
      ensures p.endian == LE
      ensures walk(pos, old(formType)) == Continue(walk, pos, r)
      ensures r.Ok? ==> formType == r.value.form
      decreases |p.buffer| + 12 - pos, 1
    {
      ghost var form := formType;
      var chunk, fourCC, size, tag := ParseChunkHeader(p, pos);
      if size.Err? {
        ChunkAtOf(p.text, p.buffer, pos, form, size, Err(size.error));
        r := Err(size.error);
        ChunksStep(walk, p.text, p.buffer, pos, form, r);
        return;
      }
      var n: nat := size.value.numValue.value;
      ghost var w := Content(p.text, p.buffer, tag, pos + 8, n, form);
      ChunkAtOf(p.text, p.buffer, pos, form, size, w);
      var content := ParseContent(p, tag, pos + 8, n, walk);
      if content.Err? {
        r := Err(content.error);
      } else {
        chunk := chunk.(endPos := pos + n + 8, strValue := Some(tag), children := Sub([fourCC, size.value] + content.value));
        r := Ok(Chunk(chunk, n, formType));
      }
      ChunksStep(walk, p.text, p.buffer, pos, form, r);
    }

    /** `parseContent(p, fourCC, offset, size)`: the content the trimmed tag selects. */
    method ParseContent(p: ParseHelper, fourCC: string, offset: nat, size: nat, ghost walk: WalkFrom) returns (r: Result<seq<Region>>)
      requires p.endian == LE && offset < |p.buffer| + 8 && IsChunks(walk, p.text, p.buffer)
      modifies this, p
      ensures p.endian == LE
      ensures Agrees(Content(p.text, p.buffer, fourCC, offset, size, old(formType)), r, formType)
      decreases |p.buffer| + 20 - offset, 0
    {
      if fourCC == "RIFF" {
        var form := p.CreateStringRegion(offset, 4, "FormType", "");
        formType := form.strValue.value;
        var nested := ParseChunks(p, offset + 4, walk);
        assert walk(offset + 4, formType) == Chunks(p.text, p.buffer, offset + 4, formType);
        if nested.Err? {
          return Err(nested.error);
        }
        return Ok([form] + nested.value);
      } else if formType == "WAVE" && fourCC == "fmt" {
        r := ParseWaveFormat(p, offset);
      } else if formType == "WAVE" && fourCC == "data" {
        var data := p.CreateGeneralRegion(offset, size, "data", "");
        return Ok([data]);
      } else if fourCC == "LIST" {
        var name := p.CreateStringRegion(offset, 4, "ListName", "");
        ghost var form := formType;
        var nested := ParseChunks(p, offset + 4, walk);
        assert walk(offset + 4, form) == Chunks(p.text, p.buffer, offset + 4, form);
        if nested.Err? {
          return Err(nested.error);
        }
        return Ok([name] + nested.value);
      } else {
        var data := p.CreateGeneralRegion(offset, size, "data", "");
        return Ok([data]);
      }
    }
  }

  /** The `Trunk` compound at `pos`, FourCC, Size, and the tag read back from the cache and
      trimmed. */
  method ParseChunkHeader(p: ParseHelper, pos: nat) returns (chunk: Region, fourCC: Region, size: Result<Region>, tag: string)
    requires p.endian == LE
    modifies p
    ensures p.endian == LE
    ensures chunk == Region("Trunk", Compound, "RIFF Trunk", pos, pos, Some(LE), None, None, None, Sub([]))
    ensures fourCC == StringAt(p.text, p.buffer, LE, pos, 4, "FourCC", "RIFF FourCC tag")
    ensures size == FieldAt(p.text, p.buffer, LE, pos + 4, N(4, "Size", "RIFF chunk size"))
    ensures tag == Text.Trim(fourCC.strValue.value)
  {
    chunk := p.CreateCompound(pos, 0, "Trunk", "RIFF Trunk");
    fourCC := p.CreateStringRegion(pos, 4, "FourCC", "RIFF FourCC tag");
    size := p.CreateRegion(Number, -1, 4, "Size", "RIFF chunk size", NoCallback);
    tag := Text.Trim(p.regionCache["FourCC"].strValue.value);
  }

  /** The six `fmt ` numbers, each right after the one before. */
  method ParseWaveFormat(p: ParseHelper, offset: nat) returns (r: Result<seq<Region>>)
    requires p.endian == LE
    modifies p
    ensures p.endian == LE
    ensures r == WaveFormat(p.text, p.buffer, offset)
  {
    var head := ParseWaveHead(p, offset);
    if head.Err? {
      return Err(head.error);
    }
    var tail := ParseWaveTail(p, offset + 8);
    if tail.Err? {
      return Err(tail.error);
    }
    return Ok(head.value + tail.value);
  }

  method ParseWaveHead(p: ParseHelper, offset: nat) returns (r: Result<seq<Region>>)
    requires p.endian == LE
    modifies p
    ensures p.endian == LE
    ensures r == WaveHead(p.text, p.buffer, offset)
    ensures r.Ok? ==> p.position == offset + 8
  {
    var formatTag := p.CreateRegion(Number, offset, 2, "formatTag", "", NoCallback);
    if formatTag.Err? {
      return Err(formatTag.error);
    }
    var channels := p.CreateRegion(Number, -1, 2, "channels", "", NoCallback);
    if channels.Err? {
      return Err(channels.error);
    }
    var samples := p.CreateRegion(Number, -1, 4, "samplesPerSecond", "", NoCallback);
    if samples.Err? {
      return Err(samples.error);
    }
    return Ok([formatTag.value, channels.value, samples.value]);
  }

  method ParseWaveTail(p: ParseHelper, offset: int) returns (r: Result<seq<Region>>)
    requires p.endian == LE && p.position == offset
    modifies p
    ensures p.endian == LE
    ensures r == WaveTail(p.text, p.buffer, offset)
  {
    var bytes := p.CreateRegion(Number, -1, 4, "avgBytesPerSecond", "", NoCallback);
    if bytes.Err? {
      return Err(bytes.error);
    }
    var align := p.CreateRegion(Number, -1, 2, "blockAlign", "", NoCallback);
    if align.Err? {
      return Err(align.error);
    }
    var bits := p.CreateRegion(Number, -1, 2, "bitsPerSample", "", NoCallback);
    if bits.Err? {
      return Err(bits.error);
    }
    return Ok([bytes.value, align.value, bits.value]);
  }
}
