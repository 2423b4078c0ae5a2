/** The dispatcher of src/bdp.ts. `init` registers one decoder per format under its id, in a
    fixed order; `parse` takes the decoder the caller forces by id or else the first whose
    sniffer accepts the file, by the extension after the last dot (lower-cased) or by the
    content. A decoder that throws, a missing decoder and an unknown forced id all give an
    empty region list. The sniffers run outside that guard, so one that throws escapes. */
module Bdp {
  import opened Wrappers
  import opened CommonUtil
  import opened Dom
  import Text
  import Ico
  import Zip
  import Pe
  import Riff
  import Ttf
  import Mp3
  import Mp4
  import Asn
  import Png
  import Jpg

  /** The decoder ids in the order `init` registers them, which is the order `Object.keys`
      gives back. */
  const ParserIds: seq<string> := ["ico", "zip", "pe", "riff", "ttf", "mp3", "mp4", "ber", "png", "jpg"]

  /** What `parse` hands back: the buffer it was given and the regions found. */
  datatype Parsed = Parsed(buffer: seq<byte>, regions: seq<Region>)

  /** `filename.split('.').pop()?.toLowerCase() || ''`: the text after the last dot, in lower
      case. */
  function Extension(filename: string): string
  {
    Text.LowerAscii(Text.AfterLastDot(filename))
  }

  /** `parsers[id].isSupportedFile(filename, ext, buffer)` for a registered id: the
      content sniffers of zip, png and jpg throw on a buffer too short for their signature. */
  function Sniff(id: string, ext: string, buf: seq<byte>): Result<bool>
  {
    if id == "ico" then Ok(Ico.IsSupportedFile(ext))
    else if id == "zip" then Zip.IsSupportedFile(ext, buf)
    else if id == "pe" then Ok(Pe.IsSupportedFile(ext))
    else if id == "riff" then Ok(Riff.IsSupportedFile(ext))
    else if id == "ttf" then Ok(Ttf.IsSupportedFile(ext))
    else if id == "mp3" then Ok(Mp3.IsSupportedFile(ext))
    else if id == "mp4" then Ok(Mp4.IsSupportedFile(ext))
    else if id == "ber" then Ok(Asn.IsSupportedFile(ext))
    else if id == "png" then Png.IsSupportedFile(ext, buf)
    else if id == "jpg" then Jpg.IsSupportedFile(ext, buf)
    else Ok(false)
  }

  /** The sniffing loop: the first id in `ids` whose sniffer accepts, none when all decline,
      or the exception of the first sniffer that throws. */
  function Select(ids: seq<string>, ext: string, buf: seq<byte>): Result<Option<string>>
  {
    if ids == [] then Ok(None)
    else
      var hit :- Sniff(ids[0], ext, buf);
      if hit then Ok(Some(ids[0])) else Select(ids[1..], ext, buf)
  }

  /** `parsers[id].parse(buffer)` for a registered id; the RIFF decoder starts from the form
      type `form` it holds. */
  function Decode(id: string, docs: Pe.PeDocs, text: TextDecoder, buf: seq<byte>, form: string): Result<seq<Region>>
  {
    if id == "ico" then Ico.IcoRegions(text, buf)
    else if id == "zip" then Zip.ZipRegions(text, buf)
    else if id == "pe" then Pe.PeRegions(text, buf, docs)
    else if id == "riff" then
      var w :- Riff.RiffRegions(text, buf, form);
      Ok(w.regions)
    else if id == "ttf" then Ttf.TtfRegions(text, buf)
    else if id == "mp3" then Mp3.Mp3Regions(text, buf)
    else if id == "mp4" then Mp4.Mp4Regions(text, buf)
    else if id == "ber" then Asn.Tlvs(text, buf, 0, LE)
    else if id == "png" then Png.PngRegions(text, buf)
    else if id == "jpg" then Jpg.JpgRegions(text, buf)
    else Err(NoParser)
  }

  /** What `parse` of each registered decoder returns or throws on the buffer at hand. */
  type Decoders = string -> Result<seq<Region>>

  /** The decoders of this model on buffer `buf`: the PE decoder carries the descriptions
      `docs` and the RIFF decoder the form type `form`. */
  function Decoder(docs: Pe.PeDocs, text: TextDecoder, buf: seq<byte>, form: string): Decoders
  {
    id => Decode(id, docs, text, buf, form)
  }

  /** The guarded part of `parse`: no decoder, or a decoder that throws, gives no regions. */
  function Guarded(chosen: Option<string>, decoded: Decoders): seq<Region>
  {
    if chosen.None? then []
    else
      var r := decoded(chosen.value);
      if r.Ok? then r.value else []
  }

  /** The decoder `parse` picks: the forced id when one is given (none when it is not
      registered), else the sniffing loop over the registered ids. */
  function Choice(ids: seq<string>, buf: seq<byte>, filename: string, forceType: string): Result<Option<string>>
  {
    if forceType != "" then Ok(if forceType in ids then Some(forceType) else None)
    else Select(ids, Extension(filename), buf)
  }

  /** `parse(buffer, filename, forceType)` as written, with `ids` registered and the decoders
      giving `decoded`; an empty `forceType` stands for an absent one. */
  function Dispatch(ids: seq<string>, decoded: Decoders, buf: seq<byte>, filename: string, forceType: string): Result<Parsed>
  {
    var chosen :- Choice(ids, buf, filename, forceType);
    Ok(Parsed(buf, Guarded(chosen, decoded)))
  }

  /** `parse` with the sniffing loop inside the guard as well: a sniffer that throws gives no
      regions, like every other failure. */
  function CorrectedDispatch(ids: seq<string>, decoded: Decoders, buf: seq<byte>, filename: string, forceType: string): Parsed
  {
    var chosen := Choice(ids, buf, filename, forceType);
    Parsed(buf, if chosen.Err? then [] else Guarded(chosen.value, decoded))
  }

  // Properties of the dispatch

  /** The extension holds no dot and no upper-case ASCII letter, and is the lower-cased tail
      of the file name after its last dot (all of it when there is none). */
  lemma ExtensionFacts(filename: string)
    ensures var ext := Extension(filename);
            var tail := Text.AfterLastDot(filename);
            && '.' !in ext
            && (forall k :: 0 <= k < |ext| ==> !('A' <= ext[k] <= 'Z'))
            && |ext| == |tail| && tail == filename[|filename| - |tail|..]
            && ('.' in filename ==> filename[|filename| - |tail| - 1] == '.')
  {
  }

  /** The sniffing loop picks the first id whose sniffer accepts after every id before it
      declined; it finds none exactly when every sniffer declines; it throws the exception
      of the first sniffer that throws after every id before it declined. */
  lemma {:induction false} SelectFirst(ids: seq<string>, ext: string, buf: seq<byte>)
    ensures var r := Select(ids, ext, buf);
            && (r.Ok? && r.value.Some? ==>
                  exists i :: 0 <= i < |ids| && ids[i] == r.value.value && Sniff(ids[i], ext, buf) == Ok(true)
                              && forall j :: 0 <= j < i ==> Sniff(ids[j], ext, buf) == Ok(false))
            && (r == Ok(None) <==> forall j :: 0 <= j < |ids| ==> Sniff(ids[j], ext, buf) == Ok(false))
            && (r.Err? ==>
                  exists i :: 0 <= i < |ids| && Sniff(ids[i], ext, buf) == Err(r.error)
                              && forall j :: 0 <= j < i ==> Sniff(ids[j], ext, buf) == Ok(false))
    decreases |ids|
  {
    if ids != [] {
      SelectFirst(ids[1..], ext, buf);
      var s := Sniff(ids[0], ext, buf);
      var r := Select(ids, ext, buf);
      if s.Ok? && !s.value {
        var rest := Select(ids[1..], ext, buf);
        assert r == rest;
        if rest.Ok? && rest.value.Some? {
          var i :| 0 <= i < |ids[1..]| && ids[1..][i] == rest.value.value && Sniff(ids[1..][i], ext, buf) == Ok(true)
                   && forall j :: 0 <= j < i ==> Sniff(ids[1..][j], ext, buf) == Ok(false);
          assert forall j :: 0 < j < i + 1 ==> ids[j] == ids[1..][j - 1];
        }
        if rest.Err? {
          var i :| 0 <= i < |ids[1..]| && Sniff(ids[1..][i], ext, buf) == Err(rest.error)
                   && forall j :: 0 <= j < i ==> Sniff(ids[1..][j], ext, buf) == Ok(false);
          assert forall j :: 0 < j < i + 1 ==> ids[j] == ids[1..][j - 1];
        }
        if forall j :: 0 <= j < |ids| ==> Sniff(ids[j], ext, buf) == Ok(false) {
          assert forall j :: 0 <= j < |ids[1..]| ==> ids[1..][j] == ids[j + 1];
        }
      } else {
        assert Sniff(ids[0], ext, buf) != Ok(false);
      }
    }
  }

  /** `parse` hands back the buffer it was given; a forced id never throws, and gives the
      regions of that decoder when it is registered and succeeds and none otherwise. */
  lemma ForcedType(ids: seq<string>, decoded: Decoders, buf: seq<byte>, filename: string, forceType: string)
    requires forceType != ""
    ensures var r := Dispatch(ids, decoded, buf, filename, forceType);
            var d := decoded(forceType);
            && r.Ok? && r.value.buffer == buf
            && r.value.regions == (if forceType in ids && d.Ok? then d.value else [])
  {
  }

  /** As written, a file named `a.txt` of one byte makes `parse` throw: the zip sniffer, second
      in line, reads four bytes outside the guard. */
  lemma SnifferEscapes(decoded: Decoders)
    ensures Dispatch(ParserIds, decoded, [0], "a.txt", "") == Err(RangeError)
  {
    assert Text.AfterLastDot("a.txt") == "txt" by {
      assert Text.AfterLastDot("a.") == "";
      assert Text.AfterLastDot("a.t") == "t";
      assert Text.AfterLastDot("a.tx") == "tx";
    }
    assert Extension("a.txt") == "txt";
    assert Select(ParserIds[1..], "txt", [0]) == Err(RangeError);
  }

  /** With the sniffers inside the guard, `parse` never throws and hands back its buffer; it
      agrees with the written dispatcher whenever that one does not throw, and gives no
      regions when it would. */
  lemma CorrectedNeverThrows(ids: seq<string>, decoded: Decoders, buf: seq<byte>, filename: string, forceType: string)
    ensures var c := CorrectedDispatch(ids, decoded, buf, filename, forceType);
            var r := Dispatch(ids, decoded, buf, filename, forceType);
            && c.buffer == buf
            && (r.Ok? ==> c == r.value)
            && (r.Err? ==> c.regions == [])
  {
  }

  /** The registry of src/bdp.ts: the ids `init` registered and the RIFF decoder object,
      whose form type carries over from one file to the next. */
  class Registry {
    var registered: seq<string>
    var riff: Riff.RiffParser
    /** The field descriptions the PE decoder attaches to its optional-header rows. */
    const peDocs: Pe.PeDocs

    /** The module loads with nothing registered. */
    constructor()
      ensures registered == [] && peDocs == Pe.Documentation
    {
      peDocs := Pe.Documentation;
      registered := [];
      riff := new Riff.RiffParser();
    }

    /** `init()`: registers a fresh decoder under every id and returns the ids in order. */
    method Init() returns (keys: seq<string>)
      modifies this
      ensures registered == ParserIds && keys == ParserIds
      ensures fresh(riff) && riff.formType == ""
    {
      riff := new Riff.RiffParser();
      registered := ParserIds;
      keys := registered;
    }

    /** `parse(buffer, filename, forceType)`: pick a decoder, then run it inside the guard. */
    method Parse(text: TextDecoder, buffer: seq<byte>, filename: string, forceType: string) returns (r: Result<Parsed>)
      modifies riff
      ensures r == Dispatch(registered, Decoder(peDocs, text, buffer, old(riff.formType)), buffer, filename, forceType)
      ensures Choice(registered, buffer, filename, forceType) != Ok(Some("riff")) ==> riff.formType == old(riff.formType)
      ensures Choice(registered, buffer, filename, forceType) == Ok(Some("riff")) ==>
                var w := Riff.RiffRegions(text, buffer, old(riff.formType));
                w.Ok? ==> riff.formType == w.value.form
    {
      var chosen := Choose(buffer, filename, forceType);
      if chosen.Err? {
        return Err(chosen.error);
      }
      if chosen.value.None? {
        return Ok(Parsed(buffer, []));
      }
      var regions := Run(chosen.value.value, text, buffer);
      return Ok(Parsed(buffer, if regions.Ok? then regions.value else []));
    }

    /** The first half of `parse`: the forced id, or the sniffing loop over the registered
        ids in order. */
    method Choose(buffer: seq<byte>, filename: string, forceType: string) returns (chosen: Result<Option<string>>)
      ensures chosen == Choice(registered, buffer, filename, forceType)
    {
      var ext := Text.LowerAscii(Text.AfterLastDot(filename));
      if forceType != "" {
        return Ok(if forceType in registered then Some(forceType) else None);
      }
      var i := 0;
      while i < |registered|
        invariant 0 <= i <= |registered|
        invariant Select(registered, ext, buffer) == Select(registered[i..], ext, buffer)
      {
        var hit := Sniff(registered[i], ext, buffer);
        if hit.Err? {
          return Err(hit.error);
        }
        if hit.value {
          return Ok(Some(registered[i]));
        }
        assert registered[i..][1..] == registered[i + 1..];
        i := i + 1;
      }
      assert registered[i..] == [];
      return Ok(None);
    }

    /** `parsers[id].parse(buffer)` for the chosen id. */
    method Run(id: string, text: TextDecoder, buffer: seq<byte>) returns (r: Result<seq<Region>>)
      modifies riff
      ensures r == Decode(id, peDocs, text, buffer, old(riff.formType))
      ensures id == "riff" ==> Riff.Agrees(Riff.RiffRegions(text, buffer, old(riff.formType)), r, riff.formType)
      ensures id != "riff" ==> riff.formType == old(riff.formType)
    {
      if id == "ico" {
        r := Ico.Parse(text, buffer);
      } else if id == "zip" {
        r := Zip.Parse(text, buffer);
      } else if id == "pe" {
        r := Pe.ParseDocumented(text, buffer, peDocs);
      } else if id == "riff" {
        r := riff.Parse(text, buffer);
      } else if id == "ttf" {
        r := Ttf.Parse(text, buffer);
      } else if id == "mp3" {
        r := Mp3.Parse(text, buffer);
      } else if id == "mp4" {
        r := Mp4.Parse(text, buffer);
      } else if id == "ber" {
        r := Asn.Parse(text, buffer);
      } else if id == "png" {
        r := Png.Parse(text, buffer);
      } else if id == "jpg" {
        r := Jpg.Parse(text, buffer);
      } else {
        r := Err(NoParser);
      }
    }
  }
}
