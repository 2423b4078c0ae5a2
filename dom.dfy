/** The parse result: a list of possibly overlapping regions, each a named, typed,
    half-open byte span `[startPos, endPos)` with an optional value and children
    (src/parser/common/dom.ts and src/parser/parser.ts). */
module Dom {
  import opened Wrappers
  import opened CommonUtil

  datatype Endian = BE | LE

  /** Region types. The cursor of src/parser/common/parser.ts uses the one-letter codes
      N n P L S s G C; the cursor of src/parser/parser.ts uses an enum without a signed or
      NUL-terminated variant but with Flag and Time. */
  datatype Kind =
    | Number        // 'N' / RegionType.Number
    | SignedNumber  // 'n'
    | Offset        // 'P' / RegionType.Offset
    | Size          // 'L' / RegionType.Size
    | Str           // 'S' / RegionType.String
    | NulStr        // 's': possibly NUL-terminated string
    | General       // 'G' / RegionType.General
    | Compound      // 'C' / RegionType.Compound
    | Flag          // RegionType.Flag
    | Time          // RegionType.Time
  {
    /** Types whose value `createRegion` reads as an integer. */
    predicate IsNumeric() { this == Number || this == SignedNumber || this == Offset || this == Size }

    /** The one-letter types `createRegion` accepts. */
    predicate IsLetterType() { this != Flag && this != Time }
  }

  /** The lazy `subRegionFetcher` closures of the ZIP decoder: both walk the central
      directory that starts at `cdStart`. */
  datatype Fetcher = CentralRecords(cdStart: int) | LocalFiles(cdStart: int)

  /** `subRegions` absent, present, or a sparse array of `count` slots filled on demand. */
  datatype Children =
    | NoChildren
    | Sub(regions: seq<Region>)
    | Lazy(count: int, fetcher: Fetcher)

  datatype Region = Region(
    id: string,
    kind: Kind,
    description: string,
    startPos: int,
    endPos: int,
    endian: Option<Endian>,
    numValue: Option<int>,
    strValue: Option<string>,
    interpreted: Option<string>,
    children: Children)
  {
    /** The child list, empty when there is none or it is fetched lazily. */
    function Kids(): seq<Region>
    {
      if children.Sub? then children.regions else []
    }
  }

  /** A parse result together with the buffer it describes. */
  datatype FileDom = FileDom(buffer: seq<byte>, regions: seq<Region>)

  /** A region with no value and no children. */
  function Blank(id: string, kind: Kind, description: string, startPos: int, endPos: int): Region
  {
    Region(id, kind, description, startPos, endPos, None, None, None, None, NoChildren)
  }
}
