/** The byte utilities of src/parser/util.ts, a second copy of those in
    src/parser/common/util.ts: the same integer reader, an `ensureContent` that throws
    inside its comparison loop, and a pattern search. */
module ParserUtil {
  import opened Wrappers
  import opened CommonUtil

  /** `ensureLength`: the same test as in src/parser/common/util.ts. */
  method EnsureLength(buf: seq<byte>, len: int, start: int) returns (o: Outcome)
    ensures o.Fail? <==> |buf| < start + len
    ensures o.Fail? ==> o.error == TooShort
  {
    o := CommonUtil.EnsureLength(buf, len, start);
  }

  /** `ensureContent`: the view over `[start, start+|data|)` must lie in the buffer, and the
      loop throws as soon as one byte differs. It returns normally exactly when
      `checkContent` of src/parser/common/util.ts would return true. */
  method EnsureContent(buf: seq<byte>, start: int, data: seq<byte>) returns (o: Outcome)
    ensures o.Pass? <==> (0 <= start && start + |data| <= |buf|
                          && forall i :: 0 <= i < |data| ==> buf[start + i] == data[i])
    ensures o.Pass? <==> CheckContentSpec(buf, start, data) == Ok(true)
    ensures o.Fail? ==> o.error == (if start < 0 || start + |data| > |buf| then RangeError else ContentMismatch)
  {
    if start < 0 || start + |data| > |buf| {
      return Fail(RangeError);
    }
    SliceIsData(buf, start, data);
    for i := 0 to |data|
      invariant forall k :: 0 <= k < i ==> buf[start + k] == data[k]
    {
      if data[i] != buf[start + i] {
        return Fail(ContentMismatch);
      }
    }
    return Pass;
  }

  /** The forward scan, started at `from`: every candidate index from `from` up to
      `|buf| - |pattern|` is compared over the whole pattern, and the first full match is
      returned. A compared index outside the buffer reads `undefined` and matches nothing. */
  method SearchFrom(buf: seq<byte>, pattern: seq<byte>, from: int) returns (r: int)
    ensures || (from <= r <= |buf| - |pattern| && MatchAt(buf, pattern, r)
                && forall k :: from <= k < r ==> !MatchAt(buf, pattern, k))
            || (r == -1 && forall k :: from <= k <= |buf| - |pattern| ==> !MatchAt(buf, pattern, k))
  {
    var i := from;
    while i <= |buf| - |pattern|
      invariant from <= i
      invariant forall k :: from <= k < i ==> !MatchAt(buf, pattern, k)
      decreases |buf| - |pattern| - i
    {
      var matched := true;
      for j := 0 to |pattern|
        invariant matched <==> Within(buf, i, j) && forall t :: 0 <= t < j ==> buf[i + t] == pattern[t]
      {
        if !(0 <= i + j < |buf|) || buf[i + j] != pattern[j] {
          matched := false;
        }
      }
      MatchAtWithin(buf, pattern, i);
      if matched {
        return i;
      }
      i := i + 1;
    }
    return -1;
  }

  /** The backward scan: from `|buf| - |pattern|` down to 0, the first full match. */
  method SearchBack(buf: seq<byte>, pattern: seq<byte>) returns (r: int)
    ensures r == -1 || (0 <= r <= |buf| - |pattern| && MatchAt(buf, pattern, r))
    ensures r != -1 ==> forall k :: r < k <= |buf| - |pattern| ==> !MatchAt(buf, pattern, k)
    ensures r == -1 ==> forall k :: 0 <= k <= |buf| - |pattern| ==> !MatchAt(buf, pattern, k)
  {
    var i := |buf| - |pattern|;
    while i >= 0
      invariant i <= |buf| - |pattern|
      invariant forall k :: i < k <= |buf| - |pattern| ==> !MatchAt(buf, pattern, k)
    {
      var matched := true;
      for j := 0 to |pattern|
        invariant matched <==> forall t :: 0 <= t < j ==> buf[i + t] == pattern[t]
      {
        if buf[i + j] != pattern[j] {
          matched := false;
        }
      }
      if matched {
        return i;
      }
      i := i - 1;
    }
    return -1;
  }

  /** `searchPattern(buf, pattern, forward)`: a returned index is a full match; forward gives
      the first one and backward the last; -1 when the pattern occurs nowhere. */
  method SearchPattern(buf: seq<byte>, pattern: seq<byte>, forward: bool) returns (r: int)
    ensures r != -1 ==> 0 <= r && r + |pattern| <= |buf| && buf[r..r + |pattern|] == pattern
    ensures r == -1 <==> forall k :: 0 <= k <= |buf| - |pattern| ==> !MatchAt(buf, pattern, k)
    ensures forward && r != -1 ==> forall k :: 0 <= k < r ==> !MatchAt(buf, pattern, k)
    ensures !forward && r != -1 ==> forall k :: r < k <= |buf| - |pattern| ==> !MatchAt(buf, pattern, k)
  {
    if forward {
      r := SearchFrom(buf, pattern, 0);
    } else {
      r := SearchBack(buf, pattern);
    }
    if r != -1 {
      assert buf[r..r + |pattern|] == pattern;
    }
  }

  /** `parseValue`: its text is the same loop as the reader of src/parser/common/util.ts, so it
      runs that reader, and gives the same result on every input, thrown errors included. */
  method ParseValue(buf: seq<byte>, start: int, end: int, bigEndian: bool, signed: bool) returns (r: Result<int>)
    ensures r == ParseValueSpec(buf, start, end, bigEndian, signed)
  {
    r := CommonUtil.ParseValue(buf, start, end, bigEndian, signed);
  }
}
