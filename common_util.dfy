/** Byte utilities of src/parser/common/util.ts: integer reading in either byte order,
    fixed-content checks, pattern search and NUL trimming, plus the `ArrayBuffer.slice`
    index rules that every caller of these utilities relies on. */
module CommonUtil {
  import opened Wrappers

  type byte = b: int | 0 <= b < 256

  /** A text decoder (`new TextDecoder(encoding).decode(bytes)`), supplied by the host. */
  type TextDecoder = (string, seq<byte>) -> string

  function Pow256(n: nat): (r: nat)
    ensures r >= 1
  {
    if n == 0 then 1 else 256 * Pow256(n - 1)
  }

  /** Big-endian value, accumulated the way the reading loop does: `val = val * 256 + byte`
      for the bytes from first to last. */
  function BE(bs: seq<byte>): nat
  {
    if |bs| == 0 then 0 else BE(bs[..|bs| - 1]) * 256 + bs[|bs| - 1]
  }

  /** Little-endian value, accumulated from the last byte down to the first. */
  function LE(bs: seq<byte>): nat
  {
    if |bs| == 0 then 0 else LE(bs[1..]) * 256 + bs[0]
  }

  /** Positional definition: byte k of n bytes weighs 256^(n-1-k). */
  function Positional(bs: seq<byte>): nat
  {
    if |bs| == 0 then 0 else bs[0] * Pow256(|bs| - 1) + Positional(bs[1..])
  }

  function Reverse<T>(s: seq<T>): (r: seq<T>)
    ensures |r| == |s|
    ensures forall k :: 0 <= k < |s| ==> r[k] == s[|s| - 1 - k]
  {
    if |s| == 0 then [] else Reverse(s[1..]) + [s[0]]
  }

  lemma {:induction false} PositionalAppend(bs: seq<byte>, b: byte)
    ensures Positional(bs + [b]) == Positional(bs) * 256 + b
  {
    if |bs| == 0 {
      assert bs + [b] == [b];
    } else {
      assert (bs + [b])[1..] == bs[1..] + [b];
      PositionalAppend(bs[1..], b);
      calc {
        Positional(bs + [b]);
        bs[0] * Pow256(|bs|) + Positional(bs[1..] + [b]);
        bs[0] * (256 * Pow256(|bs| - 1)) + Positional(bs[1..]) * 256 + b;
        { assert bs[0] * (256 * Pow256(|bs| - 1)) == (bs[0] * Pow256(|bs| - 1)) * 256; }
        (bs[0] * Pow256(|bs| - 1) + Positional(bs[1..])) * 256 + b;
      }
    }
  }

  /** The accumulating loop computes the positional sum: the first byte is the most significant. */
  lemma {:induction false} BEIsPositional(bs: seq<byte>)
    ensures BE(bs) == Positional(bs)
  {
    if |bs| > 0 {
      var init := bs[..|bs| - 1];
      BEIsPositional(init);
      assert bs == init + [bs[|bs| - 1]];
      PositionalAppend(init, bs[|bs| - 1]);
    }
  }

  /** Little-endian reading is big-endian reading of the reversed bytes: the last byte is the most significant. */
  lemma {:induction false} LEIsReversedBE(bs: seq<byte>)
    ensures LE(bs) == BE(Reverse(bs))
  {
    if |bs| > 0 {
      LEIsReversedBE(bs[1..]);
      var r := Reverse(bs);
      assert r == Reverse(bs[1..]) + [bs[0]];
      assert r[..|r| - 1] == Reverse(bs[1..]);
    }
  }

  /** An n-byte unsigned value lies in [first byte * 256^(n-1), 256^n). */
  lemma {:induction false} PositionalBounds(bs: seq<byte>)
    ensures Positional(bs) < Pow256(|bs|)
    ensures |bs| > 0 ==> bs[0] * Pow256(|bs| - 1) <= Positional(bs)
    ensures |bs| > 0 ==> Positional(bs) < (bs[0] as int + 1) * Pow256(|bs| - 1)
  {
    if |bs| > 0 {
      var p := Pow256(|bs| - 1);
      PositionalBounds(bs[1..]);
      assert Positional(bs) < bs[0] * p + p;
      MulLeft(bs[0] as int + 1, 256, p);
      assert (bs[0] as int + 1) * p == bs[0] * p + p;
    }
  }

  lemma MulLeft(a: int, b: int, p: nat)
    requires a <= b
    ensures a * p <= b * p
  {
  }

  lemma BEBound(bs: seq<byte>)
    ensures BE(bs) < Pow256(|bs|)
  {
    BEIsPositional(bs);
    PositionalBounds(bs);
  }

  lemma LEBound(bs: seq<byte>)
    ensures LE(bs) < Pow256(|bs|)
  {
    LEIsReversedBE(bs);
    BEBound(Reverse(bs));
  }

  /** Base-128 value of the low 7 bits of each byte (`b & 0x7F`), first byte most
      significant: the accumulation of the ASN.1 long tag form and of the protobuf varint
      reader. */
  function Base128(s: seq<byte>): nat
  {
    if |s| == 0 then 0 else Base128(s[..|s| - 1]) * 128 + s[|s| - 1] % 128
  }

  function Pow128(n: nat): (r: nat)
    ensures r >= 1
  {
    if n == 0 then 1 else 128 * Pow128(n - 1)
  }

  /** n groups of 7 bits hold a value below 128^n. */
  lemma {:induction false} Base128Bound(s: seq<byte>)
    ensures Base128(s) < Pow128(|s|)
  {
    if |s| > 0 {
      var init := s[..|s| - 1];
      Base128Bound(init);
      assert Base128(s) <= (Pow128(|init|) - 1) * 128 + 127;
    }
  }

  /** Index of the most significant byte of `[start, end)` for the given byte order. */
  function MostSignificant(start: int, end: int, bigEndian: bool): int
  {
    if bigEndian then start else end - 1
  }

  /** What `parseValue(buf, start, end, isBigEndian, isSigned)` returns or throws.
      A read of a byte index outside the buffer makes `BigInt(undefined)` throw; this happens
      for every `start > end` and for every non-empty span that leaves the buffer.
      An empty span reads nothing and gives 0, except that the sign test still looks at the
      byte at the most significant index, so a signed empty read over a byte >= 128 gives -1. */
  function ParseValueSpec(buf: seq<byte>, start: int, end: int, bigEndian: bool, signed: bool): Result<int>
  {
    var negative := Negative(buf, start, end, bigEndian, signed);
    if start == end then
      Ok(if negative then -1 else 0)
    else if 0 <= start < end <= |buf| then
      Ok(ApplySign(Unsigned(buf, start, end, bigEndian), negative, end - start))
    else
      Err(ReadPastEnd)
  }

  /** The sign test of `parseValue`: signed, and the byte at the most significant index exists
      and is at least 128. */
  predicate Negative(buf: seq<byte>, start: int, end: int, bigEndian: bool, signed: bool)
  {
    var s := MostSignificant(start, end, bigEndian);
    signed && 0 <= s < |buf| && buf[s] >= 128
  }

  /** The unsigned value of the bytes of `[start, end)` in the given byte order. */
  function Unsigned(buf: seq<byte>, start: int, end: int, bigEndian: bool): nat
    requires 0 <= start <= end <= |buf|
  {
    if bigEndian then BE(buf[start..end]) else LE(buf[start..end])
  }

  /** Two's complement adjustment of an n-byte unsigned value. */
  function ApplySign(u: int, negative: bool, n: nat): int
  {
    if negative then u - Pow256(n) else u
  }

  /** The index of the j-th byte read from `s`, walking up or down. */
  function Idx(s: int, up: bool, j: int): int
  {
    if up then s + j else s - j
  }

  /** The accumulator of `parseValue` after k bytes read from index `s`, walking up or down:
      `val = val * 256 + arr[i]` for each index visited. */
  function Acc(buf: seq<byte>, s: int, up: bool, k: nat): int
    requires forall j :: 0 <= j < k ==> 0 <= Idx(s, up, j) < |buf|
  {
    if k == 0 then 0 else Acc(buf, s, up, k - 1) * 256 + buf[Idx(s, up, k - 1)]
  }

  /** Reading forward from `start` to `end` accumulates the big-endian value of the bytes. */
  lemma {:induction false} AccForward(buf: seq<byte>, start: int, end: int)
    requires 0 <= start <= end <= |buf|
    ensures Acc(buf, start, true, end - start) == BE(buf[start..end])
    decreases end - start
  {
    if start < end {
      AccForward(buf, start, end - 1);
      assert buf[start..end][..end - 1 - start] == buf[start..end - 1];
    }
  }

  /** Reading backward from `end - 1` down to `start` accumulates the little-endian value. */
  lemma {:induction false} AccBackward(buf: seq<byte>, start: int, end: int)
    requires 0 <= start <= end <= |buf|
    ensures Acc(buf, end - 1, false, end - start) == LE(buf[start..end])
    decreases end - start
  {
    if start < end {
      AccBackward(buf, start + 1, end);
      assert buf[start..end][1..] == buf[start + 1..end];
    }
  }

  /** A loop that has read every byte of a non-empty span stayed inside the buffer, and its
      accumulator is the big-endian or little-endian value of the span. */
  lemma AccSpan(buf: seq<byte>, start: int, end: int, bigEndian: bool)
    requires start < end
    requires var s := MostSignificant(start, end, bigEndian);
             forall j :: 0 <= j < end - start ==> 0 <= Idx(s, bigEndian, j) < |buf|
    ensures 0 <= start && end <= |buf|
    ensures Acc(buf, MostSignificant(start, end, bigEndian), bigEndian, end - start)
              == Unsigned(buf, start, end, bigEndian)
  {
    var k := end - start;
    var s := MostSignificant(start, end, bigEndian);
    assert 0 <= Idx(s, bigEndian, 0) < |buf|;
    assert 0 <= Idx(s, bigEndian, k - 1) < |buf|;
    if bigEndian {
      AccForward(buf, start, end);
    } else {
      AccBackward(buf, start, end);
    }
  }

  /** When the loop stops at its end index after k bytes, it has read the whole span, and its
      accumulator and base give what `parseValue` specifies. */
  lemma AccDone(buf: seq<byte>, start: int, end: int, bigEndian: bool, signed: bool, k: nat)
    requires var s := MostSignificant(start, end, bigEndian);
             && Idx(s, bigEndian, k) == (if bigEndian then end else start - 1)
             && (start <= end ==> k <= end - start)
             && forall j :: 0 <= j < k ==> 0 <= Idx(s, bigEndian, j) < |buf|
    ensures var val := Acc(buf, MostSignificant(start, end, bigEndian), bigEndian, k);
            ParseValueSpec(buf, start, end, bigEndian, signed)
              == Ok(ApplySign(val, Negative(buf, start, end, bigEndian, signed), k))
  {
    assert start <= end && k == end - start;
    if start < end {
      AccSpan(buf, start, end, bigEndian);
    } else {
      assert Pow256(0) == 1;
    }
  }

  /** One more byte read: the accumulator and the base both gain a factor 256. */
  lemma AccStep(buf: seq<byte>, s: int, up: bool, k: nat)
    requires forall j :: 0 <= j < k + 1 ==> 0 <= Idx(s, up, j) < |buf|
    ensures Acc(buf, s, up, k + 1) == Acc(buf, s, up, k) * 256 + buf[Idx(s, up, k)]
    ensures Pow256(k + 1) == Pow256(k) * 256
  {
  }

  /** The loop meets an index outside the buffer before reaching the end of the span exactly
      when `parseValue` throws. */
  lemma AccFails(buf: seq<byte>, start: int, end: int, bigEndian: bool, signed: bool, k: nat)
    requires var s := MostSignificant(start, end, bigEndian);
             && (start <= end ==> k < end - start)
             && (forall j :: 0 <= j < k ==> 0 <= Idx(s, bigEndian, j) < |buf|)
             && !(0 <= Idx(s, bigEndian, k) < |buf|)
    ensures ParseValueSpec(buf, start, end, bigEndian, signed) == Err(ReadPastEnd)
  {
  }

  /** `parseValue`: the loop runs from the most significant byte towards the other end,
      multiplying the accumulator by 256 and the base by 256 per byte. */
  method ParseValue(buf: seq<byte>, start: int, end: int, bigEndian: bool, signed: bool) returns (r: Result<int>)
    ensures r == ParseValueSpec(buf, start, end, bigEndian, signed)
  {
    var s := if bigEndian then start else end - 1;
    var e := if bigEndian then end else start - 1;
    var d := if bigEndian then 1 else -1;
    var val: int := 0;
    var base: int := 1;
    var i := s;
    ghost var k: nat := 0;
    while i != e
      invariant i == Idx(s, bigEndian, k)
      invariant forall j :: 0 <= j < k ==> 0 <= Idx(s, bigEndian, j) < |buf|
      invariant start <= end ==> k <= end - start
      invariant val == Acc(buf, s, bigEndian, k) && base == Pow256(k)
      decreases if bigEndian then |buf| - i else i + 1
    {
      if i < 0 || i >= |buf| {
        AccFails(buf, start, end, bigEndian, signed, k);
        return Err(ReadPastEnd);
      }
      AccStep(buf, s, bigEndian, k);
      val := val * 256 + buf[i];
      base := base * 256;
      i := i + d;
      k := k + 1;
    }
    AccDone(buf, start, end, bigEndian, signed, k);
    if signed && 0 <= s < |buf| && buf[s] >= 128 {
      val := val - base;
    }
    return Ok(val);
  }

  /** Unsigned reading is the positional sum of the bytes: big-endian gives `start` the weight
      256^(n-1), little-endian gives it to `end - 1`. */
  lemma UnsignedValue(buf: seq<byte>, start: int, end: int, bigEndian: bool)
    requires 0 <= start < end <= |buf|
    ensures ParseValueSpec(buf, start, end, bigEndian, false)
         == Ok(if bigEndian then Positional(buf[start..end]) else Positional(Reverse(buf[start..end])))
  {
    BEIsPositional(buf[start..end]);
    LEIsReversedBE(buf[start..end]);
    BEIsPositional(Reverse(buf[start..end]));
  }

  /** An unsigned n-byte reading lies in [0, 256^n). */
  lemma UnsignedRange(buf: seq<byte>, start: int, end: int, bigEndian: bool)
    requires start <= end
    requires ParseValueSpec(buf, start, end, bigEndian, false).Ok?
    ensures 0 <= ParseValueSpec(buf, start, end, bigEndian, false).value < Pow256(end - start)
  {
    if start < end {
      BEBound(buf[start..end]);
      LEBound(buf[start..end]);
    }
  }

  /** Little-endian reading of `bytes` equals big-endian reading of the reversed bytes. */
  lemma LittleEndianIsReversed(buf: seq<byte>, start: int, end: int, signed: bool)
    requires 0 <= start < end <= |buf|
    ensures var rev := Reverse(buf[start..end]);
            ParseValueSpec(buf, start, end, false, signed) == ParseValueSpec(rev, 0, |rev|, true, signed)
  {
    var rev := Reverse(buf[start..end]);
    assert rev[0..|rev|] == rev;
    LEIsReversedBE(buf[start..end]);
  }

  /** Two's complement: for a non-empty span the signed reading is the unsigned one minus 256^n
      exactly when the most significant byte is at least 128, and it lies in [-256^n/2, 256^n/2). */
  lemma SignedValue(buf: seq<byte>, start: int, end: int, bigEndian: bool)
    requires 0 <= start < end <= |buf|
    ensures var u := ParseValueSpec(buf, start, end, bigEndian, false).value;
            var v := ParseValueSpec(buf, start, end, bigEndian, true).value;
            var n := Pow256(end - start);
            var msb := buf[MostSignificant(start, end, bigEndian)];
            && (msb >= 128 ==> v == u - n)
            && (msb < 128 ==> v == u)
            && -(n / 2) <= v < n / 2
  {
    var bs := buf[start..end];
    var n := end - start;
    var u := ParseValueSpec(buf, start, end, bigEndian, false).value;
    var ordered := if bigEndian then bs else Reverse(bs);
    UnsignedValue(buf, start, end, bigEndian);
    assert u == Positional(ordered);
    assert ordered[0] == buf[MostSignificant(start, end, bigEndian)];
    PositionalBounds(ordered);
    assert Pow256(n) == 256 * Pow256(n - 1);
    assert Pow256(n) / 2 == 128 * Pow256(n - 1);
    if ordered[0] >= 128 {
      MulLeft(128, ordered[0], Pow256(n - 1));
    } else {
      MulLeft(ordered[0] as int + 1, 128, Pow256(n - 1));
    }
  }

  /** What `checkContent(buf, start, data)` returns or throws: the typed-array view
      `new Uint8Array(buf, start, data.length)` throws a RangeError when it leaves the buffer. */
  function CheckContentSpec(buf: seq<byte>, start: int, data: seq<byte>): Result<bool>
  {
    if start < 0 || start + |data| > |buf| then Err(RangeError)
    else Ok(buf[start..start + |data|] == data)
  }

  /** Within the buffer, the window at `start` equals `data` exactly when every byte matches. */
  lemma SliceIsData(buf: seq<byte>, start: int, data: seq<byte>)
    requires 0 <= start && start + |data| <= |buf|
    ensures buf[start..start + |data|] == data <==> forall i :: 0 <= i < |data| ==> buf[start + i] == data[i]
  {
    var w := buf[start..start + |data|];
    assert forall i :: 0 <= i < |data| ==> w[i] == buf[start + i];
  }

  /** `checkContent`: compares byte by byte and returns false at the first mismatch. */
  method CheckContent(buf: seq<byte>, start: int, data: seq<byte>) returns (r: Result<bool>)
    ensures r == CheckContentSpec(buf, start, data)
    ensures r.Ok? ==> (r.value <==> forall i :: 0 <= i < |data| ==> buf[start + i] == data[i])
  {
    if start < 0 || start + |data| > |buf| {
      return Err(RangeError);
    }
    var i := 0;
    while i < |data|
      invariant 0 <= i <= |data|
      invariant forall j :: 0 <= j < i ==> buf[start + j] == data[j]
    {
      if data[i] != buf[start + i] {
        SliceIsData(buf, start, data);
        return Ok(false);
      }
      i := i + 1;
    }
    SliceIsData(buf, start, data);
    return Ok(true);
  }

  /** `ensureContent`: throws exactly when `checkContent` does not return true. */
  method EnsureContent(buf: seq<byte>, start: int, data: seq<byte>) returns (o: Outcome)
    ensures o.Pass? <==> CheckContentSpec(buf, start, data) == Ok(true)
    ensures o.Fail? ==> o.error == (if CheckContentSpec(buf, start, data).Err? then RangeError else ContentMismatch)
  {
    var c := CheckContent(buf, start, data);
    if c.Err? {
      return Fail(RangeError);
    }
    if !c.value {
      return Fail(ContentMismatch);
    }
    return Pass;
  }

  /** `ensureLength`: throws iff the buffer is shorter than `start + len`. */
  method EnsureLength(buf: seq<byte>, len: int, start: int) returns (o: Outcome)
    ensures o.Fail? <==> |buf| < start + len
    ensures o.Fail? ==> o.error == TooShort
  {
    if |buf| < start + len {
      return Fail(TooShort);
    }
    return Pass;
  }

  /** The pattern occurs at index i: every compared byte exists and is equal
      (an index outside the buffer reads `undefined`, which equals no byte). */
  predicate MatchAt(buf: seq<byte>, pat: seq<byte>, i: int)
  {
    forall j :: 0 <= j < |pat| ==> 0 <= i + j < |buf| && buf[i + j] == pat[j]
  }

  /** `n` bytes from index i lie inside the buffer (trivially so when there are none). */
  predicate Within(buf: seq<byte>, i: int, n: int)
  {
    n == 0 || (0 <= i && i + n <= |buf|)
  }

  /** A match needs the whole window inside the buffer, so the per-byte range tests of
      `MatchAt` collapse into one test on the window. */
  lemma MatchAtWithin(buf: seq<byte>, pat: seq<byte>, i: int)
    ensures MatchAt(buf, pat, i)
        <==> Within(buf, i, |pat|) && forall t :: 0 <= t < |pat| ==> buf[i + t] == pat[t]
  {
    if MatchAt(buf, pat, i) && |pat| > 0 {
      var first, last := pat[0], pat[|pat| - 1];
      assert 0 <= i && i + |pat| <= |buf|;
    }
  }

  /** The greatest index `k <= i` at which the pattern occurs, -1 when there is none. */
  function LastMatch(buf: seq<byte>, pat: seq<byte>, i: int): (r: int)
    ensures r == -1 || (0 <= r <= i && MatchAt(buf, pat, r))
    ensures forall k :: r < k <= i ==> !MatchAt(buf, pat, k)
    decreases i
  {
    if i < 0 then -1
    else if MatchAt(buf, pat, i) then i
    else LastMatch(buf, pat, i - 1)
  }

  /** A backward search result is the last match. */
  lemma LastMatchUnique(buf: seq<byte>, pat: seq<byte>, r: int)
    requires r == -1 || (0 <= r <= |buf| - |pat| && MatchAt(buf, pat, r))
    requires r == -1 ==> forall k :: 0 <= k <= |buf| - |pat| ==> !MatchAt(buf, pat, k)
    requires r != -1 ==> forall k :: r < k <= |buf| - |pat| ==> !MatchAt(buf, pat, k)
    ensures r == LastMatch(buf, pat, |buf| - |pat|)
  {
    var last := LastMatch(buf, pat, |buf| - |pat|);
    if last != -1 && r < last {
      assert MatchAt(buf, pat, last);
    }
  }

  /** `searchPattern`: forward gives the least matching index in [0, |buf|-|pat|], backward
      the greatest; -1 when there is none. */
  method SearchPattern(buf: seq<byte>, pattern: seq<byte>, forward: bool) returns (r: int)
    ensures r == -1 || (0 <= r <= |buf| - |pattern| && MatchAt(buf, pattern, r))
    ensures r == -1 ==> forall k :: 0 <= k <= |buf| - |pattern| ==> !MatchAt(buf, pattern, k)
    ensures forward && r != -1 ==> forall k :: 0 <= k < r ==> !MatchAt(buf, pattern, k)
    ensures !forward && r != -1 ==> forall k :: r < k <= |buf| - |pattern| ==> !MatchAt(buf, pattern, k)
  {
    if forward {
      var i := 0;
      while i <= |buf| - |pattern|
        invariant 0 <= i
        invariant forall k :: 0 <= k < i ==> !MatchAt(buf, pattern, k)
      {
        var matched := true;
        var j := 0;
        while j < |pattern|
          invariant 0 <= j <= |pattern|
          invariant matched <==> forall t :: 0 <= t < j ==> buf[i + t] == pattern[t]
        {
          if buf[i + j] != pattern[j] {
            matched := false;
          }
          j := j + 1;
        }
        if matched {
          return i;
        }
        i := i + 1;
      }
    } else {
      var i := |buf| - |pattern|;
      while i >= 0
        invariant i <= |buf| - |pattern|
        invariant forall k :: i < k <= |buf| - |pattern| ==> !MatchAt(buf, pattern, k)
      {
        var matched := true;
        var j := 0;
        while j < |pattern|
          invariant 0 <= j <= |pattern|
          invariant matched <==> forall t :: 0 <= t < j ==> buf[i + t] == pattern[t]
        {
          if buf[i + j] != pattern[j] {
            matched := false;
          }
          j := j + 1;
        }
        if matched {
          return i;
        }
        i := i - 1;
      }
    }
    return -1;
  }

  /** `t` is `s` without its trailing NUL characters. */
  predicate NulTrimmed(s: string, t: string)
  {
    && |t| <= |s| && t == s[..|t|]
    && (forall k :: |t| <= k < |s| ==> s[k] == '\0')
    && (|t| == 0 || t[|t| - 1] != '\0')
  }

  /** `s` without its trailing NUL characters, one at a time from the end. */
  function WithoutTrailingNuls(s: string): (t: string)
    ensures NulTrimmed(s, t)
    decreases |s|
  {
    if |s| > 0 && s[|s| - 1] == '\0' then
      var t := WithoutTrailingNuls(s[..|s| - 1]);
      assert s[..|s| - 1][..|t|] == s[..|t|];
      t
    else s
  }

  /** `trimNull`: steps back from the end over NUL characters and keeps the rest. */
  method TrimNull(s: string) returns (t: string)
    ensures NulTrimmed(s, t)
    ensures t == WithoutTrailingNuls(s)
  {
    var i := |s| - 1;
    while i >= 0
      invariant -1 <= i < |s|
      invariant forall k :: i < k < |s| ==> s[k] == '\0'
    {
      if s[i] != '\0' {
        break;
      }
      i := i - 1;
    }
    t := s[..i + 1];
    NulTrimUniqueAndIdempotent(s, t, WithoutTrailingNuls(s));
  }

  /** The trimmed string is unique, and trimming it again changes nothing. */
  lemma NulTrimUniqueAndIdempotent(s: string, t: string, t': string)
    requires NulTrimmed(s, t) && NulTrimmed(s, t')
    ensures t == t'
    ensures NulTrimmed(t, t)
  {
  }

  /** JavaScript's relative index rule for `slice(begin, end)`: a negative index counts from the
      end, and the result is clamped to [0, len]. */
  function RelIndex(x: int, len: nat): (r: nat)
    ensures r <= len
    ensures 0 <= x <= len ==> r == x
  {
    if x < 0 then (if len + x < 0 then 0 else len + x)
    else if x > len then len
    else x
  }

  /** `ArrayBuffer.prototype.slice` / `String.prototype.slice`. */
  function Slice<T>(s: seq<T>, a: int, b: int): (r: seq<T>)
    ensures 0 <= a <= b <= |s| ==> r == s[a..b]
    ensures |r| <= |s|
  {
    var lo := RelIndex(a, |s|);
    var hi := RelIndex(b, |s|);
    if hi <= lo then [] else s[lo..hi]
  }

  /** `parseFixedLengthString(buf, offset, len, encoding)`. */
  function ParseFixedLengthString(text: TextDecoder, buf: seq<byte>, offset: int, len: int, encoding: string): string
  {
    text(encoding, Slice(buf, offset, offset + len))
  }
}
