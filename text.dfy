/** The JavaScript string operations the decoders rely on: number formatting
    (`${n}`, `n.toString(16)`), `split('\0')[0]`, `String.prototype.trim`,
    lower-casing and `split('.').pop()`. */
module Text {

  /** Digit character of value `d` (lower-case letters above 9, as `toString(16)` writes them). */
  function DigitChar(d: nat): (c: char)
    requires d < 16
  {
    if d < 10 then ('0' as int + d) as char else ('a' as int + d - 10) as char
  }

  /** Inverse of `DigitChar`; -1 for a character that is no digit. */
  function DigitValue(c: char): int
  {
    if '0' <= c <= '9' then c as int - '0' as int
    else if 'a' <= c <= 'f' then c as int - 'a' as int + 10
    else -1
  }

  lemma DigitCharValue(d: nat)
    requires d < 16
    ensures DigitValue(DigitChar(d)) == d
  {
  }

  /** Euclidean division facts for a base of at least 2. */
  lemma DivStep(n: nat, base: nat)
    requires 2 <= base <= n
    ensures var q, d := n / base, n % base;
            0 <= d < base && 0 < q < n && n == q * base + d
  {
    var q, d := n / base, n % base;
    assert n == q * base + d;
    assert q >= 0;
    MulLe(q, 2, base);
    assert q * 2 <= n;
  }

  lemma MulLe(a: nat, b: nat, c: nat)
    requires b <= c
    ensures a * b <= a * c
  {
  }

  /** Digits of `n` in `base`, most significant first, without leading zeros. */
  function Digits(n: nat, base: nat): (s: string)
    requires 2 <= base <= 16
    ensures |s| >= 1
    decreases n
  {
    if n < base then
      [DigitChar(n)]
    else
      DivStep(n, base);
      Digits(n / base, base) + [DigitChar(n % base)]
  }

  /** Every written character is a digit below the base. */
  lemma {:induction false} DigitsAreDigits(n: nat, base: nat)
    requires 2 <= base <= 16
    ensures var s := Digits(n, base);
            forall k :: 0 <= k < |s| ==> 0 <= DigitValue(s[k]) < base
    decreases n
  {
    if n < base {
      DigitCharValue(n);
    } else {
      DivStep(n, base);
      var q, d := n / base, n % base;
      DigitsAreDigits(q, base);
      assert forall k :: 0 <= k < |Digits(q, base)| ==> 0 <= DigitValue(Digits(q, base)[k]) < base;
      DigitCharValue(d);
      var s, p := Digits(n, base), Digits(q, base);
      assert s == p + [DigitChar(d)];
      forall k | 0 <= k < |s|
        ensures 0 <= DigitValue(s[k]) < base
      {
        if k < |p| {
          assert s[k] == p[k];
        } else {
          assert s[k] == DigitChar(d);
        }
      }
    }
  }

  function ReadDigits(s: string, base: nat): int
  {
    if |s| == 0 then 0 else ReadDigits(s[..|s| - 1], base) * base + DigitValue(s[|s| - 1])
  }

  /** Reading the written digits back gives the number. */
  lemma {:induction false} DigitsRoundTrip(n: nat, base: nat)
    requires 2 <= base <= 16
    ensures ReadDigits(Digits(n, base), base) == n
    decreases n
  {
    var s := Digits(n, base);
    if n < base {
      DigitCharValue(n);
      assert s == [DigitChar(n)];
      assert s[..0] == [];
    } else {
      DivStep(n, base);
      var q, d := n / base, n % base;
      DigitsRoundTrip(q, base);
      DigitCharValue(d);
      assert s == Digits(q, base) + [DigitChar(d)];
      assert s[..|s| - 1] == Digits(q, base);
      assert ReadDigits(s, base) == q * base + d;
    }
  }

  /** `${n}` for an integer. */
  function Decimal(n: int): string
  {
    if n < 0 then "-" + Digits(-n, 10) else Digits(n, 10)
  }

  /** `${n}` reads back as `n`: its decimal digits, after a minus sign when `n` is negative. */
  lemma DecimalReadsBack(n: int)
    ensures var s := Decimal(n);
            && (n >= 0 ==> ReadDigits(s, 10) == n)
            && (n < 0 ==> |s| > 1 && s[0] == '-' && ReadDigits(s[1..], 10) == -n)
  {
    DigitsRoundTrip(if n < 0 then -n else n, 10);
    if n < 0 {
      assert Decimal(n)[1..] == Digits(-n, 10);
    }
  }

  /** `n.toString(16)`: lower-case, no padding. */
  function Hex(n: nat): string
  {
    Digits(n, 16)
  }

  /** `n.toString(16)` reads back as `n`. */
  lemma HexReadsBack(n: nat)
    ensures ReadDigits(Hex(n), 16) == n
  {
    DigitsRoundTrip(n, 16);
  }

  /** `s.split('\0')[0]`: the text before the first NUL character. */
  function BeforeNul(s: string): (r: string)
    ensures r <= s
    ensures '\0' !in r
    ensures |r| < |s| ==> s[|r|] == '\0'
  {
    if |s| == 0 || s[0] == '\0' then [] else [s[0]] + BeforeNul(s[1..])
  }

  /** The characters `String.prototype.trim` removes: WhiteSpace and LineTerminator. */
  predicate IsJsSpace(c: char)
  {
    || c == '\t' || c == '\n' || c == '\U{000B}' || c == '\U{000C}' || c == '\r' || c == ' '
    || c == '\U{00A0}' || c == '\U{1680}' || ('\U{2000}' <= c <= '\U{200A}')
    || c == '\U{2028}' || c == '\U{2029}' || c == '\U{202F}' || c == '\U{205F}'
    || c == '\U{3000}' || c == '\U{FEFF}'
  }

  function TrimStart(s: string): string
  {
    if |s| > 0 && IsJsSpace(s[0]) then TrimStart(s[1..]) else s
  }

  function TrimEnd(s: string): string
  {
    if |s| > 0 && IsJsSpace(s[|s| - 1]) then TrimEnd(s[..|s| - 1]) else s
  }

  /** `s.trim()`. */
  function Trim(s: string): string
  {
    TrimEnd(TrimStart(s))
  }

  /** `trimStart` drops a prefix made of whitespace only, and what is left does not start
      with whitespace. */
  lemma {:induction false} TrimStartShape(s: string)
    ensures var r := TrimStart(s);
            && |r| <= |s| && r == s[|s| - |r|..]
            && (forall k :: 0 <= k < |s| - |r| ==> IsJsSpace(s[k]))
            && (|r| > 0 ==> !IsJsSpace(r[0]))
  {
    if |s| > 0 && IsJsSpace(s[0]) {
      TrimStartShape(s[1..]);
      var r := TrimStart(s[1..]);
      assert s[1..][|s| - 1 - |r|..] == s[|s| - |r|..];
      forall k | 0 <= k < |s| - |r|
        ensures IsJsSpace(s[k])
      {
        if k > 0 {
          assert s[k] == s[1..][k - 1];
        }
      }
    }
  }

  /** `trimEnd` drops a suffix made of whitespace only, and what is left does not end with
      whitespace. */
  lemma {:induction false} TrimEndShape(s: string)
    ensures var r := TrimEnd(s);
            && r <= s
            && (forall k :: |r| <= k < |s| ==> IsJsSpace(s[k]))
            && (|r| > 0 ==> !IsJsSpace(r[|r| - 1]))
  {
    if |s| > 0 && IsJsSpace(s[|s| - 1]) {
      TrimEndShape(s[..|s| - 1]);
      var r := TrimEnd(s[..|s| - 1]);
      forall k | |r| <= k < |s|
        ensures IsJsSpace(s[k])
      {
        if k < |s| - 1 {
          assert s[k] == s[..|s| - 1][k];
        }
      }
    }
  }

  /** The result of `trim` neither starts nor ends with whitespace. */
  lemma TrimEnds(s: string)
    ensures var r := Trim(s);
            |r| > 0 ==> !IsJsSpace(r[0]) && !IsJsSpace(r[|r| - 1])
  {
    var t := TrimStart(s);
    TrimStartShape(s);
    TrimEndShape(t);
    var r := TrimEnd(t);
    if |r| > 0 {
      assert r[0] == t[0];
    }
  }

  lemma TrimStartKeeps(s: string, k: int)
    requires 0 <= k < |s| && !IsJsSpace(s[k])
    ensures |s| - |TrimStart(s)| <= k
  {
    TrimStartShape(s);
  }

  lemma TrimEndKeeps(s: string, k: int)
    requires 0 <= k < |s| && !IsJsSpace(s[k])
    ensures k < |TrimEnd(s)|
  {
    TrimEndShape(s);
  }

  /** Trimming removes only whitespace: every other character of `s` survives, in place. */
  lemma TrimKeepsText(s: string, k: int)
    requires 0 <= k < |s| && !IsJsSpace(s[k])
    ensures var t := TrimStart(s);
            var d := |s| - |t|;
            d <= k < d + |Trim(s)| && Trim(s)[k - d] == s[k]
  {
    var t := TrimStart(s);
    var d := |s| - |t|;
    var r := TrimEnd(t);
    TrimStartShape(s);
    TrimEndShape(t);
    TrimStartKeeps(s, k);
    assert t[k - d] == s[k];
    TrimEndKeeps(t, k - d);
  }

  /** Trimming twice is trimming once. */
  lemma TrimIdempotent(s: string)
    ensures Trim(Trim(s)) == Trim(s)
  {
    var r := Trim(s);
    TrimEnds(s);
    assert TrimStart(r) == r;
    assert TrimEnd(r) == r;
  }

  /** `s.toLowerCase()` on ASCII letters. */
  function LowerAscii(s: string): (r: string)
    ensures |r| == |s|
    ensures forall k :: 0 <= k < |s| ==> r[k] == (if 'A' <= s[k] <= 'Z' then (s[k] as int + 32) as char else s[k])
  {
    if |s| == 0 then []
    else [if 'A' <= s[0] <= 'Z' then (s[0] as int + 32) as char else s[0]] + LowerAscii(s[1..])
  }

  /** `s.split('.').pop()`: the text after the last '.', or all of `s` when it has none. */
  function AfterLastDot(s: string): (r: string)
    ensures |r| <= |s| && r == s[|s| - |r|..]
    ensures '.' !in r
    ensures |r| < |s| ==> s[|s| - |r| - 1] == '.'
  {
    if |s| == 0 then ""
    else if s[|s| - 1] == '.' then ""
    else AfterLastDot(s[..|s| - 1]) + [s[|s| - 1]]
  }
}
