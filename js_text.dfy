/**
 * The fragments of JavaScript's string and number semantics that the
 * attendance code relies on: decimal rendering of integers, `parseInt`,
 * `isNaN` on strings, `trim`, `split`, `join`, `includes`, `slice`,
 * and the UTF-16 view that `length` and `charCodeAt` use.
 *
 * JavaScript strings are sequences of UTF-16 code units; here they are
 * `string` (sequences of Unicode scalar values). `Utf16` gives the code-unit
 * view where the distinction matters (the device fingerprint).
 */
module JsText {

  /** A number produced by `parseInt`: NaN, or an integer value. */
  datatype JsInt = NaN | Int(value: int)

  /** A value that may be `null` or `undefined`. */
  datatype Option<T> = None | Some(value: T)

  // ---------------------------------------------------------------------
  // Digits and powers of ten

  predicate IsDigit(c: char) { '0' <= c <= '9' }

  predicate AllDigits(s: string) {
    forall i :: 0 <= i < |s| ==> IsDigit(s[i])
  }

  function DigitValue(c: char): (d: nat)
    requires IsDigit(c)
    ensures d < 10
  {
    (c as int) - ('0' as int)
  }

  function DigitChar(d: nat): (c: char)
    requires d < 10
    ensures IsDigit(c) && DigitValue(c) == d
  {
    (('0' as int) + d) as char
  }

  function Pow10(k: nat): (p: nat)
    ensures p >= 1
  {
    if k == 0 then 1 else 10 * Pow10(k - 1)
  }

  /** The value of a string of decimal digits (most significant first). */
  function DecimalValue(s: string): nat
    requires AllDigits(s)
  {
    if s == [] then 0 else DecimalValue(s[..|s| - 1]) * 10 + DigitValue(s[|s| - 1])
  }

  // ---------------------------------------------------------------------
  // Number.prototype.toString for integers (below 1e21, where JavaScript
  // switches to exponent notation)

  /** Decimal digits of `n`, without leading zeros. */
  function NatToDecimal(n: nat): (s: string)
    ensures |s| >= 1 && AllDigits(s)
    ensures |s| > 1 ==> s[0] != '0'
  {
    if n < 10 then [DigitChar(n)] else NatToDecimal(n / 10) + [DigitChar(n % 10)]
  }

  /** `String(i)` for an integer: a '-' sign for negatives, then the digits. */
  function IntToString(i: int): (s: string)
    ensures |s| >= 1
    ensures i < 0 <==> s[0] == '-'
  {
    if i < 0 then "-" + NatToDecimal(-i) else NatToDecimal(i)
  }

  lemma {:induction false} DecimalRoundTrip(n: nat)
    ensures DecimalValue(NatToDecimal(n)) == n
  {
    if n >= 10 {
      var s := NatToDecimal(n);
      var p := NatToDecimal(n / 10);
      assert s[..|s| - 1] == p;
      DecimalRoundTrip(n / 10);
    }
  }

  /** Different naturals render differently. */
  lemma NatToDecimalInjective(m: nat, n: nat)
    requires NatToDecimal(m) == NatToDecimal(n)
    ensures m == n
  {
    DecimalRoundTrip(m);
    DecimalRoundTrip(n);
  }

  /** Different integers render differently (the sign settles mixed signs). */
  lemma IntToStringInjective(i: int, j: int)
    requires IntToString(i) == IntToString(j)
    ensures i == j
  {
    if i < 0 && j < 0 {
      assert NatToDecimal(-i) == IntToString(i)[1..] == IntToString(j)[1..] == NatToDecimal(-j);
      NatToDecimalInjective(-i, -j);
    } else if i >= 0 && j >= 0 {
      NatToDecimalInjective(i, j);
    }
  }

  /** Below 10^k exactly when at most k digits are needed. */
  lemma {:induction false} DecimalLength(n: nat, k: nat)
    requires k >= 1
    ensures n < Pow10(k) <==> |NatToDecimal(n)| <= k
  {
    if n >= 10 {
      if k == 1 {
        assert |NatToDecimal(n)| == |NatToDecimal(n / 10)| + 1;
      } else {
        DecimalLength(n / 10, k - 1);
        assert n < 10 * Pow10(k - 1) <==> n / 10 < Pow10(k - 1);
      }
    }
  }

  /** The value of the last k digits of a digit string is its value modulo 10^k. */
  lemma {:induction false} SuffixValue(s: string, k: nat)
    requires AllDigits(s) && k <= |s|
    ensures DecimalValue(s[|s| - k..]) == DecimalValue(s) % Pow10(k)
  {
    if k == 0 {
      assert s[|s|..] == [];
    } else {
      var init := s[..|s| - 1];
      var d := DigitValue(s[|s| - 1]);
      SuffixValue(init, k - 1);
      var suf := s[|s| - k..];
      assert suf[..|suf| - 1] == init[|init| - (k - 1)..];
      assert DecimalValue(suf) == DecimalValue(init[|init| - (k - 1)..]) * 10 + d;
      ShiftDigitMod(DecimalValue(init), d, Pow10(k - 1));
    }
  }

  lemma ShiftDigitMod(a: nat, d: nat, m: nat)
    requires d < 10 && m >= 1
    ensures (a * 10 + d) % (10 * m) == (a % m) * 10 + d
  {
    var q, r := a / m, a % m;
    assert a * 10 + d == q * (10 * m) + (r * 10 + d);
    ModUnique(a * 10 + d, q, 10 * m, r * 10 + d);
  }

  /** Quotient and remainder are unique. */
  lemma ModUnique(x: int, q: int, m: int, r: int)
    requires m > 0 && 0 <= r < m && x == q * m + r
    ensures x / m == q && x % m == r
  {
    var q0, r0 := x / m, x % m;
    assert (q - q0) * m == r0 - r;
    if q > q0 {
      MulAtLeast(q - q0, m);
    } else if q < q0 {
      MulAtLeast(q0 - q, m);
    }
  }

  lemma MulAtLeast(a: int, m: int)
    requires a >= 1 && m > 0
    ensures a * m >= m
  {
  }

  // ---------------------------------------------------------------------
  // Whitespace and String.prototype.trim

  /** WhiteSpace and LineTerminator code points, as `trim` and `parseInt` skip them. */
  predicate IsJsWhitespace(c: char) {
    c == '\t' || c == '\n' || c == '\U{000B}' || c == '\U{000C}' || c == '\r' || c == ' '
    || c == '\U{00A0}' || c == '\U{1680}' || ('\U{2000}' <= c <= '\U{200A}')
    || c == '\U{2028}' || c == '\U{2029}' || c == '\U{202F}' || c == '\U{205F}'
    || c == '\U{3000}' || c == '\U{FEFF}'
  }

  function TrimStart(s: string): (t: string)
    ensures |t| <= |s| && t == s[|s| - |t|..]
    ensures t == [] || !IsJsWhitespace(t[0])
  {
    if s != [] && IsJsWhitespace(s[0]) then TrimStart(s[1..]) else s
  }

  function TrimEnd(s: string): (t: string)
    ensures |t| <= |s| && t == s[..|t|]
    ensures t == [] || !IsJsWhitespace(t[|t| - 1])
  {
    if s != [] && IsJsWhitespace(s[|s| - 1]) then TrimEnd(s[..|s| - 1]) else s
  }

  /** `s.trim()`: the longest infix with no whitespace at either end. */
  function Trim(s: string): (t: string)
    ensures |t| <= |s|
    ensures t == [] || (!IsJsWhitespace(t[0]) && !IsJsWhitespace(t[|t| - 1]))
  {
    TrimEnd(TrimStart(s))
  }

  /** `trimStart` removes whitespace only. */
  lemma {:induction false} TrimStartStripsWhitespace(s: string)
    ensures forall k :: 0 <= k < |s| - |TrimStart(s)| ==> IsJsWhitespace(s[k])
    decreases |s|
  {
    if s != [] && IsJsWhitespace(s[0]) {
      TrimStartStripsWhitespace(s[1..]);
      forall k | 1 <= k < |s| - |TrimStart(s)|
        ensures IsJsWhitespace(s[k])
      {
        assert s[k] == s[1..][k - 1];
      }
    }
  }

  /** `trimEnd` removes whitespace only. */
  lemma {:induction false} TrimEndStripsWhitespace(s: string)
    ensures forall k :: |TrimEnd(s)| <= k < |s| ==> IsJsWhitespace(s[k])
    decreases |s|
  {
    if s != [] && IsJsWhitespace(s[|s| - 1]) {
      TrimEndStripsWhitespace(s[..|s| - 1]);
      forall k | |TrimEnd(s)| <= k < |s| - 1
        ensures IsJsWhitespace(s[k])
      {
        assert s[k] == s[..|s| - 1][k];
      }
    }
  }

  /**
   * `trim` cuts `s` to an infix: everything removed before and after it is
   * whitespace, and the infix is empty or starts and ends with
   * non-whitespace, so no longer infix qualifies.
   */
  lemma TrimStripsOnlyWhitespace(s: string)
    ensures exists i, j :: 0 <= i <= j <= |s| && Trim(s) == s[i..j]
              && (forall k :: 0 <= k < i ==> IsJsWhitespace(s[k]))
              && (forall k :: j <= k < |s| ==> IsJsWhitespace(s[k]))
    ensures var t := Trim(s);
            t == [] || (!IsJsWhitespace(t[0]) && !IsJsWhitespace(t[|t| - 1]))
  {
    hide IsJsWhitespace, TrimStart, TrimEnd;
    var u := TrimStart(s);
    var i := |s| - |u|;
    var j := i + |TrimEnd(u)|;
    TrimStartStripsWhitespace(s);
    TrimEndStripsWhitespace(u);
    assert u == s[i..];
    assert Trim(s) == s[i..j];
    forall k | j <= k < |s|
      ensures IsJsWhitespace(s[k])
    {
      assert s[k] == u[k - i];
    }
    assert 0 <= i <= j <= |s| && Trim(s) == s[i..j]
           && (forall k :: 0 <= k < i ==> IsJsWhitespace(s[k]))
           && (forall k :: j <= k < |s| ==> IsJsWhitespace(s[k]));
  }

  // ---------------------------------------------------------------------
  // parseInt(string) with no radix (ECMA-262, section 19.2.5)

  predicate IsHexDigit(c: char) {
    IsDigit(c) || ('a' <= c <= 'f') || ('A' <= c <= 'F')
  }

  function HexDigitValue(c: char): (d: nat)
    requires IsHexDigit(c)
    ensures d < 16
  {
    if IsDigit(c) then DigitValue(c)
    else if 'a' <= c <= 'f' then (c as int) - ('a' as int) + 10
    else (c as int) - ('A' as int) + 10
  }

  function HexValue(s: string): nat
    requires forall i :: 0 <= i < |s| ==> IsHexDigit(s[i])
  {
    if s == [] then 0 else HexValue(s[..|s| - 1]) * 16 + HexDigitValue(s[|s| - 1])
  }

  /** The longest prefix of `s` made of decimal digits. */
  function DigitPrefix(s: string): (z: string)
    ensures AllDigits(z) && z <= s
    ensures |z| < |s| ==> !IsDigit(s[|z|])
  {
    if s != [] && IsDigit(s[0]) then [s[0]] + DigitPrefix(s[1..]) else []
  }

  /** The longest prefix of `s` made of hexadecimal digits. */
  function HexPrefix(s: string): (z: string)
    ensures (forall i :: 0 <= i < |z| ==> IsHexDigit(z[i])) && z <= s
    ensures |z| < |s| ==> !IsHexDigit(s[|z|])
  {
    if s != [] && IsHexDigit(s[0]) then [s[0]] + HexPrefix(s[1..]) else []
  }

  /**
   * `parseInt(s)`: skip leading whitespace, read an optional sign, then a
   * "0x"/"0X" prefix selects base 16; the longest run of digits of that base
   * is read, and an empty run gives NaN. Trailing text is ignored.
   */
  function ParseInt(s: string): JsInt {
    var t := TrimStart(s);
    var negative := |t| > 0 && t[0] == '-';
    var u := if |t| > 0 && (t[0] == '-' || t[0] == '+') then t[1..] else t;
    match UnsignedValue(u)
    case None => NaN
    case Some(v) => Int(if negative then 0 - v as int else v)
  }

  /** The unsigned part of `parseInt`: base 16 after "0x"/"0X", else base 10; None for an empty run. */
  function UnsignedValue(u: string): Option<nat> {
    if |u| >= 2 && u[0] == '0' && (u[1] == 'x' || u[1] == 'X') then
      var z := HexPrefix(u[2..]);
      if z == [] then None else Some(HexValue(z))
    else
      var z := DigitPrefix(u);
      if z == [] then None else Some(DecimalValue(z))
  }

  lemma DigitPrefixOfDigits(s: string)
    requires AllDigits(s)
    ensures DigitPrefix(s) == s
  {
    if s != [] {
      DigitPrefixOfDigits(s[1..]);
    }
  }

  /** A text that does not start with whitespace is its own TrimStart. */
  lemma TrimStartSolid(s: string)
    requires |s| > 0 && !IsJsWhitespace(s[0])
    ensures TrimStart(s) == s
  {
  }

  /** A text that does not end with whitespace is its own TrimEnd. */
  lemma TrimEndSolid(s: string)
    requires |s| > 0 && !IsJsWhitespace(s[|s| - 1])
    ensures TrimEnd(s) == s
  {
  }

  /** A text whose ends are not whitespace is its own trim. */
  lemma TrimOfSolidEnds(s: string)
    requires |s| > 0 && !IsJsWhitespace(s[0]) && !IsJsWhitespace(s[|s| - 1])
    ensures Trim(s) == s
  {
    TrimStartSolid(s);
    TrimEndSolid(s);
  }

  lemma DigitIsNotWhitespace(c: char)
    requires IsDigit(c)
    ensures !IsJsWhitespace(c)
  {
  }

  /** Without leading whitespace or a sign, `parseInt` is the unsigned value. */
  lemma ParseIntUnsigned(s: string)
    requires |s| > 0 && !IsJsWhitespace(s[0]) && s[0] != '-' && s[0] != '+'
    ensures ParseInt(s) == match UnsignedValue(s) case None => NaN case Some(v) => Int(v)
  {
    TrimStartSolid(s);
  }

  /** After a leading '-', `parseInt` is the negated unsigned value of the rest. */
  lemma ParseIntNegated(u: string)
    ensures ParseInt("-" + u) == match UnsignedValue(u) case None => NaN case Some(v) => Int(0 - v)
  {
    var s := "-" + u;
    TrimStartSolid(s);
    assert s[1..] == u;
  }

  /** A run starting with a decimal digit, and not "0x"/"0X", is read in base 10. */
  lemma UnsignedDecimal(u: string)
    requires |u| > 0 && IsDigit(u[0]) && !(|u| >= 2 && u[0] == '0' && (u[1] == 'x' || u[1] == 'X'))
    ensures UnsignedValue(u) == Some(DecimalValue(DigitPrefix(u)))
  {
    assert DigitPrefix(u) == [u[0]] + DigitPrefix(u[1..]);
  }

  /** `parseInt(String(i)) === i`: rendering an integer and parsing it back is lossless. */
  lemma ParseIntOfIntToString(i: int)
    ensures ParseInt(IntToString(i)) == Int(i)
  {
    var n: nat := if i < 0 then -i else i;
    var d := NatToDecimal(n);
    DigitPrefixOfDigits(d);
    DecimalRoundTrip(n);
    assert IsDigit(d[0]);
    UnsignedDecimal(d);
    if i < 0 {
      assert IntToString(i) == "-" + d;
      ParseIntNegated(d);
    } else {
      assert IntToString(i) == d;
      ParseIntUnsigned(d);
    }
  }

  // ---------------------------------------------------------------------
  // isNaN(string): ToNumber of a string (ECMA-262, section 7.1.4.1.1)

  /** Index of the first occurrence of `a` or `b` in `s`, or |s| if neither occurs. */
  function FirstIndexOf(s: string, a: char, b: char): (r: nat)
    ensures r <= |s|
    ensures forall j :: 0 <= j < r ==> s[j] != a && s[j] != b
    ensures r < |s| ==> s[r] == a || s[r] == b
  {
    if s == [] then 0
    else if s[0] == a || s[0] == b then 0
    else 1 + FirstIndexOf(s[1..], a, b)
  }

  /** DecimalDigits, optionally with a '.' and a (possibly empty) fraction; not '.' alone. */
  predicate IsDecimalMantissa(m: string) {
    var d := FirstIndexOf(m, '.', '.');
    if d == |m| then |m| > 0 && AllDigits(m)
    else AllDigits(m[..d]) && AllDigits(m[d + 1..]) && (d > 0 || d + 1 < |m|)
  }

  predicate IsSignedInteger(s: string) {
    var u := if |s| > 0 && (s[0] == '+' || s[0] == '-') then s[1..] else s;
    |u| > 0 && AllDigits(u)
  }

  predicate IsStrUnsignedDecimalLiteral(s: string) {
    if s == "Infinity" then true
    else
      var e := FirstIndexOf(s, 'e', 'E');
      if e == |s| then IsDecimalMantissa(s)
      else IsDecimalMantissa(s[..e]) && IsSignedInteger(s[e + 1..])
  }

  predicate IsStrDecimalLiteral(s: string) {
    if |s| > 0 && (s[0] == '+' || s[0] == '-') then IsStrUnsignedDecimalLiteral(s[1..])
    else IsStrUnsignedDecimalLiteral(s)
  }

  predicate IsNonDecimalIntegerLiteral(s: string) {
    |s| > 2 && s[0] == '0' &&
    ((s[1] in "xX" && forall i :: 2 <= i < |s| ==> IsHexDigit(s[i])) ||
     (s[1] in "oO" && forall i :: 2 <= i < |s| ==> '0' <= s[i] <= '7') ||
     (s[1] in "bB" && forall i :: 2 <= i < |s| ==> s[i] == '0' || s[i] == '1'))
  }

  /**
   * `isNaN(s)` for a string `s`: ToNumber trims whitespace; the empty string
   * is 0; otherwise the text must be a StringNumericLiteral.
   */
  predicate IsNaNString(s: string) {
    var t := Trim(s);
    t != [] && !(IsStrDecimalLiteral(t) || IsNonDecimalIntegerLiteral(t))
  }

  /** For a text that is its own trim, `isNaN` is false exactly for a StringNumericLiteral. */
  lemma IsNaNOfTrimmed(s: string)
    requires |s| > 0 && Trim(s) == s
    ensures IsNaNString(s) <==> !(IsStrDecimalLiteral(s) || IsNonDecimalIntegerLiteral(s))
  {
    hide Trim;
  }

  /** A non-empty run of decimal digits is a number. */
  lemma DigitsAreNumeric(s: string)
    requires |s| > 0 && AllDigits(s)
    ensures !IsNaNString(s)
  {
    TrimOfDigits(s);
    IsNaNOfTrimmed(s);
    DigitsAreDecimalLiteral(s);
  }

  lemma TrimOfDigits(s: string)
    requires |s| > 0 && AllDigits(s)
    ensures Trim(s) == s
  {
    DigitIsNotWhitespace(s[0]);
    DigitIsNotWhitespace(s[|s| - 1]);
    TrimOfSolidEnds(s);
  }

  lemma DigitsAreDecimalLiteral(s: string)
    requires |s| > 0 && AllDigits(s)
    ensures IsStrDecimalLiteral(s)
  {
    assert IsDigit(s[0]);
    FirstIndexOfAbsent(s, 'e', 'E');
    FirstIndexOfAbsent(s, '.', '.');
  }

  lemma FirstIndexOfAbsent(s: string, a: char, b: char)
    requires forall k :: 0 <= k < |s| ==> s[k] != a && s[k] != b
    ensures FirstIndexOf(s, a, b) == |s|
  {
  }

  // ---------------------------------------------------------------------
  // split, join, includes, slice

  /** Index of the first `c` in `s`. */
  function IndexOf(s: string, c: char): (i: nat)
    requires c in s
    ensures i < |s| && s[i] == c && c !in s[..i]
  {
    if s[0] == c then 0 else 1 + IndexOf(s[1..], c)
  }

  /** `s.split(sep)` for a one-character separator. */
  function Split(s: string, sep: char): (parts: seq<string>)
    ensures |parts| >= 1
    ensures forall k :: 0 <= k < |parts| ==> sep !in parts[k]
    decreases |s|
  {
    if sep !in s then [s]
    else
      var i := IndexOf(s, sep);
      [s[..i]] + Split(s[i + 1..], sep)
  }

  /** `parts.join(sep)`. */
  function Join(parts: seq<string>, sep: char): string {
    if parts == [] then ""
    else if |parts| == 1 then parts[0]
    else parts[0] + [sep] + Join(parts[1..], sep)
  }

  /** Splitting undoes joining when no part holds the separator. */
  lemma {:induction false} SplitJoin(parts: seq<string>, sep: char)
    requires |parts| >= 1
    requires forall k :: 0 <= k < |parts| ==> sep !in parts[k]
    ensures Split(Join(parts, sep), sep) == parts
  {
    if |parts| > 1 {
      var rest := Join(parts[1..], sep);
      var s := parts[0] + [sep] + rest;
      assert sep in s by { assert s[|parts[0]|] == sep; }
      var i := IndexOf(s, sep);
      assert s[..|parts[0]|] == parts[0];
      assert i == |parts[0]|;
      assert s[..i] == parts[0];
      assert s[i + 1..] == rest;
      SplitJoin(parts[1..], sep);
    }
  }

  /** Joining undoes splitting. */
  lemma {:induction false} JoinSplit(s: string, sep: char)
    ensures Join(Split(s, sep), sep) == s
    decreases |s|
  {
    if sep in s {
      var i := IndexOf(s, sep);
      var rest := Split(s[i + 1..], sep);
      var parts := [s[..i]] + rest;
      assert Split(s, sep) == parts;
      assert |parts| > 1 && parts[0] == s[..i] && parts[1..] == rest;
      assert Join(parts, sep) == s[..i] + [sep] + Join(rest, sep);
      JoinSplit(s[i + 1..], sep);
      assert s == s[..i] + [sep] + s[i + 1..];
    }
  }

  /** `msg.includes(key)`. */
  predicate Includes(msg: string, key: string)
    decreases |msg|
  {
    key <= msg || (msg != [] && Includes(msg[1..], key))
  }

  lemma {:induction false} IncludesInfix(a: string, key: string, b: string)
    ensures Includes(a + key + b, key)
    decreases |a|
  {
    if a != [] {
      assert (a + key + b)[1..] == a[1..] + key + b;
      IncludesInfix(a[1..], key, b);
    } else {
      assert key <= key + b;
    }
  }

  /** A relative index of `slice`: negative counts from the end, then clamped to [0, len]. */
  function RelativeIndex(i: int, len: nat): (r: nat)
    ensures r <= len
    ensures 0 <= i <= len ==> r == i
    ensures i < 0 && -i <= len ==> r == len + i
  {
    if i < 0 then (if len + i < 0 then 0 else len + i)
    else if i > len then len
    else i
  }

  /** `s.slice(start, end)` for arrays and strings alike. */
  function Slice<T>(s: seq<T>, start: int, end: int): (r: seq<T>)
    ensures |r| <= |s|
    ensures 0 <= start <= end <= |s| ==> r == s[start..end]
  {
    var a := RelativeIndex(start, |s|);
    var b := RelativeIndex(end, |s|);
    if a < b then s[a..b] else []
  }

  // ---------------------------------------------------------------------
  // UTF-16 code units

  type CodeUnit = x: int | 0 <= x < 0x1_0000

  /** The code units `charCodeAt` reads: astral characters become surrogate pairs. */
  function Utf16(s: string): (units: seq<CodeUnit>)
    ensures |units| >= |s|
    ensures (forall k :: 0 <= k < |s| ==> (s[k] as int) < 0x1_0000) ==> |units| == |s|
  {
    if s == [] then []
    else
      var c := s[0] as int;
      (if c < 0x1_0000 then [c]
       else [0xD800 + (c - 0x1_0000) / 0x400, 0xDC00 + (c - 0x1_0000) % 0x400])
      + Utf16(s[1..])
  }
}
