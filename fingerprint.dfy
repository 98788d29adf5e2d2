/**
 * Device fingerprint of the student page: the browser's attributes joined
 * with '|', folded code unit by code unit into a signed 32-bit hash, and
 * rendered in decimal.
 */
module Fingerprint {
  import opened JsText

  const TWO_31: int := 0x8000_0000
  const TWO_32: int := 0x1_0000_0000

  /** ToInt32: the signed 32-bit integer congruent to `x` modulo 2^32. */
  function Wrap32(x: int): (r: int)
    ensures -TWO_31 <= r < TWO_31
    ensures -TWO_31 <= x < TWO_31 ==> r == x
  {
    (x + TWO_31) % TWO_32 - TWO_31
  }

  /** Wrapping only subtracts a multiple of 2^32. */
  lemma Wrap32Offset(x: int)
    ensures Wrap32(x) == x - ((x + TWO_31) / TWO_32) * TWO_32
  {
  }

  /** Numbers that differ by a multiple of 2^32 wrap to the same value. */
  lemma Wrap32Congruent(x: int, y: int, k: int)
    requires x == y + k * TWO_32
    ensures Wrap32(x) == Wrap32(y)
  {
    var q, r := (y + TWO_31) / TWO_32, (y + TWO_31) % TWO_32;
    assert x + TWO_31 == (q + k) * TWO_32 + r;
    ModUnique(x + TWO_31, q + k, TWO_32, r);
  }

  /** `h << 5` on a number: ToInt32, then a 5-bit shift that drops the bits above 32. */
  function ShiftLeft5(h: int): int {
    Wrap32(Wrap32(h) * 32)
  }

  /**
   * The recurrence the fingerprint implements: h := wrap32(31 * h + c),
   * starting from 0.
   */
  function FoldHash(units: seq<CodeUnit>): (h: int)
    ensures -TWO_31 <= h < TWO_31
    ensures units == [] ==> h == 0
  {
    if units == [] then 0
    else Wrap32(31 * FoldHash(units[..|units| - 1]) + units[|units| - 1])
  }

  /** The same hash without any wrapping: the polynomial sum of c_i * 31^(n-1-i). */
  function Polynomial(units: seq<CodeUnit>): int {
    if units == [] then 0
    else 31 * Polynomial(units[..|units| - 1]) + units[|units| - 1]
  }

  /** Wrapping after every step is the same as wrapping once at the end. */
  lemma {:induction false} FoldHashIsWrappedPolynomial(units: seq<CodeUnit>)
    ensures FoldHash(units) == Wrap32(Polynomial(units))
  {
    if units != [] {
      var init, c := units[..|units| - 1], units[|units| - 1];
      FoldHashIsWrappedPolynomial(init);
      var p := Polynomial(init);
      Wrap32Offset(p);
      var k := (p + TWO_31) / TWO_32;
      assert 31 * FoldHash(init) + c == 31 * p + c + (-31 * k) * TWO_32;
      Wrap32Congruent(31 * FoldHash(init) + c, 31 * p + c, -31 * k);
    }
  }

  /** `((h << 5) - h) + c` followed by `h & h` is one step of the recurrence. */
  lemma ShiftStepIsFoldStep(h: int, c: CodeUnit)
    requires -TWO_31 <= h < TWO_31
    ensures Wrap32(ShiftLeft5(h) - h + c) == Wrap32(31 * h + c)
  {
    Wrap32Offset(h * 32);
    var k := (h * 32 + TWO_31) / TWO_32;
    assert ShiftLeft5(h) - h + c == 31 * h + c + (-k) * TWO_32;
    Wrap32Congruent(ShiftLeft5(h) - h + c, 31 * h + c, -k);
  }

  /** Two inputs that differ only in their last code unit never collide. */
  lemma {:induction false} LastUnitChangesHash(prefix: seq<CodeUnit>, a: CodeUnit, b: CodeUnit)
    requires a != b
    ensures FoldHash(prefix + [a]) != FoldHash(prefix + [b])
  {
    assert (prefix + [a])[..|prefix|] == prefix;
    assert (prefix + [b])[..|prefix|] == prefix;
    var h := FoldHash(prefix);
    Wrap32Offset(31 * h + a);
    Wrap32Offset(31 * h + b);
  }

  /** The environment attributes the fingerprint reads from `navigator` and `screen`. */
  datatype DeviceAttributes = DeviceAttributes(
    userAgent: string,
    language: string,
    screenWidth: int,
    screenHeight: int,
    timezoneOffset: int,
    hardwareConcurrency: Option<int>)

  /** `[...].join('|')`: numbers in decimal, an undefined entry as the empty string. */
  function AttributeText(a: DeviceAttributes): string {
    Join([a.userAgent, a.language, IntToString(a.screenWidth), IntToString(a.screenHeight),
          IntToString(a.timezoneOffset),
          match a.hardwareConcurrency case None => "" case Some(n) => IntToString(n)], '|')
  }

  /** The fingerprint of a text, as the specification of `GetDeviceFingerprint`. */
  function FingerprintOf(text: string): (fp: string)
    ensures exists h :: -TWO_31 <= h < TWO_31 && fp == IntToString(h)
    ensures text == "" ==> fp == "0"
  {
    IntToString(FoldHash(Utf16(text)))
  }

  /** The fingerprint text is the decimal rendering of a signed 32-bit value. */
  lemma FingerprintIsInt32(text: string)
    ensures exists h :: (-TWO_31 <= h < TWO_31 && FingerprintOf(text) == IntToString(h)
                         && ParseInt(FingerprintOf(text)) == Int(h))
  {
    var h := FoldHash(Utf16(text));
    ParseIntOfIntToString(h);
  }

  /** `getDeviceFingerprint()`: the loop of the student page, over UTF-16 code units. */
  method GetDeviceFingerprint(a: DeviceAttributes) returns (fp: string)
    ensures fp == FingerprintOf(AttributeText(a))
    ensures ParseInt(fp) == Int(Wrap32(Polynomial(Utf16(AttributeText(a)))))
  {
    var units := Utf16(AttributeText(a));
    var hash := 0;
    var i := 0;
    while i < |units|
      invariant 0 <= i <= |units|
      invariant hash == FoldHash(units[..i])
    {
      var c := units[i];
      ShiftStepIsFoldStep(hash, c);
      assert units[..i + 1][..i] == units[..i];
      hash := ShiftLeft5(hash) - hash + c;
      hash := Wrap32(hash);
      i := i + 1;
    }
    assert units[..i] == units;
    FoldHashIsWrappedPolynomial(units);
    ParseIntOfIntToString(hash);
    fp := IntToString(hash);
  }
}
