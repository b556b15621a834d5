/**
 * The few JavaScript built-ins that the chat server's logic relies on, stated on
 * Dafny values: `parseInt` with no radix, `Number.prototype.toString` on
 * non-negative integers, `Array.prototype.slice` with one argument,
 * `Array.prototype.reverse` on a fresh copy and `Array.prototype.join`.
 * Numbers are unbounded integers here; `NaN` is `None`.
 */
module JsRuntime {
  import opened Wrappers

  // ---------------------------------------------------------------- digits

  /** Value of `c` as a hexadecimal digit, or -1 when it is none. */
  function DigitValue(c: char): (v: int)
    ensures -1 <= v < 16
  {
    if '0' <= c <= '9' then c as int - '0' as int
    else if 'a' <= c <= 'f' then c as int - 'a' as int + 10
    else if 'A' <= c <= 'F' then c as int - 'A' as int + 10
    else -1
  }

  predicate IsRadixDigit(c: char, radix: nat) {
    0 <= DigitValue(c) < radix
  }

  predicate IsRadixDigits(s: string, radix: nat) {
    forall i :: 0 <= i < |s| ==> IsRadixDigit(s[i], radix)
  }

  /** Decimal digits, the characters of the regular expression class `\d`. */
  predicate IsDecimalDigits(s: string) {
    IsRadixDigits(s, 10)
  }

  /** The number the digits `z` denote in base `radix`, most significant first. */
  function RadixValue(z: string, radix: nat): nat
    requires IsRadixDigits(z, radix)
  {
    if |z| == 0 then 0
    else RadixValue(z[..|z| - 1], radix) * radix + DigitValue(z[|z| - 1])
  }

  /** The longest prefix of `s` made of digits of base `radix`. */
  function DigitPrefix(s: string, radix: nat): (z: string)
    ensures |z| <= |s| && z == s[..|z|]
    ensures IsRadixDigits(z, radix)
    ensures |z| < |s| ==> !IsRadixDigit(s[|z|], radix)
  {
    if |s| == 0 || !IsRadixDigit(s[0], radix) then ""
    else [s[0]] + DigitPrefix(s[1..], radix)
  }

  // ---------------------------------------------------------------- parseInt

  /** StrWhiteSpaceChar of ECMAScript: white space and line terminators. */
  predicate IsJsSpace(c: char) {
    c == '\t' || c == '\n' || c == '\r' || c == ' '
    || c as int == 0x0B || c as int == 0x0C || c as int == 0xA0 || c as int == 0xFEFF
    || c as int == 0x1680 || 0x2000 <= c as int <= 0x200A || c as int == 0x2028
    || c as int == 0x2029 || c as int == 0x202F || c as int == 0x205F || c as int == 0x3000
  }

  function SkipJsSpace(s: string): (r: string)
    ensures |r| <= |s| && r == s[|s| - |r|..]
    ensures |r| > 0 ==> !IsJsSpace(r[0])
    ensures forall i :: 0 <= i < |s| - |r| ==> IsJsSpace(s[i])
  {
    if |s| > 0 && IsJsSpace(s[0]) then
      var r := SkipJsSpace(s[1..]);
      assert forall i :: 1 <= i < |s| - |r| ==> s[i] == s[1..][i - 1];
      r
    else s
  }

  /** The text after one leading `+` or `-`, if there is one. */
  function StripSign(t: string): (u: string)
    ensures |u| <= |t| && u == t[|t| - |u|..]
  {
    if |t| > 0 && (t[0] == '-' || t[0] == '+') then t[1..] else t
  }

  /**
   * The unsigned part of `parseInt`: a `0x`/`0X` prefix selects base 16,
   * otherwise base 10, and the longest run of digits that follows gives the
   * value; no digit at all gives `NaN` (`None`).
   */
  function ParseUnsigned(u: string): Option<nat> {
    if |u| >= 2 && u[0] == '0' && (u[1] == 'x' || u[1] == 'X') then
      var z := DigitPrefix(u[2..], 16);
      if |z| == 0 then None else Some(RadixValue(z, 16))
    else
      var z := DigitPrefix(u, 10);
      if |z| == 0 then None else Some(RadixValue(z, 10))
  }

  /**
   * `parseInt(s)` without a radix: leading white space is skipped and one sign
   * is taken before the unsigned part. Negative zero is not distinguished
   * from zero.
   */
  function ParseInt(s: string): Option<int> {
    ParseSigned(SkipJsSpace(s))
  }

  /** An optional sign, then the unsigned part; a `-` negates it. */
  function ParseSigned(t: string): Option<int> {
    match ParseUnsigned(StripSign(t))
    case None => None
    case Some(v) => if |t| > 0 && t[0] == '-' then Some(-(v as int)) else Some(v as int)
  }

  /** Leading white space is skipped: it does not change what `parseInt` reads. */
  lemma {:induction false} SkipJsSpaceOfSpaces(w: string, s: string)
    requires forall i :: 0 <= i < |w| ==> IsJsSpace(w[i])
    ensures SkipJsSpace(w + s) == SkipJsSpace(s)
  {
    if |w| > 0 {
      assert (w + s)[0] == w[0];
      assert (w + s)[1..] == w[1..] + s;
      SkipJsSpaceOfSpaces(w[1..], s);
    } else {
      assert w + s == s;
    }
  }

  /** Leading white space does not change what `parseInt` gives. */
  lemma ParseIntIgnoresLeadingSpace(w: string, s: string)
    requires forall i :: 0 <= i < |w| ==> IsJsSpace(w[i])
    ensures ParseInt(w + s) == ParseInt(s)
  {
    SkipJsSpaceOfSpaces(w, s);
  }

  /** A leading `+` is taken as the sign and changes nothing. */
  lemma ParseIntOfPlus(u: string, v: nat)
    requires ParseUnsigned(u) == Some(v)
    ensures ParseInt("+" + u) == Some(v as int)
  {
    var s := "+" + u;
    assert !IsJsSpace(s[0]);
    assert SkipJsSpace(s) == s;
    assert StripSign(s) == u;
  }

  /** Text that does not begin with a decimal digit has no unsigned part. */
  lemma ParseUnsignedOfNonDigit(u: string)
    requires |u| == 0 || !('0' <= u[0] <= '9')
    ensures ParseUnsigned(u) == None
  {
    assert DigitPrefix(u, 10) == "";
  }

  /** Without a digit after the white space and the sign, `parseInt` gives `NaN`. */
  lemma ParseIntOfNonNumeric(s: string)
    requires var u := StripSign(SkipJsSpace(s)); |u| == 0 || !('0' <= u[0] <= '9')
    ensures ParseInt(s) == None
  {
    ParseUnsignedOfNonDigit(StripSign(SkipJsSpace(s)));
  }

  /** The digit prefix of digits followed by a non-digit is those digits. */
  lemma {:induction false} DigitPrefixOfDigitsThen(d: string, rest: string, radix: nat)
    requires IsRadixDigits(d, radix)
    requires |rest| > 0 ==> !IsRadixDigit(rest[0], radix)
    ensures DigitPrefix(d + rest, radix) == d
  {
    if |d| > 0 {
      var u := d + rest;
      assert u[0] == d[0] && u[1..] == d[1..] + rest;
      DigitPrefixOfDigitsThen(d[1..], rest, radix);
    }
  }

  /** Decimal digits followed by text that does not go on with a digit. */
  lemma ParseUnsignedOfDigitsThen(d: string, rest: string)
    requires |d| > 0 && IsDecimalDigits(d)
    requires |rest| > 0 ==> !('0' <= rest[0] <= '9')
    requires d == "0" && |rest| > 0 ==> rest[0] != 'x' && rest[0] != 'X'
    ensures IsRadixDigits(d, 10)
    ensures ParseUnsigned(d + rest) == Some(RadixValue(d, 10))
  {
    var u := d + rest;
    var hex := |u| >= 2 && u[0] == '0' && (u[1] == 'x' || u[1] == 'X');
    assert !hex by {
      if |u| >= 2 {
        assert u[0] == d[0];
        if |d| >= 2 { assert u[1] == d[1]; } else { assert u[1] == rest[0]; }
      }
    }
    DigitPrefixOfDigitsThen(d, rest, 10);
  }

  lemma ParseUnsignedOfDigits(d: string)
    requires |d| > 0 && IsDecimalDigits(d)
    ensures IsRadixDigits(d, 10)
    ensures ParseUnsigned(d) == Some(RadixValue(d, 10))
  {
    assert d + "" == d;
    ParseUnsignedOfDigitsThen(d, "");
  }

  /** Text that begins with a digit has no white space or sign to skip. */
  lemma ParseIntOfUnsigned(u: string)
    requires |u| > 0 && '0' <= u[0] <= '9'
    ensures ParseInt(u) == ParseUnsigned(u)
  {
    assert !IsJsSpace(u[0]);
    assert SkipJsSpace(u) == u;
    assert StripSign(u) == u;
  }

  /** A run of decimal digits, such as a `(\d+)` capture, parses to its decimal value. */
  lemma ParseIntOfDigits(d: string)
    requires |d| > 0 && IsDecimalDigits(d)
    ensures IsRadixDigits(d, 10)
    ensures ParseInt(d) == Some(RadixValue(d, 10))
  {
    ParseIntOfUnsigned(d);
    ParseUnsignedOfDigits(d);
  }

  /** A leading minus sign negates what the unsigned part gives. */
  lemma ParseIntOfMinus(s: string, v: nat)
    requires |s| > 0 && s[0] == '-'
    requires ParseUnsigned(s[1..]) == Some(v)
    ensures ParseInt(s) == Some(-(v as int))
  {
    assert !IsJsSpace(s[0]);
    assert SkipJsSpace(s) == s;
    assert StripSign(s) == s[1..];
  }

  /** Digits followed by anything that is not a digit: the trailing text is ignored. */
  lemma ParseIntIgnoresTrailingText(d: string, rest: string)
    requires |d| > 0 && IsDecimalDigits(d)
    requires |rest| > 0 ==> !('0' <= rest[0] <= '9')
    requires d == "0" && |rest| > 0 ==> rest[0] != 'x' && rest[0] != 'X'
    ensures IsRadixDigits(d, 10)
    ensures ParseInt(d + rest) == Some(RadixValue(d, 10))
  {
    assert (d + rest)[0] == d[0];
    ParseIntOfUnsigned(d + rest);
    ParseUnsignedOfDigitsThen(d, rest);
  }

  lemma ParseUnsignedOfHex(h: string)
    requires |h| > 0 && IsRadixDigits(h, 16)
    ensures ParseUnsigned("0x" + h) == Some(RadixValue(h, 16))
  {
    var s := "0x" + h;
    assert s[0] == '0' && s[1] == 'x' && s[2..] == h;
    assert h + "" == h;
    DigitPrefixOfDigitsThen(h, "", 16);
  }

  /** A `0x` prefix switches to base 16. */
  lemma ParseIntOfHex(h: string)
    requires |h| > 0 && IsRadixDigits(h, 16)
    ensures ParseInt("0x" + h) == Some(RadixValue(h, 16))
  {
    var s := "0x" + h;
    assert s[0] == '0';
    ParseIntOfUnsigned(s);
    ParseUnsignedOfHex(h);
  }

  // ---------------------------------------------------------------- Number.toString

  function DigitChar(d: nat): (c: char)
    requires d < 10
    ensures '0' <= c <= '9' && DigitValue(c) == d
  {
    (d + '0' as int) as char
  }

  /** Decimal rendering of a non-negative integer, as `n.toString()` gives it. */
  function NumberToString(n: nat): (s: string)
    ensures |s| > 0 && IsDecimalDigits(s)
    ensures s[0] == '0' ==> n == 0 && s == "0"
    decreases n
  {
    if n < 10 then [DigitChar(n)] else NumberToString(n / 10) + [DigitChar(n % 10)]
  }

  /** Rendering then reading back in base 10 gives the number again. */
  lemma {:induction false} NumberToStringRoundTrip(n: nat)
    ensures IsRadixDigits(NumberToString(n), 10)
    ensures RadixValue(NumberToString(n), 10) == n
    decreases n
  {
    var s := NumberToString(n);
    if n >= 10 {
      assert s[..|s| - 1] == NumberToString(n / 10);
      NumberToStringRoundTrip(n / 10);
    }
  }

  /** `parseInt(n.toString())` is `n`. */
  lemma ParseIntOfNumberToString(n: nat)
    ensures ParseUnsigned(NumberToString(n)) == Some(n)
    ensures ParseInt(NumberToString(n)) == Some(n)
  {
    ParseIntOfDigits(NumberToString(n));
    ParseUnsignedOfDigits(NumberToString(n));
    NumberToStringRoundTrip(n);
  }

  /** `parseInt('-' + n.toString())` is `-n`. */
  lemma ParseIntOfNegativeNumber(n: nat)
    ensures ParseInt("-" + NumberToString(n)) == Some(-(n as int))
  {
    var d := NumberToString(n);
    var s := "-" + d;
    assert s[0] == '-' && s[1..] == d;
    ParseIntOfNumberToString(n);
    ParseIntOfMinus(s, n);
  }

  // ---------------------------------------------------------------- arrays

  /**
   * The index at which `a.slice(start)` begins on an array of length `len`:
   * a negative start counts back from the end and is clamped at 0, a start
   * beyond the end is clamped at `len`.
   */
  function SliceStart(len: nat, start: int): (k: nat)
    ensures k <= len
  {
    if start < 0 then (if len + start < 0 then 0 else len + start)
    else if start < len then start
    else len
  }

  /**
   * `a.slice(start)`: a suffix of `a`. A negative start keeps the last
   * `-start` elements, or all of them; a start of 0 or more drops the first
   * `start` elements, or all of them.
   */
  function Slice<T>(a: seq<T>, start: int): (r: seq<T>)
    ensures |r| <= |a| && r == a[|a| - |r|..]
    ensures start < 0 ==> |r| == if -start < |a| then -start else |a|
    ensures start >= 0 ==> |r| == if start < |a| then |a| - start else 0
  {
    a[SliceStart(|a|, start)..]
  }

  /** The elements of `s` in the opposite order, as `reverse()` leaves a copy. */
  function Reverse<T>(s: seq<T>): (r: seq<T>)
    ensures |r| == |s|
    ensures forall i :: 0 <= i < |s| ==> r[i] == s[|s| - 1 - i]
  {
    if |s| == 0 then [] else Reverse(s[1..]) + [s[0]]
  }

  /** `xs.join(sep)`: the strings of `xs` with `sep` between neighbours. */
  function Join(xs: seq<string>, sep: string): (r: string)
    ensures |xs| == 0 ==> r == ""
    ensures |xs| > 0 ==> |xs[0]| <= |r| && r[..|xs[0]|] == xs[0]
    ensures |xs| > 0 ==> |xs[|xs| - 1]| <= |r| && r[|r| - |xs[|xs| - 1]|..] == xs[|xs| - 1]
  {
    if |xs| == 0 then ""
    else if |xs| == 1 then xs[0]
    else xs[0] + sep + Join(xs[1..], sep)
  }
}
