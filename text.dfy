/**
 * The handful of JavaScript string operations the modelled code relies on:
 * `trim`, `startsWith`, `includes`, `String(n)` for an integer, `parseInt(s, 10)`
 * and `length` (which counts UTF-16 code units).
 */
module Text {
  import opened Wrappers

  /** ECMAScript's StrWhiteSpaceChar: the WhiteSpace and LineTerminator code points. */
  predicate IsJsWhiteSpace(c: char) {
    var n := c as int;
    n == 0x09 || n == 0x0A || n == 0x0B || n == 0x0C || n == 0x0D || n == 0x20 ||
    n == 0xA0 || n == 0x1680 || (0x2000 <= n <= 0x200A) || n == 0x2028 || n == 0x2029 ||
    n == 0x202F || n == 0x205F || n == 0x3000 || n == 0xFEFF
  }

  predicate AllWhiteSpace(s: string) {
    forall k :: 0 <= k < |s| ==> IsJsWhiteSpace(s[k])
  }

  /** Drops leading white space; what is left is a suffix of `s`. */
  function TrimStart(s: string): (r: string)
    ensures |r| <= |s| && r == s[|s| - |r|..]
    ensures AllWhiteSpace(s[..|s| - |r|])
    ensures r != [] ==> !IsJsWhiteSpace(r[0])
  {
    if s != [] && IsJsWhiteSpace(s[0]) then
      var r := TrimStart(s[1..]);
      assert s[1..][..|s| - 1 - |r|] == s[1..|s| - |r|];
      assert forall k :: 1 <= k < |s| - |r| ==> s[k] == s[1..|s| - |r|][k - 1];
      r
    else s
  }

  /** Drops trailing white space; what is left is a prefix of `s`. */
  function TrimEnd(s: string): (r: string)
    ensures |r| <= |s| && r == s[..|r|]
    ensures AllWhiteSpace(s[|r|..])
    ensures r != [] ==> !IsJsWhiteSpace(r[|r| - 1])
  {
    if s != [] && IsJsWhiteSpace(s[|s| - 1]) then TrimEnd(s[..|s| - 1]) else s
  }

  /** `String.prototype.trim`. */
  function Trim(s: string): (r: string)
    ensures r == [] <==> AllWhiteSpace(s)
    ensures r != [] ==> !IsJsWhiteSpace(r[0]) && !IsJsWhiteSpace(r[|r| - 1])
  {
    var t := TrimStart(s);
    var r := TrimEnd(t);
    BlankSplit(s, |s| - |t|, r);
    r
  }

  /** `s` is white space up to `n`, then `r`, then white space again. */
  lemma BlankSplit(s: string, n: nat, r: string)
    requires n <= |s| && AllWhiteSpace(s[..n])
    requires |r| <= |s| - n && r == s[n..n + |r|] && AllWhiteSpace(s[n + |r|..])
    requires r != [] ==> !IsJsWhiteSpace(r[0])
    ensures r == [] <==> AllWhiteSpace(s)
  {
    if r == [] {
      forall k | 0 <= k < |s| ensures IsJsWhiteSpace(s[k]) {
        if k < n {
          assert s[k] == s[..n][k];
        } else {
          assert s[k] == s[n..][k - n];
        }
      }
    } else {
      assert r[0] == s[n];
    }
  }

  lemma {:induction false} TrimIdempotent(s: string)
    ensures Trim(Trim(s)) == Trim(s)
  {
    var r := Trim(s);
    assert TrimStart(r) == r;
    assert TrimEnd(r) == r;
  }

  /** What `trim` leaves of a string that is not all white space is non-empty and trimmed at both ends. */
  lemma TrimmedNonBlank(s: string)
    requires !AllWhiteSpace(s)
    ensures var t := Trim(s);
            t != "" && Trim(t) == t && !IsJsWhiteSpace(t[0]) && !IsJsWhiteSpace(t[|t| - 1])
  {
    TrimIdempotent(s);
  }

  /** `s.startsWith(p)`. */
  predicate StartsWith(s: string, p: string) {
    |p| <= |s| && s[..|p|] == p
  }

  /** `s.includes(sub)`. */
  predicate Includes(s: string, sub: string) {
    exists i | 0 <= i <= |s| - |sub| :: OccursAt(s, sub, i)
  }

  predicate OccursAt(s: string, sub: string, i: int) {
    0 <= i <= |s| - |sub| && s[i..i + |sub|] == sub
  }

  /** `s.length`: characters outside the Basic Multilingual Plane count twice. */
  function Utf16Length(s: string): (n: nat)
    ensures |s| <= n <= 2 * |s|
  {
    if s == [] then 0 else Utf16Length(s[..|s| - 1]) + (if s[|s| - 1] as int > 0xFFFF then 2 else 1)
  }

  predicate IsDigit(c: char) {
    '0' <= c <= '9'
  }

  predicate AllDigits(s: string) {
    forall k :: 0 <= k < |s| ==> IsDigit(s[k])
  }

  function DigitChar(d: nat): (c: char)
    requires d < 10
  {
    ('0' as int + d) as char
  }

  /** The value of a string of decimal digits. */
  function DigitsValue(s: string): nat
    requires AllDigits(s)
  {
    if s == [] then 0 else DigitsValue(s[..|s| - 1]) * 10 + (s[|s| - 1] as int - '0' as int)
  }

  /** The decimal numeral of `n`, without leading zeros. */
  function NatToString(n: nat): (r: string)
    ensures r != [] && AllDigits(r)
    ensures r[0] == '0' ==> r == "0"
    decreases n
  {
    if n < 10 then [DigitChar(n)] else NatToString(n / 10) + [DigitChar(n % 10)]
  }

  /** `String(n)` for an integer-valued Number. */
  function IntToString(n: int): (r: string)
    ensures r != [] && (r[0] == '-' <==> n < 0)
    ensures n >= 0 ==> AllDigits(r)
  {
    if n < 0 then "-" + NatToString(-n) else NatToString(n)
  }

  lemma {:induction false} NatToStringValue(n: nat)
    ensures DigitsValue(NatToString(n)) == n
    decreases n
  {
    if n >= 10 {
      NatToStringValue(n / 10);
      var s := NatToString(n);
      assert s[..|s| - 1] == NatToString(n / 10);
    }
  }

  /** Distinct integers print differently. */
  lemma IntToStringInjective(a: int, b: int)
    requires IntToString(a) == IntToString(b)
    ensures a == b
  {
    if a < 0 && b < 0 {
      NatToStringOfNegative(a);
      NatToStringOfNegative(b);
      NatToStringValue(-a);
      NatToStringValue(-b);
    } else if a >= 0 && b >= 0 {
      NatToStringValue(a);
      NatToStringValue(b);
    } else if a < 0 {
      SignDiffers(a, b);
    } else {
      SignDiffers(b, a);
    }
  }

  lemma NatToStringOfNegative(n: int)
    requires n < 0
    ensures IntToString(n)[1..] == NatToString(-n)
  {
  }

  lemma SignDiffers(a: int, b: int)
    requires a < 0 <= b
    ensures IntToString(a) != IntToString(b)
  {
    var s := NatToString(b);
    assert IsDigit(s[0]);
    assert IntToString(a)[0] == '-';
  }

  /** The longest prefix of `s` made of decimal digits. */
  function DigitPrefix(s: string): (r: string)
    ensures |r| <= |s| && r == s[..|r|] && AllDigits(r)
    ensures |r| < |s| ==> !IsDigit(s[|r|])
  {
    if s != [] && IsDigit(s[0]) then [s[0]] + DigitPrefix(s[1..]) else []
  }

  /**
   * `parseInt(s, 10)`: leading white space, an optional sign, and then the
   * longest run of decimal digits; None stands for NaN (no digit at all).
   */
  function ParseInt10(s: string): (r: Option<int>)
    ensures r.None? <==> !StartsNumeral(TrimStart(s))
    ensures r.Some? && r.value < 0 ==> TrimStart(s)[0] == '-'
  {
    ParseSigned(TrimStart(s))
  }

  /** A digit, or a sign followed by a digit: what `parseInt` needs to give a number. */
  predicate StartsNumeral(t: string) {
    t != [] && (IsDigit(t[0]) || ((t[0] == '-' || t[0] == '+') && |t| > 1 && IsDigit(t[1])))
  }

  /** `parseInt` after the white space: an optional sign, then the digits. */
  function ParseSigned(t: string): (r: Option<int>)
    ensures r.None? <==> !StartsNumeral(t)
    ensures r.Some? && r.value < 0 ==> t[0] == '-'
  {
    var negative := t != [] && t[0] == '-';
    var rest := if t != [] && (t[0] == '-' || t[0] == '+') then t[1..] else t;
    var digits := DigitPrefix(rest);
    var value: int := DigitsValue(digits);
    if digits == [] then None else Some(if negative then -value else value)
  }

  /**
   * Reading back a printed integer gives it back, whatever follows it as long
   * as that does not start with a digit (`parseInt("12abc", 10) == 12`).
   */
  lemma {:induction false} ParseIntOfIntToString(n: int, tail: string)
    requires tail == [] || !IsDigit(tail[0])
    ensures ParseInt10(IntToString(n) + tail) == Some(n)
  {
    if n < 0 {
      var s := IntToString(n) + tail;
      PrintedNegative(n, tail);
      ParsePrintedNegative(-n, tail, s);
    } else {
      assert IntToString(n) == NatToString(n);
      ParsePrintedNatural(n, tail);
    }
  }

  lemma PrintedNegative(n: int, tail: string)
    requires n < 0
    ensures IntToString(n) + tail == "-" + (NatToString(-n) + tail)
  {
  }

  /** The non-negative case: the digits are read back as they are. */
  lemma ParsePrintedNatural(m: nat, tail: string)
    requires tail == [] || !IsDigit(tail[0])
    ensures ParseInt10(NatToString(m) + tail) == Some(m)
  {
    var digits := NatToString(m);
    NatToStringValue(m);
    DigitPrefixOfDigits(digits, tail);
    var rest := digits + tail;
    assert rest[0] == digits[0];
    TrimStartNonBlank(rest);
    ParseSignedUnsigned(rest, digits);
  }

  /** The negative case: a minus sign, then the digits of the magnitude. */
  lemma ParsePrintedNegative(m: nat, tail: string, s: string)
    requires tail == [] || !IsDigit(tail[0])
    requires s == "-" + (NatToString(m) + tail)
    ensures ParseInt10(s) == Some(-(m as int))
  {
    var digits := NatToString(m);
    NatToStringValue(m);
    DigitPrefixOfDigits(digits, tail);
    var rest := digits + tail;
    TrimStartNonBlank("-" + rest);
    ParseSignedNegative(rest, digits);
  }

  lemma TrimStartNonBlank(t: string)
    requires t != [] && (t[0] == '-' || IsDigit(t[0]))
    ensures TrimStart(t) == t
  {
    assert !IsJsWhiteSpace(t[0]);
  }

  lemma ParseSignedNegative(rest: string, digits: string)
    requires digits != [] && AllDigits(digits) && DigitPrefix(rest) == digits
    ensures ParseSigned("-" + rest) == Some(-(DigitsValue(digits) as int))
  {
    assert ("-" + rest)[1..] == rest;
  }

  lemma ParseSignedUnsigned(rest: string, digits: string)
    requires digits != [] && AllDigits(digits) && DigitPrefix(rest) == digits
    ensures ParseSigned(rest) == Some(DigitsValue(digits))
  {
    assert rest[0] == digits[0];
  }

  lemma {:induction false} DigitPrefixOfDigits(digits: string, tail: string)
    requires AllDigits(digits)
    requires tail == [] || !IsDigit(tail[0])
    ensures DigitPrefix(digits + tail) == digits
  {
    if digits != [] {
      assert (digits + tail)[1..] == digits[1..] + tail;
      DigitPrefixOfDigits(digits[1..], tail);
    }
  }
}
