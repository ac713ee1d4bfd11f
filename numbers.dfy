/**
 * The number syntax that Rust's `str::parse` accepts for the two numeric option types:
 * `i32` (a `Number` option) and `f32` (a `Float` option).
 */
module Numbers {
  import opened Wrappers
  import Strings

  /** Rust's 32-bit signed integer. */
  newtype i32 = x: int | -0x8000_0000 <= x < 0x8000_0000

  predicate IsDigit(c: char)
  {
    '0' <= c <= '9'
  }

  predicate AllDigits(s: string)
  {
    forall i :: 0 <= i < |s| ==> IsDigit(s[i])
  }

  /** The number written by decimal digits `s` (the empty string counts as 0). */
  function DigitsValue(s: string): nat
    requires AllDigits(s)
    decreases |s|
  {
    if s == [] then 0 else 10 * DigitsValue(s[..|s| - 1]) + (s[|s| - 1] as int - '0' as int)
  }

  /**
   * `i32::from_str`: an optional `+` or `-`, then one or more decimal digits, denoting a value
   * in the `i32` range. A lone sign, any other character, and a value out of range all fail.
   */
  function ParseI32(s: string): (r: Option<i32>)
    ensures r.Some? ==> s != [] && AllDigits(Unsigned(s)) && Unsigned(s) != []
    ensures r.Some? ==> r.value as int == (if s[0] == '-' then -1 else 1) * DigitsValue(Unsigned(s))
    ensures (s != [] && AllDigits(Unsigned(s)) && Unsigned(s) != [] &&
             -0x8000_0000 <= (if s[0] == '-' then -1 else 1) * DigitsValue(Unsigned(s)) < 0x8000_0000) ==> r.Some?
  {
    if s == [] || ((s[0] == '+' || s[0] == '-') && |s| == 1) then None
    else
      var digits := Unsigned(s);
      if !AllDigits(digits) then None
      else
        var v: int := if s[0] == '-' then -(DigitsValue(digits) as int) else DigitsValue(digits);
        if -0x8000_0000 <= v < 0x8000_0000 then Some(v as i32) else None
  }

  /** `s` without its leading sign character, if it has one. */
  function Unsigned(s: string): (d: string)
    ensures |d| <= |s|
  {
    if s != [] && (s[0] == '+' || s[0] == '-') then s[1..] else s
  }

  function DigitChar(d: nat): (c: char)
    requires d < 10
    ensures IsDigit(c) && c as int - '0' as int == d
  {
    ('0' as int + d) as char
  }

  /** The decimal digits of `n`, without leading zeros. */
  function NatDigits(n: nat): string
    decreases n
  {
    if n < 10 then [DigitChar(n)] else NatDigits(n / 10) + [DigitChar(n % 10)]
  }

  /** How Rust displays an integer (`to_string`): a `-` for negatives, then the digits. */
  function Decimal(n: int): string
  {
    if n < 0 then "-" + NatDigits(-n) else NatDigits(n)
  }

  lemma {:induction false} NatDigitsValue(n: nat)
    ensures |NatDigits(n)| >= 1 && AllDigits(NatDigits(n))
    ensures DigitsValue(NatDigits(n)) == n
    decreases n
  {
    if n >= 10 {
      NatDigitsValue(n / 10);
      var s := NatDigits(n);
      assert s[..|s| - 1] == NatDigits(n / 10);
    }
  }

  /** Every `i32`, displayed in decimal, parses back to itself. */
  lemma ParseDecimal(n: i32)
    ensures ParseI32(Decimal(n as int)) == Some(n)
  {
    if n < 0 {
      NatDigitsValue(-(n as int));
      assert Unsigned(Decimal(n as int)) == NatDigits(-(n as int));
    } else {
      NatDigitsValue(n as int);
      assert IsDigit(Decimal(n as int)[0]);
    }
  }

  /** ASCII lower-casing of one character. */
  function LowerAscii(c: char): char
  {
    if 'A' <= c <= 'Z' then (c as int + 32) as char else c
  }

  function LowerAsciiString(s: string): (r: string)
    ensures |r| == |s| && forall i :: 0 <= i < |s| ==> r[i] == LowerAscii(s[i])
  {
    seq(|s|, i requires 0 <= i < |s| => LowerAscii(s[i]))
  }

  /**
   * The literals `f32::from_str` accepts, matched case-insensitively: an optional sign, then
   * `inf`, `infinity`, `nan`, or a decimal number (digits with at most one `.` and at least one
   * digit) with an optional exponent (`e`, an optional sign, one or more digits).
   */
  predicate IsF32Literal(s: string)
  {
    var body := Unsigned(LowerAsciiString(s));
    body == "inf" || body == "infinity" || body == "nan" || IsDecimalNumber(body)
  }

  predicate IsDecimalNumber(b: string)
  {
    var e := Strings.IndexOf(b, 'e');
    IsMantissa(b[..e]) && (e == |b| || IsExponent(b[e + 1..]))
  }

  predicate IsMantissa(m: string)
  {
    var d := Strings.IndexOf(m, '.');
    if d == |m| then m != [] && AllDigits(m)
    else AllDigits(m[..d]) && AllDigits(m[d + 1..]) && |m| >= 2
  }

  predicate IsExponent(x: string)
  {
    var digits := Unsigned(x);
    digits != [] && AllDigits(digits)
  }

  /** Every string that parses as an `i32` is also a valid `f32` literal. */
  lemma IntegerIsF32Literal(s: string)
    requires ParseI32(s).Some?
    ensures IsF32Literal(s)
  {
    var low := LowerAsciiString(s);
    assert low == s;
    var body := Unsigned(low);
    assert AllDigits(body) && body != [];
    assert forall j :: 0 <= j < |body| ==> body[j] != 'e' && body[j] != '.';
    assert Strings.IndexOf(body, 'e') == |body|;
    assert body[..|body|] == body;
    assert Strings.IndexOf(body, '.') == |body|;
  }
}
