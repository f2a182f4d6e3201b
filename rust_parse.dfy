/** The parts of Rust's standard library the row conversions depend on:
    `str::parse::<bool>`, `str::parse::<i32>` and the truncating `as i32`
    cast, with decimal formatting as the partner of parsing. */
module RustParse {
  import opened Wrappers

  const MinI32: int := -0x8000_0000
  const MaxI32: int := 0x7fff_ffff

  predicate InI32(n: int) {
    MinI32 <= n <= MaxI32
  }

  /** `bool::from_str`: exactly "true" and "false" parse. */
  function ParseBool(s: string): (r: Option<bool>)
    ensures r == Some(true) <==> s == "true"
    ensures r == Some(false) <==> s == "false"
    ensures r.Some? <==> s == "true" || s == "false"
  {
    if s == "true" then Some(true) else if s == "false" then Some(false) else None
  }

  predicate IsDigit(c: char) {
    '0' <= c <= '9'
  }

  predicate AllDigits(s: string) {
    forall i :: 0 <= i < |s| ==> IsDigit(s[i])
  }

  function DigitValue(c: char): nat
    requires IsDigit(c)
  {
    c as int - '0' as int
  }

  /** The value of a string of decimal digits, most significant first. */
  function DigitsValue(s: string): nat
    requires AllDigits(s)
  {
    if s == [] then 0 else DigitsValue(s[..|s| - 1]) * 10 + DigitValue(s[|s| - 1])
  }

  /** `i32::from_str` (radix 10): an optional `+` or `-`, then at least one
      digit and nothing else; leading zeros are fine; a value outside the
      32-bit range is an error. */
  function ParseI32(s: string): (r: Option<int>)
    ensures r.Some? ==> InI32(r.value)
    ensures s == [] || s == "+" || s == "-" ==> r.None?
    ensures r.Some? ==> |s| > 0 && (IsDigit(s[0]) || s[0] == '+' || s[0] == '-') && AllDigits(s[1..])
  {
    if s == [] then None
    else
      var negative := s[0] == '-';
      var digits := if s[0] == '-' || s[0] == '+' then s[1..] else s;
      if digits == [] || !AllDigits(digits) then None
      else
        var magnitude: int := DigitsValue(digits);
        var v := if negative then 0 - magnitude else magnitude;
        if InI32(v) then Some(v) else None
  }

  function DigitChar(d: nat): (c: char)
    requires d < 10
    ensures IsDigit(c) && DigitValue(c) == d
  {
    ('0' as int + d) as char
  }

  /** The decimal digits of a natural number, without leading zeros. */
  function FormatNat(n: nat): (s: string)
    ensures |s| > 0 && AllDigits(s)
    decreases n
  {
    if n < 10 then [DigitChar(n)] else FormatNat(n / 10) + [DigitChar(n % 10)]
  }

  /** `i32::to_string`. */
  function FormatI32(n: int): (s: string)
    requires InI32(n)
  {
    if n < 0 then "-" + FormatNat(-n) else FormatNat(n)
  }

  lemma {:induction false} DigitsValueFormatNat(n: nat)
    ensures DigitsValue(FormatNat(n)) == n
    decreases n
  {
    var s := FormatNat(n);
    if n >= 10 {
      DigitsValueFormatNat(n / 10);
      assert s[..|s| - 1] == FormatNat(n / 10);
    }
  }

  /** Parsing what was formatted gives the number back. */
  lemma ParseFormatI32(n: int)
    requires InI32(n)
    ensures ParseI32(FormatI32(n)) == Some(n)
  {
    if n < 0 {
      DigitsValueFormatNat(-n);
      assert FormatI32(n)[1..] == FormatNat(-n);
    } else {
      DigitsValueFormatNat(n);
    }
  }

  /** Distinct numbers format differently. */
  lemma FormatI32Injective(m: int, n: int)
    requires InI32(m) && InI32(n) && FormatI32(m) == FormatI32(n)
    ensures m == n
  {
    ParseFormatI32(m);
    ParseFormatI32(n);
  }

  /** `x as i32` for an integer `x`: keep the low 32 bits and read them as
      two's complement. */
  function Wrap32(x: int): (r: int)
    ensures InI32(r)
    ensures (x - r) % 0x1_0000_0000 == 0
    ensures InI32(x) ==> r == x
  {
    var low := x % 0x1_0000_0000;
    if low <= MaxI32 then low else low - 0x1_0000_0000
  }

  /** The cast is determined by the residue modulo 2^32. */
  lemma Wrap32Periodic(x: int, k: int)
    ensures Wrap32(x + k * 0x1_0000_0000) == Wrap32(x)
  {
    assert (x + k * 0x1_0000_0000) % 0x1_0000_0000 == x % 0x1_0000_0000;
  }
}
