/** web/src/params/isNumeric.ts: the route parameter matcher, the regular
    expression `^[0-9]{1,4}$` matched against the whole value. */
module IsNumeric {

  /** A character class `[lo-hi]`. */
  datatype CharClass = CharRange(lo: char, hi: char)

  predicate InClass(cls: CharClass, c: char) {
    cls.lo <= c <= cls.hi
  }

  /** A quantified class `cls{min,max}`. */
  datatype Repeat = Repeat(cls: CharClass, min: nat, max: nat)

  /** Regular-expression semantics of `^cls{min,max}$`: consume one
      character of the class at a time; at the end of the input the lower
      bound must be met. (A class repetition cannot backtrack usefully, so
      greedy consumption decides the match.) */
  function MatchesAnchored(r: Repeat, s: string): bool
    decreases |s|
  {
    if s == [] then r.min == 0
    else r.max > 0 && InClass(r.cls, s[0]) &&
         MatchesAnchored(Repeat(r.cls, if r.min > 0 then r.min - 1 else 0, r.max - 1), s[1..])
  }

  /** The anchored repetition accepts exactly the strings of allowed length
      made of class characters. */
  lemma {:induction false} MatchesAnchoredIff(r: Repeat, s: string)
    ensures MatchesAnchored(r, s) <==> r.min <= |s| <= r.max && forall i :: 0 <= i < |s| ==> InClass(r.cls, s[i])
    decreases |s|
  {
    if s != [] {
      if r.max > 0 {
        var r' := Repeat(r.cls, if r.min > 0 then r.min - 1 else 0, r.max - 1);
        MatchesAnchoredIff(r', s[1..]);
        assert forall i :: 1 <= i < |s| ==> s[i] == s[1..][i - 1];
      }
    }
  }

  /** `/^[0-9]{1,4}$/`. */
  const NumericParam: Repeat := Repeat(CharRange('0', '9'), 1, 4)

  predicate IsAsciiDigit(c: char) {
    '0' <= c <= '9'
  }

  /** `match(value)`: one to four ASCII digits and nothing else. */
  function Match(value: string): (r: bool)
    ensures r <==> 1 <= |value| <= 4 && forall i :: 0 <= i < |value| ==> IsAsciiDigit(value[i])
  {
    MatchesAnchoredIff(NumericParam, value);
    MatchesAnchored(NumericParam, value)
  }

  /** The edge cases: the empty value, five digits, leading zeros, a sign,
      a decimal point, surrounding space, a trailing newline. */
  lemma Examples()
    ensures !Match("") && !Match("12345")
    ensures Match("0") && Match("0007") && Match("9999")
    ensures !Match("-1") && !Match("+1") && !Match("1.5") && !Match(" 12") && !Match("12\n")
  {
    assert !IsAsciiDigit("-1"[0]) && !IsAsciiDigit("+1"[0]) && !IsAsciiDigit("1.5"[1]);
    assert !IsAsciiDigit(" 12"[0]) && !IsAsciiDigit("12\n"[2]);
  }
}
