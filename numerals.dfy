/** Decimal numerals: the part of Python's int() on a string that the
    photo upload relies on to read its slot number, and the inverse
    rendering used to state that reading is faithful. */
module Numerals {
  import opened Base

  predicate IsDigit(c: char) {
    '0' <= c <= '9'
  }

  predicate AllDigits(s: string) {
    forall i :: 0 <= i < |s| ==> IsDigit(s[i])
  }

  function DigitValue(c: char): (d: nat)
    requires IsDigit(c)
    ensures d < 10
  {
    c as int - '0' as int
  }

  function DigitChar(d: nat): (c: char)
    requires d < 10
    ensures IsDigit(c) && DigitValue(c) == d
  {
    ('0' as int + d) as char
  }

  /** The value of a run of decimal digits, most significant first
      (leading zeros allowed, as int() allows them). */
  function DigitsValue(s: string): nat
    requires AllDigits(s)
  {
    if s == [] then 0 else 10 * DigitsValue(s[..|s| - 1]) + DigitValue(s[|s| - 1])
  }

  /** The most digits int() and str() convert between text and integer:
      Python's default `sys.int_info.default_max_str_digits`. */
  const MaxStrDigits: nat := 4300

  /** int(s) for a string: an optional sign followed by at least one and at
      most MaxStrDigits digits; anything else raises ValueError, modelled as
      None. */
  function ParseInt(s: string): (r: Option<int>)
    ensures r.Some? <==>
      || (0 < |s| <= MaxStrDigits && AllDigits(s))
      || (1 < |s| <= MaxStrDigits + 1 && (s[0] == '+' || s[0] == '-') && AllDigits(s[1..]))
    ensures r.Some? && AllDigits(s) ==> r.value == DigitsValue(s)
    ensures r.Some? && s[0] == '+' ==> AllDigits(s[1..]) && r.value == DigitsValue(s[1..])
    ensures r.Some? && s[0] == '-' ==> AllDigits(s[1..]) && r.value == -(DigitsValue(s[1..]) as int)
  {
    if |s| > 0 && (s[0] == '+' || s[0] == '-') then
      var digits := s[1..];
      if 0 < |digits| <= MaxStrDigits && AllDigits(digits) then
        var v: int := DigitsValue(digits);
        Some(if s[0] == '-' then -v else v)
      else None
    else if 0 < |s| <= MaxStrDigits && AllDigits(s) then Some(DigitsValue(s))
    else None
  }

  /** The shortest decimal rendering of n, as str(n) gives it. */
  function ShowNat(n: nat): (s: string)
    ensures |s| > 0 && AllDigits(s)
  {
    if n < 10 then [DigitChar(n)] else ShowNat(n / 10) + [DigitChar(n % 10)]
  }

  function ShowInt(n: int): (s: string)
    ensures |s| > 0
  {
    if n < 0 then "-" + ShowNat(-n) else ShowNat(n)
  }

  lemma {:induction false} DigitsValueOfShowNat(n: nat)
    ensures DigitsValue(ShowNat(n)) == n
  {
    if n >= 10 {
      var s := ShowNat(n);
      assert s[..|s| - 1] == ShowNat(n / 10);
      DigitsValueOfShowNat(n / 10);
    }
  }

  /** Reading back what str() wrote gives the same integer; str() itself
      refuses integers of more than MaxStrDigits digits. */
  lemma ParseShowInt(n: int)
    requires |ShowNat(if n < 0 then -n else n)| <= MaxStrDigits
    ensures ParseInt(ShowInt(n)) == Some(n)
  {
    if n < 0 {
      assert ShowInt(n)[1..] == ShowNat(-n);
      DigitsValueOfShowNat(-n);
    } else {
      DigitsValueOfShowNat(n);
    }
  }
}
