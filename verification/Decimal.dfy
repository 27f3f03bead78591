/** Timestamps stored as text: Rust's `u64::to_string` and `str::parse::<u64>`. */
module Decimal {
  import opened Prelude

  predicate IsDigit(c: char) {
    '0' <= c <= '9'
  }

  predicate AllDigits(s: string) {
    forall i :: 0 <= i < |s| ==> IsDigit(s[i])
  }

  function Value(s: string): nat
    requires AllDigits(s)
  {
    if s == [] then 0 else Value(s[..|s| - 1]) * 10 + (s[|s| - 1] as int - '0' as int)
  }

  function ToDecimal(n: nat): string {
    var digit := [('0' as int + n % 10) as char];
    if n < 10 then digit else ToDecimal(n / 10) + digit
  }

  /** One leading plus sign is allowed; the empty string, other characters and overflow are errors. */
  function ParseU64(s: string): Option<nat> {
    var t := if s != [] && s[0] == '+' then s[1..] else s;
    if t != [] && AllDigits(t) && Value(t) < WORD then Some(Value(t)) else None
  }

  lemma {:induction false} DecimalDigits(n: nat)
    ensures ToDecimal(n) != [] && AllDigits(ToDecimal(n)) && Value(ToDecimal(n)) == n
  {
    var s := ToDecimal(n);
    if n >= 10 {
      DecimalDigits(n / 10);
      assert s[..|s| - 1] == ToDecimal(n / 10);
    }
    assert s[|s| - 1] == ('0' as int + n % 10) as char;
  }

  /** Reading back what was written: numbers that fit come back, larger ones do not, with or without a plus sign. */
  lemma ParseToDecimal(n: nat)
    ensures ParseU64(ToDecimal(n)) == ParseU64("+" + ToDecimal(n)) == if n < WORD then Some(n) else None
  {
    DecimalDigits(n);
    assert IsDigit(ToDecimal(n)[0]);
    assert ("+" + ToDecimal(n))[1..] == ToDecimal(n);
  }

  /** Anything but digits after the sign is no number. */
  lemma ParseNeedsDigits(s: string, i: nat)
    requires i < |s| && !IsDigit(s[i]) && (i > 0 || s[i] != '+' || |s| == 1)
    ensures ParseU64(s) == None && ParseU64("") == None
  {
    if s[0] == '+' && i > 0 {
      assert s[1..][i - 1] == s[i];
    }
  }
}
