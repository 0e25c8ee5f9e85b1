/**
 * Decimal digit strings: how a route parameter such as `"12"` becomes a number
 * (`Number(id)`) and how a number becomes a path segment (`${id}`).
 * Only plain non-negative decimal strings are modelled.
 */
module Decimal {
  import opened Wrappers

  predicate IsDigit(c: char) {
    '0' <= c <= '9'
  }

  function DigitValue(c: char): (d: nat)
    requires IsDigit(c)
    ensures d < 10
  {
    (c as int) - ('0' as int)
  }

  function DigitChar(d: nat): (c: char)
    requires d < 10
    ensures IsDigit(c) && DigitValue(c) == d
  {
    (('0' as int) + d) as char
  }

  predicate AllDigits(s: string) {
    forall i :: 0 <= i < |s| ==> IsDigit(s[i])
  }

  /** The value of a string of decimal digits, most significant digit first. */
  function DigitsValue(s: string): nat
    requires AllDigits(s)
  {
    if s == [] then 0 else DigitsValue(s[..|s| - 1]) * 10 + DigitValue(s[|s| - 1])
  }

  /** A digit string denotes 0 exactly when every digit is `0`. */
  lemma {:induction false} DigitsValueZero(s: string)
    requires AllDigits(s)
    ensures DigitsValue(s) == 0 <==> forall i :: 0 <= i < |s| ==> s[i] == '0'
  {
    if s != [] {
      var init := s[..|s| - 1];
      DigitsValueZero(init);
      if DigitsValue(s) == 0 {
        forall i | 0 <= i < |s| ensures s[i] == '0' {
          if i < |s| - 1 {
            assert init[i] == s[i];
          }
        }
      }
    }
  }

  /** A digit string without a leading zero is the decimal form of its value. */
  lemma {:induction false} FormatDigits(s: string)
    requires s != [] && AllDigits(s) && (|s| == 1 || s[0] != '0')
    ensures Format(DigitsValue(s)) == s
  {
    var init := s[..|s| - 1];
    var d := DigitValue(s[|s| - 1]);
    assert DigitChar(d) == s[|s| - 1];
    if |s| == 1 {
      assert init == [];
    } else {
      assert init[0] == s[0];
      DigitsValueZero(init);
      FormatDigits(init);
      var n := DigitsValue(s);
      assert n == DigitsValue(init) * 10 + d;
      assert n / 10 == DigitsValue(init) && n % 10 == d;
      assert s == init + [s[|s| - 1]];
    }
  }

  /**
   * The number a decimal string denotes; `None` for the empty string and for any
   * string holding a character other than a digit. A string without a leading
   * zero is read back as exactly what `Format` writes.
   */
  function Parse(s: string): (r: Option<nat>)
    ensures r.Some? <==> s != [] && AllDigits(s)
    ensures r.Some? && (|s| == 1 || s[0] != '0') ==> Format(r.value) == s
  {
    if s != [] && AllDigits(s) then
      if |s| == 1 || s[0] != '0' then
        FormatDigits(s);
        Some(DigitsValue(s))
      else
        Some(DigitsValue(s))
    else
      None
  }

  /** A digit string denotes a nonzero number exactly when some digit is not `0`. */
  lemma ParseNonzero(s: string)
    requires s != [] && AllDigits(s)
    ensures Parse(s).value != 0 <==> exists i :: 0 <= i < |s| && s[i] != '0'
  {
    DigitsValueZero(s);
  }

  /** The shortest decimal string denoting `n` (no leading zeros). */
  function Format(n: nat): (s: string)
    ensures s != [] && AllDigits(s)
    ensures |s| > 1 ==> s[0] != '0'
  {
    if n < 10 then [DigitChar(n)] else Format(n / 10) + [DigitChar(n % 10)]
  }

  /** Formatting then parsing gives back the number. */
  lemma {:induction false} ParseFormat(n: nat)
    ensures Parse(Format(n)) == Some(n)
  {
    var s := Format(n);
    if n >= 10 {
      ParseFormat(n / 10);
      assert s[..|s| - 1] == Format(n / 10);
      assert DigitsValue(s) == DigitsValue(Format(n / 10)) * 10 + n % 10;
    }
  }

  /** Distinct numbers format to distinct strings. */
  lemma FormatInjective(m: nat, n: nat)
    requires Format(m) == Format(n)
    ensures m == n
  {
    ParseFormat(m);
    ParseFormat(n);
  }
}
