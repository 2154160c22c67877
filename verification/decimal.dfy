/**
 Decimal text of non-negative integers: Python's `str(n)` and `int(text)` as far as the
 split-settings file needs them (`split_tensors.dat` holds `str(n)` and is read back with `int`).
 */
module Decimal {
  import opened Wrappers

  predicate IsDigit(ch: char) { '0' <= ch <= '9' }

  predicate AllDigits(s: string) {
    forall i :: 0 <= i < |s| ==> IsDigit(s[i])
  }

  function DigitChar(d: nat): (ch: char)
    requires d < 10
    ensures IsDigit(ch)
  {
    ('0' as int + d) as char
  }

  function DigitValue(ch: char): (d: nat)
    requires IsDigit(ch)
    ensures d < 10
  {
    ch as int - '0' as int
  }

  /** Reference meaning of a digit string: the number it denotes in base ten. */
  function DigitsValue(s: string): nat
    requires AllDigits(s)
  {
    if |s| == 0 then 0 else DigitsValue(s[..|s| - 1]) * 10 + DigitValue(s[|s| - 1])
  }

  /** Python's `str(n)` for `n >= 0`: non-empty, only digits, and no leading zero except for "0" itself. */
  function ToDecimal(n: nat): (r: string)
    ensures |r| >= 1
    ensures AllDigits(r)
    ensures |r| > 1 ==> r[0] != '0'
    ensures n == 0 <==> r == "0"
    decreases n
  {
    if n < 10 then [DigitChar(n)] else ToDecimal(n / 10) + [DigitChar(n % 10)]
  }

  /** Digit text without a superfluous leading zero: the form `str(n)` produces. */
  predicate Canonical(s: string) {
    |s| >= 1 && AllDigits(s) && (|s| == 1 || s[0] != '0')
  }

  /**
   Python's `int(text)` on unsigned digit text: None where Python raises ValueError because
   the text is empty or holds a non-digit; otherwise a number whose decimal text is the input
   itself when the input has no leading zero.
   */
  function ParseInt(s: string): (r: Option<nat>)
    ensures r.Some? <==> |s| >= 1 && AllDigits(s)
    ensures r.Some? && Canonical(s) ==> ToDecimal(r.value) == s
  {
    if |s| >= 1 && AllDigits(s) then
      if Canonical(s) then
        ToDecimalOfValue(s);
        Some(DigitsValue(s))
      else
        Some(DigitsValue(s))
    else None
  }

  /** Digit text with a non-zero first digit denotes a positive number. */
  lemma {:induction false} LeadingDigitPositive(s: string)
    requires |s| >= 1 && AllDigits(s) && s[0] != '0'
    ensures DigitsValue(s) >= 1
    decreases |s|
  {
    if |s| > 1 {
      var p := s[..|s| - 1];
      assert p[0] == s[0];
      LeadingDigitPositive(p);
    }
  }

  /** Canonical digit text is the decimal text of the number it denotes. */
  lemma {:induction false} ToDecimalOfValue(s: string)
    requires Canonical(s)
    ensures ToDecimal(DigitsValue(s)) == s
    decreases |s|
  {
    var d := s[|s| - 1];
    if |s| == 1 {
      assert DigitChar(DigitValue(d)) == d;
      assert s == [d];
    } else {
      var p := s[..|s| - 1];
      assert p[0] == s[0];
      LeadingDigitPositive(p);
      ToDecimalOfValue(p);
      var n := DigitsValue(s);
      assert n / 10 == DigitsValue(p) && n % 10 == DigitValue(d);
      assert DigitChar(DigitValue(d)) == d;
      assert s == p + [d];
    }
  }

  /** `int(t + d) == 10 * int(t) + d`: appending a digit shifts the value and adds the digit. */
  lemma ParseIntAppendDigit(s: string, d: char)
    requires ParseInt(s).Some? && IsDigit(d)
    ensures ParseInt(s + [d]) == Some(10 * ParseInt(s).value + DigitValue(d))
  {
    var t := s + [d];
    assert AllDigits(t);
    assert t[..|t| - 1] == s;
  }

  /** A leading zero does not change the value: `int("0" + t) == int(t)` for non-empty `t`. */
  lemma {:induction false} ParseIntLeadingZero(s: string)
    requires |s| >= 1
    ensures ParseInt("0" + s) == ParseInt(s)
    decreases |s|
  {
    var t := "0" + s;
    if AllDigits(s) {
      assert AllDigits(t);
      if |s| == 1 {
        assert t[..1] == "0" && t[1] == s[0];
        assert DigitsValue("0") == 0 by {
          assert "0"[..0] == "";
        }
        assert s[..0] == "";
      } else {
        var p := s[..|s| - 1];
        ParseIntLeadingZero(p);
        assert t[..|t| - 1] == "0" + p;
        assert t[|t| - 1] == s[|s| - 1];
      }
    } else {
      var i :| 0 <= i < |s| && !IsDigit(s[i]);
      assert t[i + 1] == s[i];
    }
  }

  /** The decimal text of `n` denotes `n`. */
  lemma {:induction false} ToDecimalValue(n: nat)
    ensures DigitsValue(ToDecimal(n)) == n
    decreases n
  {
    if n >= 10 {
      ToDecimalValue(n / 10);
      var r := ToDecimal(n);
      assert r[..|r| - 1] == ToDecimal(n / 10);
    }
  }

  /** `int(str(n)) == n` for every non-negative `n`: writing the count and reading it back loses nothing. */
  lemma ParseIntToDecimal(n: nat)
    ensures ParseInt(ToDecimal(n)) == Some(n)
  {
    ToDecimalValue(n);
  }
}
