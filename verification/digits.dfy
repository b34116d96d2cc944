/** Decimal digit strings and their values: the `\d+` captures of the
    free-text parser converted by `int(...)`, and numeric quantity cells. */
module Digits {
  import opened Text

  /** The characters `\d` matches in this model: ASCII decimal digits. */
  const Decimal: set<char> := {'0', '1', '2', '3', '4', '5', '6', '7', '8', '9'}

  /** The value of one decimal digit. */
  function DigitValue(c: char): (v: nat)
    requires c in Decimal
    ensures v < 10
  {
    (c as int) - ('0' as int)
  }

  /** The character for a digit value. */
  function DigitChar(v: nat): (c: char)
    requires v < 10
    ensures c in Decimal && DigitValue(c) == v
  {
    (('0' as int) + v) as char
  }

  /** Python's `int(d)` on a string of decimal digits (leading zeros allowed). */
  function Value(d: string): nat
    requires AllIn(d, Decimal)
  {
    if |d| == 0 then 0 else 10 * Value(d[..|d| - 1]) + DigitValue(d[|d| - 1])
  }

  /** Python's `str(n)` for a natural number: its digits, most significant
      first, without leading zeros. */
  function Show(n: nat): (d: string)
    ensures AllIn(d, Decimal)
    ensures |d| >= 1
    ensures |d| > 1 ==> d[0] != '0'
    ensures n < 10 <==> |d| == 1
  {
    if n < 10 then [DigitChar(n)]
    else
      var h := Show(n / 10);
      assert (h + [DigitChar(n % 10)])[0] == h[0];
      h + [DigitChar(n % 10)]
  }

  /** Reading back the digits of `n` gives `n`. */
  lemma {:induction false} ValueOfShow(n: nat)
    ensures Value(Show(n)) == n
  {
    if n >= 10 {
      var d := Show(n);
      assert d[..|d| - 1] == Show(n / 10);
      ValueOfShow(n / 10);
    }
  }

  /** Leading zeros do not change the value: `int("007") == 7`. */
  lemma {:induction false} ValueIgnoresLeadingZero(d: string)
    requires AllIn(d, Decimal)
    ensures Value(['0'] + d) == Value(d)
  {
    if |d| > 0 {
      var z := ['0'] + d;
      assert z[..|z| - 1] == ['0'] + d[..|d| - 1];
      ValueIgnoresLeadingZero(d[..|d| - 1]);
    }
  }

  /** A canonical digit string (no leading zeros) is what `Show` prints for
      its value, so `Value` is one-to-one on canonical strings. */
  lemma {:induction false} ShowOfValue(d: string)
    requires AllIn(d, Decimal) && |d| >= 1 && (|d| > 1 ==> d[0] != '0')
    ensures Show(Value(d)) == d
    decreases |d|
  {
    var last := d[|d| - 1];
    assert DigitChar(DigitValue(last)) == last;
    if |d| > 1 {
      var p := d[..|d| - 1];
      assert p[0] == d[0];
      ShowOfValue(p);
      PositiveLead(p);
      assert Value(d) / 10 == Value(p);
      assert Value(d) % 10 == DigitValue(last);
      assert d == p + [last];
    } else {
      assert d == [last];
    }
  }

  /** A digit string whose first digit is not zero has a positive value. */
  lemma {:induction false} PositiveLead(d: string)
    requires AllIn(d, Decimal) && |d| >= 1 && d[0] != '0'
    ensures Value(d) >= 1
  {
    if |d| > 1 {
      var p := d[..|d| - 1];
      assert p[0] == d[0];
      PositiveLead(p);
    }
  }
}
