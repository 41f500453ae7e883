/**
 * Amounts of money. The collector sums prices given in cents, divides by 100
 * and prints the result with two decimals and a dollar sign; later it reads
 * such a string back with `float(value.replace('$', ''))`. Here an amount is
 * an exact number of cents, printed by `FormatCents` and read back by
 * `ParseValue`.
 */
module Money {
  import opened Wrappers

  predicate IsDigit(c: char) {
    '0' <= c <= '9'
  }

  function DigitChar(d: nat): (c: char)
    requires d < 10
    ensures IsDigit(c)
  {
    (48 + d) as char
  }

  function DigitValue(c: char): (d: nat)
    requires IsDigit(c)
    ensures d < 10 && DigitChar(d) == c
  {
    c as int - 48
  }

  /** `str(n)`: the decimal digits of `n`, without leading zeros. */
  function NatToString(n: nat): (s: string)
    ensures |s| >= 1 && forall i :: 0 <= i < |s| ==> IsDigit(s[i])
  {
    if n < 10 then [DigitChar(n)] else NatToString(n / 10) + [DigitChar(n % 10)]
  }

  /** The value of a non-empty run of decimal digits; `None` for anything else. */
  function ParseNat(s: string): Option<nat> {
    if s == [] || !IsDigit(s[|s| - 1]) then None
    else if |s| == 1 then Some(DigitValue(s[0]))
    else
      match ParseNat(s[..|s| - 1])
      case None => None
      case Some(high) => Some(high * 10 + DigitValue(s[|s| - 1]))
  }

  /** Reading the digits of `n` gives `n` back. */
  lemma {:induction false} ParseNatToString(n: nat)
    ensures ParseNat(NatToString(n)) == Some(n)
  {
    var s := NatToString(n);
    if n >= 10 {
      ParseNatToString(n / 10);
      assert s[..|s| - 1] == NatToString(n / 10);
    }
  }

  /** `f"{cents / 100:.2f}$"`: an optional minus sign, the whole units, a point, two digits and `$`. */
  function FormatCents(cents: int): string {
    var m := if cents < 0 then -cents else cents;
    (if cents < 0 then "-" else "") + Decimal(m) + "$"
  }

  /** `m` cents as whole units, a point and exactly two more digits. */
  function Decimal(m: nat): string {
    var d := m % 100;
    NatToString(m / 100) + "." + [DigitChar(d / 10), DigitChar(d % 10)]
  }

  /** `s.replace(c, '')`. */
  function RemoveChar(s: string, c: char): string {
    if s == [] then []
    else RemoveChar(s[..|s| - 1], c) + (if s[|s| - 1] == c then [] else [s[|s| - 1]])
  }

  lemma {:induction false} RemoveAbsentChar(s: string, c: char)
    requires c !in s
    ensures RemoveChar(s, c) == s
  {
    if s != [] {
      RemoveAbsentChar(s[..|s| - 1], c);
    }
  }

  /** Removing a trailing `c` from a string that has no other `c`. */
  lemma RemoveTrailingChar(s: string, c: char)
    requires c !in s
    ensures RemoveChar(s + [c], c) == s
  {
    assert (s + [c])[..|s|] == s;
    RemoveAbsentChar(s, c);
  }

  /** Cents of `d.dd` (digits, a point, exactly two digits). */
  function ParseUnsigned(t: string): Option<nat> {
    if |t| < 4 || t[|t| - 3] != '.' || !IsDigit(t[|t| - 2]) || !IsDigit(t[|t| - 1]) then None
    else
      match ParseNat(t[..|t| - 3])
      case None => None
      case Some(whole) => Some(whole * 100 + DigitValue(t[|t| - 2]) * 10 + DigitValue(t[|t| - 1]))
  }

  /**
   * `float(s.replace('$', ''))` in cents, for the strings `FormatCents` writes;
   * `None` stands for the `ValueError` that `float` raises.
   */
  function ParseValue(s: string): Option<int> {
    var t := RemoveChar(s, '$');
    if |t| >= 1 && t[0] == '-' then
      match ParseUnsigned(t[1..])
      case None => None
      case Some(v) => Some(-(v as int))
    else
      match ParseUnsigned(t)
      case None => None
      case Some(v) => Some(v)
  }

  /** The whole units and the two digits after the point put `m` back together. */
  lemma CentsDigits(m: nat)
    ensures m == m / 100 * 100 + m % 100 / 10 * 10 + m % 100 % 10
  {
  }

  /** Reading `Decimal(m)` gives `m` back; it starts with a digit and holds no `$`. */
  lemma ParseDecimal(m: nat)
    ensures ParseUnsigned(Decimal(m)) == Some(m)
    ensures IsDigit(Decimal(m)[0]) && '$' !in Decimal(m)
  {
    var whole := NatToString(m / 100);
    var digits := Decimal(m);
    assert digits[..|digits| - 3] == whole;
    ParseNatToString(m / 100);
    CentsDigits(m);
    assert forall i :: 0 <= i < |whole| ==> digits[i] == whole[i];
  }

  /** Reading a formatted amount gives back exactly the cents that were formatted. */
  lemma FormatRoundTrip(cents: int)
    ensures ParseValue(FormatCents(cents)) == Some(cents)
  {
    var m := if cents < 0 then -cents else cents;
    var digits := Decimal(m);
    var sign := if cents < 0 then "-" else "";
    assert FormatCents(cents) == (sign + digits) + "$";
    ParseDecimal(m);
    assert '$' !in sign + digits;
    RemoveTrailingChar(sign + digits, '$');
    if cents < 0 {
      assert (sign + digits)[0] == '-';
      assert (sign + digits)[1..] == digits;
    } else {
      assert sign + digits == digits;
    }
  }

  /** An amount prints as `0.00$` exactly when it is zero. */
  lemma FormatZero(cents: int)
    ensures FormatCents(cents) == "0.00$" <==> cents == 0
  {
    FormatRoundTrip(cents);
    assert ParseValue("0.00$") == Some(0) by {
      RemoveTrailingChar("0.00", '$');
      assert "0.00" + "$" == "0.00$";
      assert "0.00"[..1] == "0";
    }
  }

  /** No amount prints as the `N/A` placeholder. */
  lemma FormatNeverNA(cents: int)
    ensures FormatCents(cents) != "N/A"
  {
    FormatRoundTrip(cents);
    assert ParseValue("N/A") == None by {
      RemoveAbsentChar("N/A", '$');
    }
  }

  /** The amount of the worked example: 12345 cents print as `123.45$`. */
  lemma FormatExample()
    ensures FormatCents(12345) == "123.45$"
  {
    assert NatToString(12) == "12" by {
      assert NatToString(1) == "1";
    }
    assert NatToString(123) == "123";
  }
}
