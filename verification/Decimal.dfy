// Decimal text of natural numbers: std::to_string and std::stoi on digits.
module Decimal {

  predicate IsDigit(c: char) {
    '0' <= c <= '9'
  }

  predicate AllDigits(s: string) {
    forall i :: 0 <= i < |s| ==> IsDigit(s[i])
  }

  function DigitValue(c: char): nat
    requires IsDigit(c)
  {
    c as int - '0' as int
  }

  function DigitChar(d: nat): char
    requires d < 10
  {
    ('0' as int + d) as char
  }

  function ToDecimal(n: nat): string {
    if n < 10 then [DigitChar(n)] else ToDecimal(n / 10) + [DigitChar(n % 10)]
  }

  function FromDecimal(s: string): nat
    requires AllDigits(s)
  {
    if s == "" then 0 else FromDecimal(s[..|s| - 1]) * 10 + DigitValue(s[|s| - 1])
  }

  lemma {:induction false} DecimalRoundTrip(n: nat)
    ensures ToDecimal(n) != "" && AllDigits(ToDecimal(n))
    ensures FromDecimal(ToDecimal(n)) == n
  {
    if n < 10 {
      assert ToDecimal(n)[..0] == "";
    } else {
      DecimalRoundTrip(n / 10);
      var s := ToDecimal(n);
      assert s[..|s| - 1] == ToDecimal(n / 10);
    }
  }

  function TenTo(n: nat): nat {
    if n == 0 then 1 else 10 * TenTo(n - 1)
  }

  // Every digit counts for its place.
  lemma {:induction false} PlaceValue(s: string, i: nat)
    requires i < |s| && AllDigits(s)
    ensures FromDecimal(s)
         == FromDecimal(s[..i]) * TenTo(|s| - i) + (s[i] as int - 48) * TenTo(|s| - i - 1) + FromDecimal(s[i + 1..])
  {
    var n := |s| - 1;
    if i == n {
      assert TenTo(1) == 10 && TenTo(0) == 1 && s[i + 1..] == "";
    } else {
      PlaceValue(s[..n], i);
      assert s[..n][..i] == s[..i] && s[i + 1..][..n - i - 1] == s[..n][i + 1..];
      OneMorePlace(FromDecimal(s[..i]), s[i] as int - 48, FromDecimal(s[..n][i + 1..]), DigitValue(s[n]), n - i);
    }
  }

  lemma OneMorePlace(a: int, b: int, c: int, d: int, n: nat)
    requires n > 0
    ensures (a * TenTo(n) + b * TenTo(n - 1) + c) * 10 + d == a * TenTo(n + 1) + b * TenTo(n) + (c * 10 + d)
  {
    assert TenTo(n + 1) == 10 * TenTo(n) && TenTo(n) == 10 * TenTo(n - 1);
    assert a * TenTo(n + 1) == 10 * (a * TenTo(n)) && b * TenTo(n) == 10 * (b * TenTo(n - 1));
  }
}
