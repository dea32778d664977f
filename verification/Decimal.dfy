/** Decimal numerals, as used in generated identifiers. */
module Decimal {

  const DIGITS := "0123456789"

  function Numeral(n: nat): (s: string)
    ensures |s| >= 1
    ensures n >= 10 ==> |s| >= 2
    ensures n < 10 ==> |s| == 1
  {
    if n < 10 then [DIGITS[n]] else Numeral(n / 10) + [DIGITS[n % 10]]
  }

  // What a numeral says: its digits from the left, in base ten.
  function Value(s: string): nat
    requires forall i :: 0 <= i < |s| ==> '0' <= s[i] <= '9'
  {
    if s == [] then 0 else 10 * Value(s[..|s| - 1]) + (s[|s| - 1] - '0') as nat
  }

  // A numeral has digits only, no leading zero, and says its number.
  lemma {:induction false} NumeralSaysItsNumber(n: nat)
    ensures forall i :: 0 <= i < |Numeral(n)| ==> '0' <= Numeral(n)[i] <= '9'
    ensures Value(Numeral(n)) == n && (n > 0 ==> Numeral(n)[0] != '0')
  {
    assert forall d :: 0 <= d < 10 ==> DIGITS[d] as int == '0' as int + d;
    if n >= 10 {
      NumeralSaysItsNumber(n / 10);
      assert Numeral(n)[..|Numeral(n)| - 1] == Numeral(n / 10);
    } else {
      assert Numeral(n)[..0] == [];
    }
  }

  lemma {:induction false} NumeralInjective(m: nat, n: nat)
    requires Numeral(m) == Numeral(n)
    ensures m == n
  {
    assert Numeral(m)[|Numeral(m)| - 1] == DIGITS[m % 10];
    assert Numeral(n)[|Numeral(n)| - 1] == DIGITS[n % 10];
    if m >= 10 {
      assert Numeral(m)[..|Numeral(m)| - 1] == Numeral(m / 10);
      assert Numeral(n)[..|Numeral(n)| - 1] == Numeral(n / 10);
      NumeralInjective(m / 10, n / 10);
    }
  }

  // A prefix and a number: "request-7", "operator.3".
  function Name(prefix: string, n: nat): string {
    prefix + Numeral(n)
  }

  lemma NameInjective(prefix: string, m: nat, n: nat)
    requires Name(prefix, m) == Name(prefix, n)
    ensures m == n
  {
    assert Name(prefix, m)[|prefix|..] == Numeral(m);
    assert Name(prefix, n)[|prefix|..] == Numeral(n);
    NumeralInjective(m, n);
  }
}
