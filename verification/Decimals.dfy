/** Strings of decimal digits and the numbers they stand for. */
module Decimals {

  function Digit(n: nat): char
    requires n < 10
  {
    '0' + (n as char)
  }

  predicate IsDigit(c: char) {
    '0' <= c <= '9'
  }

  function DigitValue(c: char): nat {
    if IsDigit(c) then (c - '0') as nat else 0
  }

  predicate AllDigits(s: string) {
    forall i | 0 <= i < |s| :: IsDigit(s[i])
  }

  function Value(s: string): nat {
    if s == [] then 0 else 10 * Value(s[..|s| - 1]) + DigitValue(s[|s| - 1])
  }

  function Pow10(n: nat): (p: nat)
    ensures p >= 1
  {
    if n == 0 then 1 else 10 * Pow10(n - 1)
  }

  /** The shortest decimal representation. */
  function Decimal(n: nat): string {
    if n < 10 then [Digit(n)] else Decimal(n / 10) + [Digit(n % 10)]
  }

  function Zeros(n: nat): string {
    seq(n, _ => '0')
  }

  lemma {:induction false} DecimalValue(n: nat)
    ensures Value(Decimal(n)) == n && AllDigits(Decimal(n)) && Decimal(n) != []
  {
    if n >= 10 {
      DecimalValue(n / 10);
      assert Decimal(n)[..|Decimal(n)| - 1] == Decimal(n / 10);
    } else {
      assert Decimal(n)[..0] == [];
    }
  }

  lemma DecimalInjective(m: nat, n: nat)
    requires Decimal(m) == Decimal(n)
    ensures m == n
  {
    DecimalValue(m);
    DecimalValue(n);
  }

  /** No zeros in front, except of zero itself. */
  lemma {:induction false} DecimalStartsWithout(n: nat)
    requires n > 0
    ensures Decimal(n)[0] != '0'
  {
    if n >= 10 { DecimalStartsWithout(n / 10); }
  }

  /** A number with a number of decimal places added. */
  function Shifted(n: nat, places: nat): nat {
    if places == 0 then n else 10 * Shifted(n, places - 1)
  }

  lemma {:induction false} ShiftedZero(places: nat)
    ensures Shifted(0, places) == 0
  {
    if places > 0 { ShiftedZero(places - 1); }
  }

  lemma {:induction false} ShiftedScales(n: nat, places: nat)
    ensures Shifted(n, places) == n * Pow10(places)
  {
    if places > 0 {
      ShiftedScales(n, places - 1);
      var p := Pow10(places - 1);
      assert 10 * (n * p) == n * (10 * p);
    }
  }

  lemma {:induction false} ValueOfConcatenation(s: string, t: string)
    ensures Value(s + t) == Shifted(Value(s), |t|) + Value(t)
  {
    if t == [] {
      assert s + t == s;
    } else {
      var front := t[..|t| - 1];
      assert (s + t)[..|s + t| - 1] == s + front;
      ValueOfConcatenation(s, front);
    }
  }

  lemma {:induction false} ValueOfZeros(n: nat)
    ensures Value(Zeros(n)) == 0 && AllDigits(Zeros(n))
  {
    if n > 0 {
      assert Zeros(n)[..n - 1] == Zeros(n - 1);
      ValueOfZeros(n - 1);
    }
  }

  lemma LeadingZeros(n: nat, s: string)
    ensures Value(Zeros(n) + s) == Value(s)
  {
    ValueOfConcatenation(Zeros(n), s);
    ValueOfZeros(n);
    ShiftedZero(|s|);
  }
}
