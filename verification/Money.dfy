/**
 Exact decimal amounts (`internal/domain/money.go`) and the two other parsers of the
 source, `parseGoalMoneyMinor` and `parseInvestmentMoneyMinor`.  Texts are taken after
 surrounding white space has been trimmed.
 */
module Money {
  import opened Wrappers
  import opened Rational
  import opened Ledger
  import opened Decimals

  datatype AmountError = NotDecimal | TooManyDecimals | BeyondRange

  const MAX_SAFE_MINOR: int := 9_007_199_254_740_991

  function PaddedText(n: nat, digits: nat): string {
    var text := Decimal(n);
    if digits > 0 && |text| <= digits then Zeros(digits - |text| + 1) + text else text
  }

  function Pointed(text: string, digits: nat): string
    requires |text| >= digits
  {
    if digits > 0 then text[..|text| - digits] + "." + text[|text| - digits..] else text
  }

  /** `FormatMinorUnits`, of a whole number. */
  function FormatMinorUnits(minor: int, digits: nat): string {
    var text := Pointed(PaddedText(Abs(minor), digits), digits);
    if minor < 0 then "-" + text else text
  }

  // ---- the shape of an amount -------------------------------------------------------------------------------------

  function PointAt(s: string): (at: nat)
    ensures at <= |s|
    ensures at < |s| ==> s[at] == '.'
    ensures forall i | 0 <= i < at :: s[i] != '.'
  {
    if s == [] || s[0] == '.' then 0 else 1 + PointAt(s[1..])
  }

  /** What is before the first point, and what is after it. */
  function Whole(s: string): string {
    s[..PointAt(s)]
  }

  function Fraction(s: string): string {
    if PointAt(s) < |s| then s[PointAt(s) + 1..] else ""
  }

  predicate Negative(s: string) {
    s != [] && s[0] == '-'
  }

  function Unsigned(s: string): string {
    if Negative(s) then s[1..] else s
  }

  /** The pattern `^-?[0-9]+(\.[0-9]+)?$`, the same in all three places. */
  predicate IsDecimal(s: string) {
    var body := Unsigned(s);
    && Whole(body) != "" && AllDigits(Whole(body)) && AllDigits(Fraction(body))
    && (PointAt(body) < |body| ==> Fraction(body) != "")
  }

  /** What `big.Int.SetString` reads in base ten: digits, after a sign. */
  function SignedValue(s: string): int {
    if Negative(s) then -(Value(s[1..]) as int) else Value(s)
  }

  // ---- the parsers ------------------------------------------------------------------------------------------------

  function Padded(fraction: string, digits: nat): (padded: string)
    requires |fraction| <= digits
    ensures |padded| == digits
  {
    fraction + Zeros(digits - |fraction|)
  }

  function InRange(minor: int): Result<Int64, AmountError> {
    if IsInt64(minor) then Ok(minor) else Err(BeyondRange)
  }

  /** The digits written one after another and read, with the sign, as one number. */
  function Concatenated(s: string, digits: nat): int
    requires |Fraction(s)| <= digits
  {
    SignedValue(Whole(s) + Padded(Fraction(s), digits))
  }

  /** `ParseDecimalAmount`. */
  function ParseDecimalAmount(s: string, digits: nat): Result<Int64, AmountError> {
    if !IsDecimal(s) then Err(NotDecimal)
    else if |Fraction(s)| > digits then Err(TooManyDecimals)
    else InRange(Concatenated(s, digits))
  }

  function WithoutCommas(s: string): string {
    if s == [] then [] else (if s[0] == ',' then [] else [s[0]]) + WithoutCommas(s[1..])
  }

  /** The magnitude of the whole part scaled, the fraction added, and the sign put back. */
  function ScaledAndAdded(s: string, digits: nat): int
    requires |Fraction(s)| <= digits
  {
    var padded := Padded(Fraction(s), digits);
    var magnitude := Abs(SignedValue(Whole(s))) * Pow10(digits) + if padded != "" then Value(padded) else 0;
    if Negative(Whole(s)) then -magnitude else magnitude
  }

  /** `parseGoalMoneyMinor`. */
  function ParseGoalMoneyMinor(s: string, digits: nat): Result<Int64, AmountError> {
    var normalized := WithoutCommas(s);
    if !IsDecimal(normalized) then Err(NotDecimal)
    else if |Fraction(normalized)| > digits then Err(TooManyDecimals)
    else
      var minor := ScaledAndAdded(normalized, digits);
      if !IsInt64(minor) || minor > MAX_SAFE_MINOR || minor < -MAX_SAFE_MINOR then Err(BeyondRange) else Ok(minor)
  }

  /** The digits of the magnitude read as one number, and the sign put back. */
  function SignSetAside(s: string, digits: nat): int
    requires |Fraction(s)| <= digits
  {
    var magnitude: int := Value(Unsigned(Whole(s)) + Padded(Fraction(s), digits));
    if Negative(Whole(s)) then -magnitude else magnitude
  }

  /** `parseInvestmentMoneyMinor`. */
  function ParseInvestmentMoneyMinor(s: string, digits: nat): Result<Int64, AmountError> {
    var normalized := WithoutCommas(s);
    if !IsDecimal(normalized) then Err(NotDecimal)
    else if |Fraction(normalized)| > digits then Err(TooManyDecimals)
    else InRange(SignSetAside(normalized, digits))
  }

  // ---- what an amount is worth ------------------------------------------------------------------------------------

  /** The worth of a decimal in minor units: its whole part shifted, plus its shifted fraction, with its sign. */
  function Worth(s: string, digits: nat): int
    requires |Fraction(s)| <= digits
  {
    var magnitude: int := Shifted(Value(Whole(Unsigned(s))), digits)
      + Shifted(Value(Fraction(s)), digits - |Fraction(s)|);
    if Negative(s) then -magnitude else magnitude
  }

  lemma PointAfterSign(s: string)
    requires Negative(s)
    ensures PointAt(s) == PointAt(s[1..]) + 1
    ensures Whole(s) == "-" + Whole(s[1..]) && Fraction(s) == Fraction(s[1..])
  {
    assert Whole(s) == [s[0]] + Whole(s[1..]);
  }

  lemma SignOfWhole(s: string)
    requires IsDecimal(s)
    ensures Negative(Whole(s)) == Negative(s) && Unsigned(Whole(s)) == Whole(Unsigned(s)) && Whole(s) != ""
  {
    if Negative(s) {
      PointAfterSign(s);
      assert ("-" + Whole(s[1..]))[1..] == Whole(s[1..]);
    } else {
      assert Whole(s)[0] == s[0];
    }
  }

  lemma PaddedValue(fraction: string, digits: nat)
    requires |fraction| <= digits
    ensures Value(Padded(fraction, digits)) == Shifted(Value(fraction), digits - |fraction|)
  {
    ValueOfConcatenation(fraction, Zeros(digits - |fraction|));
    ValueOfZeros(digits - |fraction|);
  }

  lemma SignedConcatenation(whole: string, padded: string)
    requires whole != ""
    ensures Negative(whole + padded) == Negative(whole)
    ensures SignedValue(whole + padded) == if Negative(whole) then -(Value(Unsigned(whole) + padded) as int)
            else Value(Unsigned(whole) + padded)
  {
    assert (whole + padded)[0] == whole[0];
    if Negative(whole) { assert (whole + padded)[1..] == whole[1..] + padded; }
  }

  /** The worth in terms of the padded fraction. */
  lemma WorthOfParts(s: string, digits: nat)
    requires IsDecimal(s) && |Fraction(s)| <= digits
    ensures
      var magnitude: int := Shifted(Value(Unsigned(Whole(s))), digits) + Value(Padded(Fraction(s), digits));
      Worth(s, digits) == (if Negative(Whole(s)) then -magnitude else magnitude) && Whole(s) != ""
  {
    hide Value, Shifted, IsDecimal, Whole, Fraction, Unsigned, Negative;
    SignOfWhole(s);
    PaddedValue(Fraction(s), digits);
  }

  /** All three ways of reading a decimal read its worth. */
  lemma ReadingsAgree(s: string, digits: nat)
    requires IsDecimal(s) && |Fraction(s)| <= digits
    ensures SignSetAside(s, digits) == Worth(s, digits)
    ensures Concatenated(s, digits) == Worth(s, digits)
    ensures ScaledAndAdded(s, digits) == Worth(s, digits)
  {
    assert Value("") == 0;
    hide Value, Pow10, Shifted, IsDecimal, Whole, Fraction, Unsigned, Negative, SignedValue, Worth;
    WorthOfParts(s, digits);
    var whole, padded := Whole(s), Padded(Fraction(s), digits);
    SignedConcatenation(whole, padded);
    ValueOfConcatenation(Unsigned(whole), padded);
    ScaledWhole(whole, digits);
  }

  lemma ScaledWhole(whole: string, digits: nat)
    ensures Abs(SignedValue(whole)) * Pow10(digits) == Shifted(Value(Unsigned(whole)), digits)
  {
    ShiftedScales(Value(Unsigned(whole)), digits);
    assert Abs(SignedValue(whole)) == Value(Unsigned(whole));
  }

  /**
   Without commas, the goal parser is the exact parser cut to the goal range, and the
   investment parser is the exact parser.
   */
  lemma ParsersAgree(s: string, digits: nat)
    requires ',' !in s
    ensures ParseInvestmentMoneyMinor(s, digits) == ParseDecimalAmount(s, digits)
    ensures ParseGoalMoneyMinor(s, digits)
         == match ParseDecimalAmount(s, digits)
            case Ok(minor) => if -MAX_SAFE_MINOR <= minor <= MAX_SAFE_MINOR then Ok(minor) else Err(BeyondRange)
            case Err(e) => Err(e)
  {
    NothingToStrip(s);
    if IsDecimal(s) && |Fraction(s)| <= digits { ReadingsAgree(s, digits); }
  }

  lemma {:induction false} NothingToStrip(s: string)
    requires ',' !in s
    ensures WithoutCommas(s) == s
  {
    if s != [] { NothingToStrip(s[1..]); }
  }

  /** With commas, the exact parser refuses what the others read as if they were not there. */
  lemma CommasDivide(s: string, digits: nat)
    requires ',' in s
    ensures ParseDecimalAmount(s, digits) == Err(NotDecimal)
    ensures ParseGoalMoneyMinor(s, digits) == ParseGoalMoneyMinor(WithoutCommas(s), digits)
    ensures ParseInvestmentMoneyMinor(s, digits) == ParseInvestmentMoneyMinor(WithoutCommas(s), digits)
  {
    StrippedHasNone(s);
    NothingToStrip(WithoutCommas(s));
    if IsDecimal(s) {
      DecimalsHaveNoComma(s);
    }
  }

  lemma DecimalsHaveNoComma(s: string)
    requires IsDecimal(s)
    ensures ',' !in s
  {
    var body := Unsigned(s);
    forall i | 0 <= i < |body| ensures body[i] != ',' {
      if i < PointAt(body) {
        assert Whole(body)[i] == body[i];
      } else if i > PointAt(body) {
        assert Fraction(body)[i - PointAt(body) - 1] == body[i];
      }
    }
  }

  lemma {:induction false} StrippedHasNone(s: string)
    ensures ',' !in WithoutCommas(s)
  {
    if s != [] { StrippedHasNone(s[1..]); }
  }

  // ---- the round trip ---------------------------------------------------------------------------------------------

  lemma {:induction false} PointAtOnly(s: string, at: nat)
    requires at <= |s| && (at < |s| ==> s[at] == '.') && forall i | 0 <= i < at :: s[i] != '.'
    ensures PointAt(s) == at
  {
    if at > 0 { PointAtOnly(s[1..], at - 1); }
  }

  lemma PaddedTextReads(n: nat, digits: nat)
    ensures |PaddedText(n, digits)| > digits && AllDigits(PaddedText(n, digits)) && Value(PaddedText(n, digits)) == n
  {
    DecimalValue(n);
    var text := Decimal(n);
    if digits > 0 && |text| <= digits {
      ValueOfZeros(digits - |text| + 1);
      LeadingZeros(digits - |text| + 1, text);
    }
  }

  /** Putting the point in and taking it out again. */
  lemma PointedParts(text: string, digits: nat)
    requires |text| > digits && AllDigits(text)
    ensures
      var s := Pointed(text, digits);
      && !Negative(s) && Whole(s) == text[..|text| - digits] && Fraction(s) == text[|text| - digits..] && IsDecimal(s)
  {
    var s := Pointed(text, digits);
    assert s[0] == text[0];
    PointAtOnly(s, |text| - digits);
  }

  lemma PointedWorth(text: string, digits: nat)
    requires |text| > digits && AllDigits(text)
    ensures |Fraction(Pointed(text, digits))| == digits && Worth(Pointed(text, digits), digits) == Value(text)
  {
    hide Value, Pow10, IsDecimal, AllDigits;
    PointedParts(text, digits);
    var whole, fraction := text[..|text| - digits], text[|text| - digits..];
    assert whole + fraction == text;
    ValueOfConcatenation(whole, fraction);
  }

  /** Every whole number that is formatted is read back, for every number of decimal places. */
  lemma FormattedWorth(minor: int, digits: nat)
    ensures
      var s := FormatMinorUnits(minor, digits);
      && IsDecimal(s) && |Fraction(s)| == digits && Worth(s, digits) == minor && (Negative(s) <==> minor < 0)
  {
    var text := PaddedText(Abs(minor), digits);
    PaddedTextReads(Abs(minor), digits);
    PointedParts(text, digits);
    PointedWorth(text, digits);
    if minor < 0 {
      var s := FormatMinorUnits(minor, digits);
      assert s[1..] == Pointed(text, digits);
      PointAfterSign(s);
    }
  }

  /** Parsing a formatted amount gives the amount. */
  lemma ParseUndoesFormat(minor: Int64, digits: nat)
    ensures ParseDecimalAmount(FormatMinorUnits(minor, digits), digits) == Ok(minor)
  {
    FormattedWorth(minor, digits);
    ReadingsAgree(FormatMinorUnits(minor, digits), digits);
  }

  /** Different amounts are written differently. */
  lemma FormatInjective(one: int, other: int, digits: nat)
    ensures FormatMinorUnits(one, digits) == FormatMinorUnits(other, digits) <==> one == other
  {
    FormattedWorth(one, digits);
    FormattedWorth(other, digits);
  }
}
