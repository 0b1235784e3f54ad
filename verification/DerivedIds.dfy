/** The identities of imported transactions that have none of their own (`derived_external_id.go`). */
module DerivedIds {
  import opened Wrappers
  import opened Rational
  import opened Ledger
  import opened Decimals
  import opened Money

  /** `legacy` is empty for repeated occurrences. */
  datatype DerivedId = DerivedId(id: string, legacy: string)

  function Base(date: string, typeName: string, amount: int, digits: nat): string {
    "derived-" + date + "-" + typeName + "-" + FormatMinorUnits(amount, digits)
  }

  function MinorText(amount: int): string {
    if amount < 0 then "-" + Decimal(Abs(amount)) else Decimal(Abs(amount))
  }

  /** The identity of the n-th row of a file with the same date, type and amount. */
  function Identity(date: string, typeName: string, amount: int, digits: nat, occurrence: nat): DerivedId {
    if occurrence > 1 then DerivedId(Base(date, typeName, amount, digits) + "-" + Decimal(occurrence), "")
    else DerivedId(Base(date, typeName, amount, digits), "derived-" + date + "-" + typeName + "-" + MinorText(amount))
  }

  function CountOf(counts: map<string, nat>, base: string): nat {
    if base in counts then counts[base] else 0
  }

  class DerivedExternalIds {
    var counts: map<string, nat>

    constructor ()
      ensures counts == map[]
    {
      counts := map[];
    }

    /** `next`: counts the identity and numbers it. */
    method Next(date: string, typeName: string, amount: int, digits: nat) returns (identity: DerivedId)
      modifies this
      ensures
        var base := Base(date, typeName, amount, digits);
        counts == old(counts)[base := CountOf(old(counts), base) + 1]
        && identity == Identity(date, typeName, amount, digits, CountOf(old(counts), base) + 1)
    {
      var base := Base(date, typeName, amount, digits);
      counts := counts[base := CountOf(counts, base) + 1];
      var occurrence := counts[base];
      if occurrence > 1 {
        return DerivedId(base + "-" + Decimal(occurrence), "");
      }
      return DerivedId(base, "derived-" + date + "-" + typeName + "-" + MinorText(amount));
    }
  }

  // ---- identities are unambiguous ---------------------------------------------------------------------------------

  function FirstDash(s: string): nat {
    if s == "" || s[0] == '-' then 0 else 1 + FirstDash(s[1..])
  }

  lemma {:induction false} FirstDashAfter(s: string, rest: string)
    requires '-' !in s && (rest == "" || rest[0] == '-')
    ensures FirstDash(s + rest) == |s|
  {
    if s == "" {
      assert s + rest == rest;
    } else {
      FirstDashAfter(s[1..], rest);
      assert (s + rest)[1..] == s[1..] + rest;
    }
  }

  /** A text without a dash can be cut off in front of one. */
  lemma CutAtDash(a: string, b: string, c: string, d: string)
    requires '-' !in a && '-' !in c && (b == "" || b[0] == '-') && (d == "" || d[0] == '-')
    requires a + b == c + d
    ensures a == c && b == d
  {
    FirstDashAfter(a, b);
    FirstDashAfter(c, d);
    assert a == (a + b)[..|a|] && c == (c + d)[..|c|];
    assert b == (a + b)[|a|..] && d == (c + d)[|c|..];
  }

  lemma MagnitudeHasNoDash(n: nat, digits: nat)
    ensures '-' !in Pointed(PaddedText(n, digits), digits) && Pointed(PaddedText(n, digits), digits) != ""
  {
    var text := PaddedText(n, digits);
    PaddedTextReads(n, digits);
    forall c | c in Pointed(text, digits) ensures c != '-' {
      assert digits > 0 ==> c in text[..|text| - digits] || c == '.' || c in text[|text| - digits..];
    }
  }

  function Suffix(occurrence: nat): string {
    if occurrence > 1 then "-" + Decimal(occurrence) else ""
  }

  lemma SuffixInjective(m: nat, n: nat)
    requires m > 0 && n > 0 && Suffix(m) == Suffix(n)
    ensures m == n
  {
    assert m > 1 ==> Suffix(m)[1..] == Decimal(m);
    assert n > 1 ==> Suffix(n)[1..] == Decimal(n);
    if m > 1 { DecimalInjective(m, n); }
  }

  function Signed(negative: bool, magnitude: string): string {
    if negative then "-" + magnitude else magnitude
  }

  lemma SignedHead(negative: bool, s: string, rest: string)
    requires '-' !in s && s != ""
    ensures
      var text := Signed(negative, s) + rest;
      text != "" && (text[0] == '-' <==> negative) && (if negative then text[1..] else text) == s + rest
  {
    assert negative ==> (Signed(negative, s) + rest)[1..] == s + rest;
    assert !negative ==> (s + rest)[0] == s[0];
  }

  lemma SignedAndSuffix(one: bool, s: string, u: string, other: bool, t: string, v: string)
    requires '-' !in s && '-' !in t && s != "" && t != "" && (u == "" || u[0] == '-') && (v == "" || v[0] == '-')
    requires Signed(one, s) + u == Signed(other, t) + v
    ensures one == other && s == t && u == v
  {
    SignedHead(one, s, u);
    SignedHead(other, t, v);
    CutAtDash(s, u, t, v);
  }

  /** An amount with its occurrence after it: both can be read off. */
  lemma AmountAndSuffix(one: int, other: int, digits: nat, m: nat, n: nat)
    requires m > 0 && n > 0
    requires FormatMinorUnits(one, digits) + Suffix(m) == FormatMinorUnits(other, digits) + Suffix(n)
    ensures one == other && m == n
  {
    MagnitudeHasNoDash(Abs(one), digits);
    MagnitudeHasNoDash(Abs(other), digits);
    PaddedTextReads(Abs(one), digits);
    PaddedTextReads(Abs(other), digits);
    var s, t := Pointed(PaddedText(Abs(one), digits), digits), Pointed(PaddedText(Abs(other), digits), digits);
    SignedAndSuffix(one < 0, s, Suffix(m), other < 0, t, Suffix(n));
    SuffixInjective(m, n);
    FormatInjective(one, other, digits);
  }

  lemma CutPrefix(prefix: string, a: string, b: string, c: string, d: string)
    requires |a| == |c| && prefix + a + b == prefix + c + d
    ensures a == c && b == d
  {
    var s, t := prefix + a + b, prefix + c + d;
    assert a == s[|prefix|..|prefix| + |a|] && c == t[|prefix|..|prefix| + |a|];
    assert b == s[|prefix| + |a|..] && d == t[|prefix| + |a|..];
  }

  /** An identity, put together from the other end. */
  lemma Reassociate(prefix: string, date: string, typeName: string, amount: string, suffix: string)
    ensures prefix + date + "-" + typeName + "-" + amount + suffix
            == prefix + date + ("-" + (typeName + "-" + (amount + suffix)))
  {
  }

  lemma IdentityText(date: string, typeName: string, amount: int, digits: nat, n: nat)
    ensures Identity(date, typeName, amount, digits, n).id
         == "derived-" + date + ("-" + (typeName + "-" + (FormatMinorUnits(amount, digits) + Suffix(n))))
  {
    Reassociate("derived-", date, typeName, FormatMinorUnits(amount, digits), Suffix(n));
    assert Base(date, typeName, amount, digits) + "-" + Decimal(n)
      == Base(date, typeName, amount, digits) + ("-" + Decimal(n));
    assert Base(date, typeName, amount, digits) + "" == Base(date, typeName, amount, digits);
  }

  /**
   Identities of rows with dates of one length and types without a dash are the same
   only when date, type, amount and occurrence are.
   */
  lemma IdentitiesAreDistinct(
    date: string, typeName: string, amount: int, m: nat, date': string, typeName': string, amount': int, n: nat,
    digits: nat)
    requires |date| == |date'| && '-' !in typeName && '-' !in typeName' && m > 0 && n > 0
    requires Identity(date, typeName, amount, digits, m).id == Identity(date', typeName', amount', digits, n).id
    ensures date == date' && typeName == typeName' && amount == amount' && m == n
  {
    IdentityText(date, typeName, amount, digits, m);
    IdentityText(date', typeName', amount', digits, n);
    TextsAreDistinct(
      "derived-", date, typeName, FormatMinorUnits(amount, digits) + Suffix(m),
      date', typeName', FormatMinorUnits(amount', digits) + Suffix(n));
    AmountAndSuffix(amount, amount', digits, m, n);
  }

  lemma TextsAreDistinct(
    prefix: string, date: string, typeName: string, rest: string, date': string, typeName': string, rest': string)
    requires |date| == |date'| && '-' !in typeName && '-' !in typeName'
    requires prefix + date + ("-" + (typeName + "-" + rest)) == prefix + date' + ("-" + (typeName' + "-" + rest'))
    ensures date == date' && typeName == typeName' && rest == rest'
  {
    var a, b := typeName + "-" + rest, typeName' + "-" + rest';
    CutPrefix(prefix, date, "-" + a, date', "-" + b);
    assert ("-" + a)[1..] == a && ("-" + b)[1..] == b;
    assert a == typeName + ("-" + rest) && b == typeName' + ("-" + rest');
    CutAtDash(typeName, "-" + rest, typeName', "-" + rest');
    assert ("-" + rest)[1..] == rest && ("-" + rest')[1..] == rest';
  }
}
