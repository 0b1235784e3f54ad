/**
 Which rows of a history file are accepted: the dates are those of the calendar and are
 compared as days, the types are those the replay knows, and the first fault of a row is
 the one reported.
 */
module ImportValidation {
  import opened Calendar
  import opened Decimals
  import opened HistoryImport
  import opened Ledger
  import opened Money
  import opened Wrappers

  // ---- texts of digits --------------------------------------------------------------------------------------------

  lemma {:induction false} GreaterConcatenation(a: string, b: string, c: string, d: string)
    requires |a| == |b|
    ensures Greater(a + c, b + d) <==> Greater(a, b) || (a == b && Greater(c, d))
  {
    if a == "" {
      assert a + c == c && b + d == d;
    } else {
      GreaterConcatenation(a[1..], b[1..], c, d);
      assert (a + c)[1..] == a[1..] + c && (b + d)[1..] == b[1..] + d;
      assert a == [a[0]] + a[1..] && b == [b[0]] + b[1..];
    }
  }

  lemma OneDigit(c: char, d: char)
    requires IsDigit(c) && IsDigit(d)
    ensures Greater([c], [d]) <==> DigitValue(c) > DigitValue(d)
    ensures DigitValue(c) == DigitValue(d) ==> c == d
  {
    assert [c][1..] == "" && [d][1..] == "";
  }

  /** Texts of as many digits compare as their numbers do. */
  lemma {:induction false} DigitsCompare(a: string, b: string)
    requires |a| == |b| && AllDigits(a) && AllDigits(b)
    ensures Greater(a, b) <==> Value(a) > Value(b)
    ensures a == b <==> Value(a) == Value(b)
  {
    if a != "" {
      var k := |a| - 1;
      DigitsCompare(a[..k], b[..k]);
      OneDigit(a[k], b[k]);
      assert a == a[..k] + [a[k]] && b == b[..k] + [b[k]];
      GreaterConcatenation(a[..k], b[..k], [a[k]], [b[k]]);
    }
  }

  // ---- dates ------------------------------------------------------------------------------------------------------

  /** The month and the day that a valid date names. */
  function MonthOfDate(s: string): (month: nat)
    requires ValidDate(s)
  {
    12 * Value(s[..4]) + Value(s[5..7]) - 1
  }

  function DayOfDate(s: string): Day
    requires ValidDate(s)
  {
    MonthStart(MonthOfDate(s)) + Value(s[8..]) - 1
  }

  lemma DateParts(s: string)
    requires ValidDate(s)
    ensures s == s[..4] + ("-" + (s[5..7] + ("-" + s[8..])))
  {
  }

  lemma DatesCompareByParts(a: string, b: string)
    requires ValidDate(a) && ValidDate(b)
    ensures Greater(a, b) <==>
            || MonthOfDate(a) > MonthOfDate(b)
            || (MonthOfDate(a) == MonthOfDate(b) && Value(a[8..]) > Value(b[8..]))
    ensures a == b <==> MonthOfDate(a) == MonthOfDate(b) && Value(a[8..]) == Value(b[8..])
  {
    DateParts(a);
    DateParts(b);
    DigitsCompare(a[..4], b[..4]);
    DigitsCompare(a[5..7], b[5..7]);
    DigitsCompare(a[8..], b[8..]);
    GreaterConcatenation(a[..4], b[..4], "-" + (a[5..7] + ("-" + a[8..])), "-" + (b[5..7] + ("-" + b[8..])));
    GreaterConcatenation("-", "-", a[5..7] + ("-" + a[8..]), b[5..7] + ("-" + b[8..]));
    GreaterConcatenation(a[5..7], b[5..7], "-" + a[8..], "-" + b[8..]);
    GreaterConcatenation("-", "-", a[8..], b[8..]);
    assert !Greater("-", "-") by { assert "-"[1..] == ""; }
    hide Greater, Value, MonthLength, AllDigits;
  }

  lemma DayIsInItsMonth(s: string)
    requires ValidDate(s)
    ensures MonthStart(MonthOfDate(s)) <= DayOfDate(s) < MonthStart(MonthOfDate(s) + 1)
  {
    MonthStartStep(MonthOfDate(s));
  }

  /** A date is after another as a text exactly when its day is the later one, and one day has one date. */
  lemma DatesCompareAsDays(a: string, b: string)
    requires ValidDate(a) && ValidDate(b)
    ensures Greater(a, b) <==> DayOfDate(a) > DayOfDate(b)
    ensures a == b <==> DayOfDate(a) == DayOfDate(b)
  {
    hide Greater, Value, MonthStart, MonthLength, ValidDate, MonthOfDate;
    DatesCompareByParts(a, b);
    DayIsInItsMonth(a);
    DayIsInItsMonth(b);
    var m, n := MonthOfDate(a), MonthOfDate(b);
    if m < n { MonthStartMonotone(m + 1, n); }
    if n < m { MonthStartMonotone(n + 1, m); }
  }

  /** How many months have a year of four digits. */
  const MONTHS := 12 * 10_000

  /** A number below a hundred as two digits. */
  function TwoDigits(n: nat): string
    requires n < 100
  {
    [Digit(n / 10), Digit(n % 10)]
  }

  /** The date of a day. */
  function Written(day: Day): string
    requires MonthOf(day) < MONTHS
  {
    var month := MonthOf(day);
    TwoDigits(month / 12 / 100) + TwoDigits(month / 12 % 100) + "-" + TwoDigits(month % 12 + 1)
    + "-" + TwoDigits(DayIndex(day) + 1)
  }

  lemma TwoDigitsValue(n: nat)
    requires n < 100
    ensures |TwoDigits(n)| == 2 && AllDigits(TwoDigits(n)) && Value(TwoDigits(n)) == n
  {
    var s := TwoDigits(n);
    assert s[..1] == [Digit(n / 10)] && s[..1][..0] == "";
    assert Value(s[..1]) == n / 10;
  }

  /** Every day of a year of four digits has a date, and it is that day's. */
  lemma EveryDayHasItsDate(day: Day)
    requires MonthOf(day) < MONTHS
    ensures ValidDate(Written(day)) && DayOfDate(Written(day)) == day
  {
    hide Value, MonthStart, MonthOf, MonthLength, AllDigits, TwoDigits;
    var month := MonthOf(day);
    MonthStartStep(month);
    var high, low := TwoDigits(month / 12 / 100), TwoDigits(month / 12 % 100);
    var monthText, dayText := TwoDigits(month % 12 + 1), TwoDigits(DayIndex(day) + 1);
    TwoDigitsValue(month / 12 / 100);
    TwoDigitsValue(month / 12 % 100);
    TwoDigitsValue(month % 12 + 1);
    TwoDigitsValue(DayIndex(day) + 1);
    var s := Written(day);
    assert s[..4] == high + low && s[5..7] == monthText && s[8..] == dayText;
    YearValue(high, low);
    assert Value(s[..4]) == month / 12;
  }

  lemma YearValue(high: string, low: string)
    requires |high| == 2 && |low| == 2 && AllDigits(high) && AllDigits(low)
    ensures AllDigits(high + low) && Value(high + low) == 100 * Value(high) + Value(low)
  {
    hide Value;
    ValueOfConcatenation(high, low);
    assert Shifted(Value(high), 2) == 10 * Shifted(Value(high), 1);
  }

  /** A text is accepted as a date exactly when it is the date of a day. */
  lemma ValidDateExactlyWhen(s: string)
    ensures ValidDate(s) <==> exists day: Day :: MonthOf(day) < MONTHS && Written(day) == s
  {
    hide Written, MonthOf, DayOfDate;
    if ValidDate(s) {
      DateIsWritten(s);
      assert Written(DayOfDate(s)) == s;
    }
    forall day: Day | MonthOf(day) < MONTHS && Written(day) == s ensures ValidDate(s) { EveryDayHasItsDate(day); }
  }

  lemma DateIsWritten(s: string)
    requires ValidDate(s)
    ensures MonthOf(DayOfDate(s)) < MONTHS && Written(DayOfDate(s)) == s
  {
    hide MonthStart, MonthOf, MonthLength, Written, Greater;
    DayOfMonth(MonthOfDate(s), Value(s[8..]) - 1);
    FourDigits(s[..4]);
    EveryDayHasItsDate(DayOfDate(s));
    DatesCompareAsDays(s, Written(DayOfDate(s)));
  }

  lemma FourDigits(s: string)
    requires |s| == 4 && AllDigits(s)
    ensures Value(s) < 10_000
  {
    var three, two, one := s[..3], s[..2], s[..1];
    assert three[..2] == two && two[..1] == one && one[..0] == "";
    assert Value(one) < 10;
    assert Value(two) < 100;
    assert Value(three) < 1_000;
  }

  // ---- types ------------------------------------------------------------------------------------------------------

  /** How a type of transaction is stored. */
  function TypeName(t: TransactionType): string {
    match t
    case OpeningBalance => "opening_balance"
    case Deposit => "deposit"
    case Interest => "interest"
    case Dividend => "dividend"
    case CapitalGain => "capital_gain"
    case Purchase => "purchase"
    case LiabilityIncrease => "liability_increase"
    case Withdrawal => "withdrawal"
    case CapitalLoss => "capital_loss"
    case Fee => "fee"
    case Sale => "sale"
    case LiabilityPayment => "liability_payment"
    case ManualAdjustment => "manual_adjustment"
    case Transfer => "transfer"
    case Unsupported(name) => name
  }

  /** All types with an effect on a balance can be imported, but opening balances and transfers, and no others. */
  lemma ImportedTypesHaveEffects(name: string)
    ensures SupportedType(name) <==>
            exists t: TransactionType ::
              TypeName(t) == name && !t.Unsupported? && !t.OpeningBalance? && !t.Transfer?
    ensures forall t: TransactionType | TypeName(t) == name && !t.Unsupported? && SupportedType(name) ::
              TransactionEffect(t, 1).Ok?
  {
    if SupportedType(name) {
      var t := TypeNamed(name);
      assert TypeName(t) == name;
    }
  }

  function TypeNamed(name: string): (t: TransactionType)
    requires SupportedType(name)
    ensures TypeName(t) == name && !t.Unsupported? && !t.OpeningBalance? && !t.Transfer?
  {
    if name == "deposit" then Deposit
    else if name == "withdrawal" then Withdrawal
    else if name == "interest" then Interest
    else if name == "dividend" then Dividend
    else if name == "capital_gain" then CapitalGain
    else if name == "capital_loss" then CapitalLoss
    else if name == "fee" then Fee
    else if name == "purchase" then Purchase
    else if name == "sale" then Sale
    else if name == "manual_adjustment" then ManualAdjustment
    else if name == "liability_payment" then LiabilityPayment
    else LiabilityIncrease
  }

  // ---- rows -------------------------------------------------------------------------------------------------------

  /** What a row can be refused for. */
  ghost predicate Faulty(source: SourceRow, account: Account, code: Code)
    requires ValidDate(account.today)
  {
    match code
    case InvalidExternalId => source.externalId.Some? && |source.externalId.value| > 200
    case InvalidType => forall t: TransactionType | TypeName(t) == source.typeName ::
      t.Unsupported? || t.OpeningBalance? || t.Transfer?
    case InvalidAmount =>
      var amount := ParseInvestmentMoneyMinor(source.amount, account.digits);
      amount.Err? || amount.value == 0 || (amount.value < 0 && source.typeName != TypeName(ManualAdjustment))
    case InvalidDate => !exists day: Day :: MonthOf(day) < MONTHS && Written(day) == source.date
    case FutureDate => ValidDate(source.date) && DayOfDate(source.date) > DayOfDate(account.today)
    case InvalidText =>
      || (source.description.Some? && |source.description.value| > 200)
      || (source.notes.Some? && |source.notes.value| > 2_000)
  }

  function Rank(code: Code): nat {
    match code
    case InvalidExternalId => 0
    case InvalidType => 1
    case InvalidAmount => 2
    case InvalidDate => 3
    case FutureDate => 4
    case InvalidText => 5
  }

  /** The check that `validateAccountHistoryRow` makes for a fault. */
  predicate Refused(source: SourceRow, account: Account, code: Code) {
    match code
    case InvalidExternalId => source.externalId.Some? && |source.externalId.value| > 200
    case InvalidType => !SupportedType(source.typeName)
    case InvalidAmount =>
      var amount := ParseInvestmentMoneyMinor(source.amount, account.digits);
      amount.Err? || amount.value == 0 || (source.typeName != "manual_adjustment" && amount.value < 0)
    case InvalidDate => !ValidDate(source.date)
    case FutureDate => ValidDate(source.date) && Greater(source.date, account.today)
    case InvalidText => !ShortEnough(source.description, 200) || !ShortEnough(source.notes, 2_000)
  }

  lemma FaultsAreRefused(source: SourceRow, account: Account, code: Code)
    requires ValidDate(account.today)
    ensures Faulty(source, account, code) <==> Refused(source, account, code)
  {
    assert TypeName(ManualAdjustment) == "manual_adjustment";
    hide ValidDate, Greater, SupportedType, DayOfDate, Written, MonthOf, TransactionEffect, ParseInvestmentMoneyMinor;
    match code
    case InvalidType => ImportedTypesHaveEffects(source.typeName);
    case InvalidDate => ValidDateExactlyWhen(source.date);
    case FutureDate => if ValidDate(source.date) { DatesCompareAsDays(source.date, account.today); }
    case _ => hide TypeName;
  }

  lemma FirstRefusalIsReported(source: SourceRow, account: Account, code: Code)
    ensures
      var status := Validated(source, account).status;
      && (status.Ready? || (status.Failed? && Refused(source, account, status.code)))
      && (status.Ready? || Rank(code) < Rank(status.code) ==> !Refused(source, account, code))
  {
    hide ParseInvestmentMoneyMinor, ValidDate, Greater, SupportedType;
  }

  /** A row is ready exactly when it has no fault, and else its first fault is reported. */
  lemma ReadyExactlyWhenFaultless(source: SourceRow, account: Account)
    requires ValidDate(account.today)
    ensures
      var status := Validated(source, account).status;
      && (status.Ready? <==> forall code: Code :: !Faulty(source, account, code))
      && (status.Ready? || status.Failed?)
      && (status.Failed? ==>
            && Faulty(source, account, status.code)
            && forall code | Rank(code) < Rank(status.code) :: !Faulty(source, account, code))
  {
    hide Validated, Faulty, Refused, Rank;
    forall code: Code ensures Faulty(source, account, code) <==> Refused(source, account, code) {
      FaultsAreRefused(source, account, code);
    }
    forall code: Code
      ensures
        var status := Validated(source, account).status;
        && (status.Ready? || (status.Failed? && Refused(source, account, status.code)))
        && (status.Ready? || Rank(code) < Rank(status.code) ==> !Refused(source, account, code))
    {
      FirstRefusalIsReported(source, account, code);
    }
    FirstRefusalIsReported(source, account, InvalidType);
  }

  /** A ready row is imported as it was written; texts that are empty are left out. */
  lemma ReadyRowsSayTheSame(source: SourceRow, account: Account)
    requires Validated(source, account).status.Ready?
    ensures
      var p := Validated(source, account).status.prepared;
      && p.typeName == source.typeName && p.date == source.date && p.legacy == ""
      && Ok(p.amount) == ParseInvestmentMoneyMinor(source.amount, account.digits)
      && p.externalId == (if source.externalId.Some? then source.externalId.value else "")
      && SameText(source.description, p.description) && SameText(source.notes, p.notes)
      && p.description != Some("") && p.notes != Some("")
  {
    hide ParseInvestmentMoneyMinor, ValidDate, Greater, SupportedType;
  }

  /** What a row that is already stored is compared as: an empty text is none. */
  function WithoutEmptyTexts(stored: Stored): Stored {
    stored.(description := NormalizedText(stored.description), notes := NormalizedText(stored.notes))
  }

  /** A ready row is already imported exactly when importing it would store what is stored. */
  lemma ExistingIsWhatWouldBeStored(source: SourceRow, account: Account, stored: Stored)
    requires Validated(source, account).status.Ready?
    ensures
      var p := Validated(source, account).status.prepared;
      SameTransaction(stored, p, account.currency) <==> WithoutEmptyTexts(stored) == Kept(p, account.currency)
  {
    hide Validated;
    ReadyRowsSayTheSame(source, account);
  }
}
