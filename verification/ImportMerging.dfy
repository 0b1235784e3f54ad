/**
 Importing files that repeat the same transaction: the derived identities merge each
 occurrence of it with the stored one, so that the stored copies are as many as the
 fullest file has, whatever else the files hold.
 */
module ImportMerging {
  import opened Wrappers
  import opened Rational
  import opened Ledger
  import opened Sequences
  import opened Decimals
  import opened Money
  import opened DerivedIds
  import opened HistoryImport

  // ---- on identified rows -----------------------------------------------------------------------------------------

  /** The identifiers of the successive copies of a transaction, and the identifier earlier imports gave the first. */
  datatype Names = Names(id: nat -> string, legacy: string)

  function Copy(r: Prepared, names: Names, j: nat): Prepared {
    r.(externalId := names.id(j), legacy := if j == 1 then names.legacy else "")
  }

  ghost predicate Named(row: Row, names: Names, j: nat) {
    j > 0 && row.externalId == Some(names.id(j))
  }

  /** Rows take a name once, carry it as the identity they will be stored under, and leave the former name alone. */
  ghost predicate TakeNames(rows: seq<Row>, names: Names) {
    && names.legacy != ""
    && (forall i: nat, j: nat | i < |rows| && Named(rows[i], names, j) :: IsCopy(rows[i], names, j))
    && (forall h: nat, i: nat, j: nat | 0 <= h < i < |rows| && Named(rows[h], names, j) :: !Named(rows[i], names, j))
    && (forall i | 0 <= i < |rows| && rows[i].externalId == Some(names.legacy) :: names.legacy == names.id(1))
  }

  ghost predicate IsCopy(row: Row, names: Names, j: nat) {
    row.status.Ready? && row.status.prepared == Copy(row.status.prepared, names, j)
  }

  ghost predicate HasCopy(rows: seq<Row>, names: Names, j: nat) {
    exists i | 0 <= i < |rows| :: Named(rows[i], names, j)
  }

  function Most(m: nat, n: nat): nat {
    if m < n then n else m
  }

  /** A copy is stored under its name, or the first under the identifier that earlier imports gave it. */
  predicate Holds(table: Table, names: Names, j: nat) {
    names.id(j) in table || (j == 1 && names.legacy in table)
  }

  function HeldAs(table: Table, names: Names, j: nat): (id: string)
    requires Holds(table, names, j)
    ensures id in table
  {
    if names.id(j) in table then names.id(j) else names.legacy
  }

  /** The first copy is not stored under both of its names. */
  ghost predicate HeldOnce(table: Table, names: Names) {
    names.legacy != names.id(1) ==> !(names.legacy in table && names.id(1) in table)
  }

  /** The table holds the first p copies and no others. */
  ghost predicate Stores(table: Table, names: Names, p: nat) {
    HeldOnce(table, names) && forall j: nat | j > 0 :: Holds(table, names, j) <==> j <= p
  }

  /** A named row is classified by the stored copy, if there is one. */
  lemma NamedRowIsClassified(table: Table, identified: seq<Row>, currency: string, names: Names, i: nat, j: nat)
    requires TakeNames(identified, names) && i < |identified| && Named(identified[i], names, j)
    ensures
      var row := ClassifiedRow(identified, i, table, currency);
      && (!Holds(table, names, j) ==> row == identified[i])
      && (Holds(table, names, j) ==>
            row.status == if SameTransaction(table[HeldAs(table, names, j)], identified[i].status.prepared, currency)
                          then DuplicateExisting else ConflictingExisting)
  {
    hide SameTransaction;
    assert IsCopy(identified[i], names, j);
    SingleIdIsCountedOnce(identified, names.id(j)) by {
      forall h, k | 0 <= h < k < |identified|
        ensures !(identified[h].externalId == Some(names.id(j)) && identified[k].externalId == Some(names.id(j)))
      {
        assert Named(identified[h], names, j) ==> !Named(identified[k], names, j);
      }
    }
    assert WithinFile(identified, i) == identified[i];
  }

  /** Nothing else takes one of the names. */
  lemma OnlyCopiesTakeNames(table: Table, identified: seq<Row>, currency: string, id: string)
    requires CarryIds(identified)
    requires id in Inserted(table, ClassifiedRows(identified, table, currency), currency) && id !in table
    ensures exists i | 0 <= i < |identified| ::
              identified[i].externalId == Some(id) && ClassifiedRow(identified, i, table, currency).status.Ready?
  {
    var rows := ClassifiedRows(identified, table, currency);
    InsertedOnly(table, rows, currency, id);
    var i :| 0 <= i < |rows| && rows[i].status.Ready? && rows[i].status.prepared.externalId == id;
    assert rows[i] == identified[i] && rows[i] == ClassifiedRow(identified, i, table, currency);
  }

  /** A name that is new in the table is that of a copy of the file which the table did not hold in any way. */
  lemma NewNameIsACopy(table: Table, identified: seq<Row>, currency: string, names: Names, j: nat)
    requires CarryIds(identified) && TakeNames(identified, names) && j > 0
    requires names.id(j) in Inserted(table, ClassifiedRows(identified, table, currency), currency)
             && names.id(j) !in table
    ensures HasCopy(identified, names, j) && !Holds(table, names, j)
  {
    hide ClassifiedRow, Inserted, ClassifiedRows, TakeNames;
    OnlyCopiesTakeNames(table, identified, currency, names.id(j));
    var i :| 0 <= i < |identified|
             && identified[i].externalId == Some(names.id(j))
                && ClassifiedRow(identified, i, table, currency).status.Ready?;
    assert Named(identified[i], names, j);
    NamedRowIsClassified(table, identified, currency, names, i, j);
  }

  /** The former identifier is never new. */
  lemma FormerNameIsNotNew(table: Table, identified: seq<Row>, currency: string, names: Names)
    requires CarryIds(identified) && TakeNames(identified, names) && names.legacy != names.id(1)
    requires names.legacy in Inserted(table, ClassifiedRows(identified, table, currency), currency)
    ensures names.legacy in table
  {
    hide ClassifiedRow, Inserted, ClassifiedRows;
    if names.legacy !in table { OnlyCopiesTakeNames(table, identified, currency, names.legacy); }
  }

  /** A copy the table does not hold yet is inserted. */
  lemma NewCopyIsInserted(table: Table, identified: seq<Row>, currency: string, names: Names, i: nat, j: nat)
    requires CarryIds(identified) && TakeNames(identified, names)
    requires i < |identified| && Named(identified[i], names, j) && !Holds(table, names, j)
    ensures
      var after := Inserted(table, ClassifiedRows(identified, table, currency), currency);
      && identified[i].status.Ready? && names.id(j) in after
      && after[names.id(j)] == Kept(identified[i].status.prepared, currency)
  {
    hide Inserted, Kept, ClassifiedRow;
    assert IsCopy(identified[i], names, j);
    NamedRowIsClassified(table, identified, currency, names, i, j);
    ClassifiedAreInsertable(identified, table, currency);
    InsertedHolds(table, ClassifiedRows(identified, table, currency), currency);
    assert ClassifiedRows(identified, table, currency)[i] == identified[i];
  }

  /** After the insertions an occurrence is held when it was or the file has it, and a held one stays as it was. */
  lemma OccurrenceMerges(table: Table, identified: seq<Row>, currency: string, names: Names, j: nat)
    requires CarryIds(identified) && TakeNames(identified, names) && HeldOnce(table, names) && j > 0
    ensures
      var after := Inserted(table, ClassifiedRows(identified, table, currency), currency);
      && HeldOnce(after, names)
      && (Holds(after, names, j) <==> Holds(table, names, j) || HasCopy(identified, names, j))
      && (Holds(table, names, j) ==> after[HeldAs(after, names, j)] == table[HeldAs(table, names, j)])
      && (forall i: nat | i < |identified| && Named(identified[i], names, j) && !Holds(table, names, j) ::
            identified[i].status.Ready?
              && after[HeldAs(after, names, j)] == Kept(identified[i].status.prepared, currency))
  {
    var after := Inserted(table, ClassifiedRows(identified, table, currency), currency);
    hide Inserted, ClassifiedRows, TakeNames, Kept, HasCopy;
    ClassifiedAreInsertable(identified, table, currency);
    InsertedHolds(table, ClassifiedRows(identified, table, currency), currency);
    if names.id(j) in after && names.id(j) !in table { NewNameIsACopy(table, identified, currency, names, j); }
    if names.id(1) in after && names.id(1) !in table { NewNameIsACopy(table, identified, currency, names, 1); }
    if names.legacy in after && names.legacy != names.id(1) { FormerNameIsNotNew(table, identified, currency, names); }
    forall i: nat | i < |identified| && Named(identified[i], names, j) && !Holds(table, names, j)
      ensures identified[i].status.Ready? && names.id(j) in after
      ensures after[HeldAs(after, names, j)] == Kept(identified[i].status.prepared, currency)
    {
      NewCopyIsInserted(table, identified, currency, names, i, j);
    }
    CopyIsNamedSomewhere(identified, names, j);
  }

  lemma CopyIsNamedSomewhere(rows: seq<Row>, names: Names, j: nat)
    ensures HasCopy(rows, names, j) <==> exists i: nat :: i < |rows| && Named(rows[i], names, j)
  {
  }

  // ---- on files ---------------------------------------------------------------------------------------------------

  /** A valid row without an identifier. */
  predicate Anonymous(r: SourceRow, account: Account) {
    WithoutId(r) && Validated(r, account).status.Ready?
  }

  function AmountOf(r: SourceRow, account: Account): Int64
    requires Anonymous(r, account)
  {
    Validated(r, account).status.prepared.amount
  }

  function NamesOf(r: SourceRow, account: Account): Names
    requires Anonymous(r, account)
  {
    var amount := AmountOf(r, account);
    Names(
      (n: nat) => Identity(r.date, r.typeName, amount, account.digits, n).id,
      Identity(r.date, r.typeName, amount, account.digits, 1).legacy)
  }

  /** The copies of a row in a file are those that take its identity. */
  function CopiesIn(sources: seq<SourceRow>, r: SourceRow, account: Account): nat
    requires Anonymous(r, account)
  {
    Occurrences(sources, Base(r.date, r.typeName, AmountOf(r, account), account.digits), account.digits)
  }

  /** No row of the file claims one of the identifiers as its own. */
  ghost predicate Unclaimed(sources: seq<SourceRow>, r: SourceRow, account: Account)
    requires Anonymous(r, account)
  {
    forall i | 0 <= i < |sources| && !WithoutId(sources[i]) :: !Claims(sources[i].externalId.value, NamesOf(r, account))
  }

  /** A valid row that is the j-th of the file to take the identity of another. */
  ghost predicate Occurs(sources: seq<SourceRow>, i: nat, r: SourceRow, account: Account, j: nat)
    requires Anonymous(r, account)
  {
    && i < |sources| && Anonymous(sources[i], account)
       && BaseOf(sources[i], account.digits) == BaseOf(r, account.digits)
    && j == CopiesIn(sources[..i], r, account) + 1
  }

  ghost predicate Claims(id: string, names: Names) {
    id == names.legacy || exists n: nat | n > 0 :: id == names.id(n)
  }

  /** What the proofs use of validation. */
  lemma ValidRow(r: SourceRow, account: Account)
    requires Validated(r, account).status.Ready?
    ensures
      var p := Validated(r, account).status.prepared;
      && ParseInvestmentMoneyMinor(r.amount, account.digits) == Ok(p.amount)
      && p.date == r.date && p.typeName == r.typeName && |r.date| == 10 && ValidDate(r.date)
         && SupportedType(r.typeName)
  {
  }

  lemma SupportedTypesHaveNoDash(t: string)
    requires SupportedType(t)
    ensures '-' !in t && '.' !in t
  {
  }

  /** The identity a valid row is given, if it has none. */
  lemma AnonymousRowIsNamed(before: seq<SourceRow>, source: SourceRow, account: Account)
    requires Anonymous(source, account)
    ensures
      var occurrence := CopiesIn(before, source, account) + 1;
      var names := NamesOf(source, account);
      && Identified(before, source, account).externalId == Some(names.id(occurrence))
      && Identified(before, source, account).status
         == Ready(Copy(Validated(source, account).status.prepared, names, occurrence))
  {
    ValidRow(source, account);
    hide Validated, Greater, ValidDate, SupportedType, ParseInvestmentMoneyMinor;
  }

  /** Other rows keep the identifier they came with, if any. */
  lemma OtherRowsKeepTheirs(before: seq<SourceRow>, source: SourceRow, account: Account)
    requires !Anonymous(source, account)
    ensures Identified(before, source, account).externalId == source.externalId
  {
    if Validated(source, account).status.Ready? { ValidRow(source, account); }
  }

  lemma NamesNotEmpty(r: SourceRow, account: Account, n: nat)
    requires Anonymous(r, account)
    ensures NamesOf(r, account).id(n) != "" && NamesOf(r, account).legacy != ""
  {
    var amount := AmountOf(r, account);
    IdentityText(r.date, r.typeName, amount, account.digits, n);
    LegacyText(r.date, r.typeName, amount, account.digits);
  }

  lemma LegacyText(date: string, typeName: string, amount: int, digits: nat)
    ensures Identity(date, typeName, amount, digits, 1).legacy
            == "derived-" + date + ("-" + typeName + "-" + MinorText(amount))
  {
  }

  /** Valid rows that take the same name are of the same identity and occurrence. */
  lemma SameNameSameIdentity(a: SourceRow, b: SourceRow, m: nat, n: nat, account: Account)
    requires Anonymous(a, account) && Anonymous(b, account) && m > 0 && n > 0
    requires NamesOf(a, account).id(m) == NamesOf(b, account).id(n)
    ensures a.date == b.date && a.typeName == b.typeName && AmountOf(a, account) == AmountOf(b, account) && m == n
  {
    ValidRow(a, account);
    ValidRow(b, account);
    SupportedTypesHaveNoDash(a.typeName);
    SupportedTypesHaveNoDash(b.typeName);
    IdentitiesAreDistinct(
      a.date, a.typeName, AmountOf(a, account), m, b.date, b.typeName, AmountOf(b, account), n, account.digits);
  }

  lemma AnonymousBase(r: SourceRow, account: Account)
    requires Anonymous(r, account)
    ensures BaseOf(r, account.digits) == Some(Base(r.date, r.typeName, AmountOf(r, account), account.digits))
  {
    ValidRow(r, account);
  }

  /** A row that is not given a name takes none of those it does not claim. */
  lemma OthersTakeNoName(before: seq<SourceRow>, source: SourceRow, r: SourceRow, account: Account, n: nat)
    requires Anonymous(r, account) && !Anonymous(source, account) && n > 0
    requires !WithoutId(source) ==> !Claims(source.externalId.value, NamesOf(r, account))
    ensures Identified(before, source, account).externalId != Some(NamesOf(r, account).id(n))
    ensures Identified(before, source, account).externalId != Some(NamesOf(r, account).legacy)
  {
    hide Validated, Identified, BaseOf, Identity;
    OtherRowsKeepTheirs(before, source, account);
    NamesNotEmpty(r, account, n);
    assert Claims(NamesOf(r, account).id(n), NamesOf(r, account));
  }

  /** Valid rows of one identity have the same names. */
  lemma SameBaseSameNames(a: SourceRow, b: SourceRow, account: Account)
    requires Anonymous(a, account) && Anonymous(b, account) && BaseOf(a, account.digits) == BaseOf(b, account.digits)
    ensures a.date == b.date && a.typeName == b.typeName && AmountOf(a, account) == AmountOf(b, account)
  {
    AnonymousBase(a, account);
    AnonymousBase(b, account);
    hide Validated, BaseOf;
    SameNameSameIdentity(a, b, 1, 1, account);
  }

  /** The rows that take a name are exactly the occurrences of the identity. */
  lemma NamedExactly(sources: seq<SourceRow>, i: nat, r: SourceRow, account: Account, j: nat)
    requires Anonymous(r, account) && Unclaimed(sources, r, account) && i < |sources|
    ensures Named(Identified(sources[..i], sources[i], account), NamesOf(r, account), j)
            <==> Occurs(sources, i, r, account, j)
    ensures Occurs(sources, i, r, account, j) ==>
              Identified(sources[..i], sources[i], account).status
              == Ready(Copy(Validated(sources[i], account).status.prepared, NamesOf(r, account), j))
  {
    hide Validated, Identified, BaseOf, Identity;
    var source, row := sources[i], Identified(sources[..i], sources[i], account);
    if Anonymous(source, account) {
      AnonymousRowIsNamed(sources[..i], source, account);
      AnonymousBase(source, account);
      AnonymousBase(r, account);
      if BaseOf(source, account.digits) == BaseOf(r, account.digits) { SameBaseSameNames(source, r, account); }
      var occurrence := CopiesIn(sources[..i], source, account) + 1;
      if j > 0 && NamesOf(source, account).id(occurrence) == NamesOf(r, account).id(j) {
        SameNameSameIdentity(source, r, occurrence, j, account);
      }
    } else if j > 0 {
      OthersTakeNoName(sources[..i], source, r, account, j);
    }
  }

  // ---- the former identifier --------------------------------------------------------------------------------------

  lemma FormattedHasAPoint(amount: int, digits: nat)
    requires digits > 0
    ensures '.' in FormatMinorUnits(amount, digits)
  {
    var text := PaddedText(Abs(amount), digits);
    PaddedTextReads(Abs(amount), digits);
    assert Pointed(text, digits)[|text| - digits] == '.';
    assert Pointed(text, digits)[|text| - digits] in FormatMinorUnits(amount, digits);
  }

  lemma UnscaledIsMinorText(amount: int)
    ensures FormatMinorUnits(amount, 0) == MinorText(amount)
  {
  }

  lemma ValidDateHasNoPoint(date: string)
    requires ValidDate(date)
    ensures '.' !in date
  {
    forall i | 0 <= i < 10 ensures date[i] != '.' {
      assert i < 4 ==> date[..4][i] == date[i];
      assert 5 <= i < 7 ==> date[5..7][i - 5] == date[i];
      assert 8 <= i ==> date[8..][i - 8] == date[i];
    }
  }

  lemma LegacyHasNoPoint(date: string, typeName: string, amount: int, digits: nat)
    requires '.' !in date && '.' !in typeName
    ensures '.' !in Identity(date, typeName, amount, digits, 1).legacy
  {
    DecimalValue(Abs(amount));
    LegacyText(date, typeName, amount, digits);
    NoPointIn("derived-" + date, "-" + typeName + "-" + MinorText(amount));
  }

  lemma FormerNameHasNoPoint(r: SourceRow, account: Account)
    requires Anonymous(r, account)
    ensures '.' !in NamesOf(r, account).legacy
  {
    hide Identity, ValidDate, SupportedType;
    ValidRow(r, account);
    SupportedTypesHaveNoDash(r.typeName);
    ValidDateHasNoPoint(r.date);
    LegacyHasNoPoint(r.date, r.typeName, AmountOf(r, account), account.digits);
  }

  lemma NamesHaveAPoint(r: SourceRow, account: Account, n: nat)
    requires Anonymous(r, account) && account.digits > 0
    ensures '.' in NamesOf(r, account).id(n)
  {
    var amount := AmountOf(r, account);
    IdentityText(r.date, r.typeName, amount, account.digits, n);
    FormattedHasAPoint(amount, account.digits);
    PointIn("derived-" + r.date, r.typeName, FormatMinorUnits(amount, account.digits), Suffix(n));
  }

  /** The former identifier is the first name where amounts have no decimal places, and no derived name otherwise. */
  lemma FormerNameIsFirstOrNone(r: SourceRow, other: SourceRow, n: nat, account: Account)
    requires Anonymous(r, account) && Anonymous(other, account)
    requires NamesOf(other, account).id(n) == NamesOf(r, account).legacy
    ensures NamesOf(r, account).legacy == NamesOf(r, account).id(1)
  {
    if account.digits == 0 {
      UnscaledIsMinorText(AmountOf(r, account));
    } else {
      NamesHaveAPoint(other, account, n);
      FormerNameHasNoPoint(r, account);
    }
  }

  lemma NoPointIn(s: string, t: string)
    requires '.' !in s && '.' !in t
    ensures '.' !in s + t
  {
  }

  lemma PointIn(s: string, typeName: string, amount: string, suffix: string)
    requires '.' in amount
    ensures '.' in s + ("-" + (typeName + "-" + (amount + suffix)))
  {
    assert '.' in amount + suffix;
    assert '.' in typeName + "-" + (amount + suffix);
    assert '.' in "-" + (typeName + "-" + (amount + suffix));
  }

  lemma FormerNameIsNotTaken(sources: seq<SourceRow>, i: nat, r: SourceRow, account: Account)
    requires Anonymous(r, account) && Unclaimed(sources, r, account) && i < |sources|
    requires Identified(sources[..i], sources[i], account).externalId == Some(NamesOf(r, account).legacy)
    ensures NamesOf(r, account).legacy == NamesOf(r, account).id(1)
  {
    hide Validated, Identified, BaseOf, Identity;
    var source := sources[i];
    if Anonymous(source, account) {
      AnonymousRowIsNamed(sources[..i], source, account);
      FormerNameIsFirstOrNone(r, source, CopiesIn(sources[..i], source, account) + 1, account);
    } else {
      OthersTakeNoName(sources[..i], source, r, account, 1);
    }
  }

  // ---- counting copies --------------------------------------------------------------------------------------------

  lemma {:induction false} CountGrows(sources: seq<SourceRow>, i: nat, takes: SourceRow -> bool)
    requires i < |sources| && takes(sources[i])
    ensures CountThat(sources[..i], takes) < CountThat(sources, takes)
  {
    if i == |sources| - 1 {
      assert sources[..i] == Front(sources);
    } else {
      CountGrows(Front(sources), i, takes);
      assert Front(sources)[..i] == sources[..i];
    }
  }

  lemma EarlierCopyCountsLess(sources: seq<SourceRow>, h: nat, i: nat, takes: SourceRow -> bool)
    requires h < i <= |sources| && takes(sources[h])
    ensures CountThat(sources[..h], takes) < CountThat(sources[..i], takes)
  {
    CountGrows(sources[..i], h, takes);
    assert sources[..i][..h] == sources[..h];
  }

  lemma {:induction false} NthCopy(sources: seq<SourceRow>, j: nat, takes: SourceRow -> bool) returns (i: nat)
    requires 0 < j <= CountThat(sources, takes)
    ensures i < |sources| && takes(sources[i]) && CountThat(sources[..i], takes) + 1 == j
  {
    if j <= CountThat(Front(sources), takes) {
      i := NthCopy(Front(sources), j, takes);
      assert Front(sources)[..i] == sources[..i];
    } else {
      i := |sources| - 1;
      assert sources[..i] == Front(sources);
    }
  }

  lemma NoNameIsTakenTwice(sources: seq<SourceRow>, r: SourceRow, account: Account, h: nat, i: nat, j: nat)
    requires Anonymous(r, account) && h < i < |sources| && Occurs(sources, h, r, account, j)
    ensures !Occurs(sources, i, r, account, j)
  {
    AnonymousBase(r, account);
    hide Validated, BaseOf, Identity, CountThat;
    EarlierCopyCountsLess(
      sources, h, i, Takes(Base(r.date, r.typeName, AmountOf(r, account), account.digits), account.digits));
  }

  lemma UnclaimedFileTakesNames(sources: seq<SourceRow>, r: SourceRow, account: Account)
    requires Anonymous(r, account) && Unclaimed(sources, r, account)
    ensures TakeNames(IdentifiedAll(sources, account), NamesOf(r, account)) && CarryIds(IdentifiedAll(sources, account))
  {
    hide Validated, Identified, BaseOf, Identity, Occurs, Unclaimed, CarryIds;
    var rows, names := IdentifiedAll(sources, account), NamesOf(r, account);
    NamesNotEmpty(r, account, 1);
    IdentifiedCarryIds(sources, account);
    forall i: nat, j: nat | i < |rows| && Named(rows[i], names, j) ensures IsCopy(rows[i], names, j) {
      NamedExactly(sources, i, r, account, j);
    }
    forall h: nat, i: nat, j: nat | 0 <= h < i < |rows| && Named(rows[h], names, j) ensures !Named(rows[i], names, j) {
      NamedExactly(sources, h, r, account, j);
      NamedExactly(sources, i, r, account, j);
      NoNameIsTakenTwice(sources, r, account, h, i, j);
    }
    forall i | 0 <= i < |rows| && rows[i].externalId == Some(names.legacy) ensures names.legacy == names.id(1) {
      FormerNameIsNotTaken(sources, i, r, account);
    }
  }

  ghost predicate OccursSomewhere(sources: seq<SourceRow>, r: SourceRow, account: Account, j: nat)
    requires Anonymous(r, account)
  {
    exists i: nat :: Occurs(sources, i, r, account, j)
  }

  /**
   Committing a file merges every occurrence of an identity with the stored one: it is
   held when it was or the file has it, one that was held stays as it was, whatever the
   file says of it, and a new one is stored as the file has it.
   */
  lemma CommitMergesOccurrences(
    table: Table, sources: seq<SourceRow>, r: SourceRow, account: Account, replays: Table -> bool, j: nat)
    requires Anonymous(r, account) && Unclaimed(sources, r, account) && HeldOnce(table, NamesOf(r, account)) && j > 0
    requires Committed(table, sources, account, replays).Ok?
    ensures
      var after, names := Committed(table, sources, account, replays).value, NamesOf(r, account);
      && HeldOnce(after, names)
      && (Holds(after, names, j) <==> Holds(table, names, j) || OccursSomewhere(sources, r, account, j))
      && (Holds(table, names, j) ==> after[HeldAs(after, names, j)] == table[HeldAs(table, names, j)])
      && (forall i: nat | Occurs(sources, i, r, account, j) && !Holds(table, names, j) ::
            after[HeldAs(after, names, j)]
            == Kept(Copy(Validated(sources[i], account).status.prepared, names, j), account.currency))
  {
    hide Validated, Identified, BaseOf, Identity, Unclaimed, CarryIds, TakeNames, Kept, Inserted, ClassifiedRows;
    var identified, names := IdentifiedAll(sources, account), NamesOf(r, account);
    UnclaimedFileTakesNames(sources, r, account);
    OccurrenceMerges(table, identified, account.currency, names, j);
    CopyIsNamedSomewhere(identified, names, j);
    OccursInside(sources, r, account, j);
    forall i: nat | i < |sources|
      ensures Named(identified[i], names, j) <==> Occurs(sources, i, r, account, j)
      ensures Occurs(sources, i, r, account, j) ==>
                identified[i].status == Ready(Copy(Validated(sources[i], account).status.prepared, names, j))
    {
      NamedExactly(sources, i, r, account, j);
    }
  }

  lemma OccursInside(sources: seq<SourceRow>, r: SourceRow, account: Account, j: nat)
    requires Anonymous(r, account)
    ensures forall i: nat | Occurs(sources, i, r, account, j) :: i < |sources|
  {
  }

  /** A row conflicts, and with it the commit, exactly when the stored occurrence it should merge with is different. */
  lemma ConflictsExactlyWhen(table: Table, sources: seq<SourceRow>, i: nat, r: SourceRow, account: Account, j: nat)
    requires Anonymous(r, account) && Unclaimed(sources, r, account) && Occurs(sources, i, r, account, j)
    ensures
      var names, prepared := NamesOf(r, account), Validated(sources[i], account).status.prepared;
      ClassifiedRow(IdentifiedAll(sources, account), i, table, account.currency).status.ConflictingExisting?
      <==> Holds(table, names, j) && !SameTransaction(table[HeldAs(table, names, j)], prepared, account.currency)
  {
    var names := NamesOf(r, account);
    NamedExactly(sources, i, r, account, j);
    UnclaimedFileTakesNames(sources, r, account);
    hide Validated, Identified, BaseOf, Identity, Unclaimed, CarryIds, TakeNames, ClassifiedRow;
    NamedRowIsClassified(table, IdentifiedAll(sources, account), account.currency, names, i, j);
  }

  // ---- counting stored copies -------------------------------------------------------------------------------------

  /** Every row that takes the identity is valid. */
  ghost predicate CopiesValid(sources: seq<SourceRow>, r: SourceRow, account: Account)
    requires Anonymous(r, account)
  {
    forall i | 0 <= i < |sources| && BaseOf(sources[i], account.digits) == BaseOf(r, account.digits) ::
      Anonymous(sources[i], account)
  }

  lemma OccurrencesAreTheFirst(sources: seq<SourceRow>, r: SourceRow, account: Account, j: nat)
    requires Anonymous(r, account) && CopiesValid(sources, r, account)
    ensures OccursSomewhere(sources, r, account, j) <==> 0 < j <= CopiesIn(sources, r, account)
  {
    hide Anonymous, BaseOf, Occurs, CountThat, CopiesValid;
    if 0 < j <= CopiesIn(sources, r, account) { NthOccurs(sources, r, account, j); }
    forall i: nat | Occurs(sources, i, r, account, j) ensures 0 < j <= CopiesIn(sources, r, account) {
      OccurrenceIsCounted(sources, i, r, account, j);
    }
  }

  lemma NthOccurs(sources: seq<SourceRow>, r: SourceRow, account: Account, j: nat)
    requires Anonymous(r, account) && CopiesValid(sources, r, account) && 0 < j <= CopiesIn(sources, r, account)
    ensures OccursSomewhere(sources, r, account, j)
  {
    AnonymousBase(r, account);
    hide Validated, BaseOf, Identity, CountThat;
    var takes := Takes(Base(r.date, r.typeName, AmountOf(r, account), account.digits), account.digits);
    var i := NthCopy(sources, j, takes);
    assert Occurs(sources, i, r, account, j);
  }

  lemma OccurrenceIsCounted(sources: seq<SourceRow>, i: nat, r: SourceRow, account: Account, j: nat)
    requires Anonymous(r, account) && Occurs(sources, i, r, account, j)
    ensures 0 < j <= CopiesIn(sources, r, account)
  {
    AnonymousBase(r, account);
    hide Validated, BaseOf, Identity, CountThat;
    CountGrows(sources, i, Takes(Base(r.date, r.typeName, AmountOf(r, account), account.digits), account.digits));
  }

  /**
   Committing a file with n copies of a row leaves as many as there were before or as
   the file has, whichever is more.
   */
  lemma CommitMergesCopies(
    table: Table, sources: seq<SourceRow>, r: SourceRow, account: Account, replays: Table -> bool, before: nat)
    requires Anonymous(r, account) && Unclaimed(sources, r, account) && CopiesValid(sources, r, account)
    requires Stores(table, NamesOf(r, account), before)
    requires Committed(table, sources, account, replays).Ok?
    ensures Stores(Committed(table, sources, account, replays).value, NamesOf(r, account),
                   Most(before, CopiesIn(sources, r, account)))
  {
    hide Committed, Anonymous, Unclaimed, CopiesValid, OccursSomewhere, Occurs, Holds, HeldOnce, Validated, NamesOf;
    var after, names := Committed(table, sources, account, replays).value, NamesOf(r, account);
    forall j: nat | j > 0 ensures Holds(after, names, j) <==> j <= Most(before, CopiesIn(sources, r, account)) {
      CommitMergesOccurrences(table, sources, r, account, replays, j);
      OccurrencesAreTheFirst(sources, r, account, j);
    }
    CommitMergesOccurrences(table, sources, r, account, replays, 1);
  }

  /**
   Importing one file with k copies of a transaction and then another with m stores
   max(k, m) of them, counting those stored before, a row under its former name among them.
   */
  lemma OverlappingImportsMerge(
    table: Table, first: seq<SourceRow>, second: seq<SourceRow>, r: SourceRow, account: Account, replays: Table -> bool,
    before: nat)
    requires Anonymous(r, account) && Stores(table, NamesOf(r, account), before)
    requires Unclaimed(first, r, account) && CopiesValid(first, r, account)
    requires Unclaimed(second, r, account) && CopiesValid(second, r, account)
    requires Committed(table, first, account, replays).Ok?
    requires Committed(Committed(table, first, account, replays).value, second, account, replays).Ok?
    ensures
      var k, m := CopiesIn(first, r, account), CopiesIn(second, r, account);
      Stores(Committed(Committed(table, first, account, replays).value, second, account, replays).value,
             NamesOf(r, account), Most(before, Most(k, m)))
  {
    hide Committed, Anonymous, Unclaimed, CopiesValid, Stores, NamesOf;
    var k := CopiesIn(first, r, account);
    CommitMergesCopies(table, first, r, account, replays, before);
    CommitMergesCopies(Committed(table, first, account, replays).value, second, r, account, replays, Most(before, k));
  }

  // ---- files of nothing but copies --------------------------------------------------------------------------------

  function CopiesOf(r: SourceRow, n: nat): seq<SourceRow> {
    seq(n, _ => r)
  }

  lemma {:induction false} CountOfCopies(r: SourceRow, n: nat, takes: SourceRow -> bool)
    requires takes(r)
    ensures CountThat(CopiesOf(r, n), takes) == n
  {
    if n > 0 {
      assert Front(CopiesOf(r, n)) == CopiesOf(r, n - 1);
      CountOfCopies(r, n - 1, takes);
    }
  }

  lemma CopiesAreUnclaimed(r: SourceRow, account: Account, n: nat)
    requires Anonymous(r, account)
    ensures Unclaimed(CopiesOf(r, n), r, account) && CopiesValid(CopiesOf(r, n), r, account)
    ensures CopiesIn(CopiesOf(r, n), r, account) == n
  {
    hide Validated, BaseOf, Identity;
    AnonymousBase(r, account);
    CountOfCopies(r, n, Takes(Base(r.date, r.typeName, AmountOf(r, account), account.digits), account.digits));
  }

  /** All stored copies are the transaction. */
  ghost predicate StoresOnly(table: Table, names: Names, r: Prepared, currency: string) {
    forall j: nat | j > 0 && Holds(table, names, j) :: SameTransaction(table[HeldAs(table, names, j)], r, currency)
  }

  lemma CopyOccurs(r: SourceRow, account: Account, n: nat, i: nat)
    requires Anonymous(r, account) && i < n
    ensures Occurs(CopiesOf(r, n), i, r, account, i + 1)
  {
    AnonymousBase(r, account);
    hide Validated, BaseOf, Identity;
    assert CopiesOf(r, n)[..i] == CopiesOf(r, i);
    CountOfCopies(r, i, Takes(Base(r.date, r.typeName, AmountOf(r, account), account.digits), account.digits));
  }

  lemma CopiesCommit(table: Table, r: SourceRow, account: Account, n: nat, replays: Table -> bool)
    requires Anonymous(r, account) && forall t :: replays(t)
    requires StoresOnly(table, NamesOf(r, account), Validated(r, account).status.prepared, account.currency)
    ensures Committed(table, CopiesOf(r, n), account, replays).Ok?
  {
    hide Anonymous, Validated, Identified, BaseOf, Identity, Unclaimed, CopiesValid, Occurs, ClassifiedRow,
      SameTransaction;
    var sources := CopiesOf(r, n);
    CopiesAreUnclaimed(r, account, n);
    forall i: nat | i < n
      ensures !ClassifiedRow(IdentifiedAll(sources, account), i, table, account.currency).status.ConflictingExisting?
    {
      CopyOccurs(r, account, n, i);
      ConflictsExactlyWhen(table, sources, i, r, account, i + 1);
    }
  }

  lemma KeptIsTheSame(copy: Prepared, r: Prepared, currency: string)
    requires copy == r.(externalId := copy.externalId, legacy := copy.legacy)
    ensures SameTransaction(Kept(copy, currency), r, currency)
  {
  }

  lemma CopiesStayTheSame(table: Table, r: SourceRow, account: Account, n: nat, replays: Table -> bool)
    requires Anonymous(r, account) && HeldOnce(table, NamesOf(r, account))
    requires StoresOnly(table, NamesOf(r, account), Validated(r, account).status.prepared, account.currency)
    requires Committed(table, CopiesOf(r, n), account, replays).Ok?
    ensures StoresOnly(Committed(table, CopiesOf(r, n), account, replays).value, NamesOf(r, account),
                       Validated(r, account).status.prepared, account.currency)
  {
    var sources, names, p := CopiesOf(r, n), NamesOf(r, account), Validated(r, account).status.prepared;
    hide Committed, Anonymous, Validated, Unclaimed, CopiesValid, Occurs, HeldOnce, SameTransaction, Kept, NamesOf,
      Holds;
    var after := Committed(table, sources, account, replays).value;
    CopiesAreUnclaimed(r, account, n);
    forall j: nat | j > 0 && Holds(after, names, j)
      ensures SameTransaction(after[HeldAs(after, names, j)], p, account.currency)
    {
      CommitMergesOccurrences(table, sources, r, account, replays, j);
      if !Holds(table, names, j) {
        var i: nat :| Occurs(sources, i, r, account, j);
        OccursInside(sources, r, account, j);
        assert sources[i] == r;
        KeptIsTheSame(Copy(p, names, j), p, account.currency);
      }
    }
  }

  /** From an empty table: importing k identical rows and then m stores exactly max(k, m) of them. */
  lemma IdenticalRowsMerge(r: SourceRow, account: Account, k: nat, m: nat, replays: Table -> bool)
    requires Anonymous(r, account) && forall t :: replays(t)
    ensures
      var names, p := NamesOf(r, account), Validated(r, account).status.prepared;
      var first := Committed(map[], CopiesOf(r, k), account, replays);
      && first.Ok?
      && var second := Committed(first.value, CopiesOf(r, m), account, replays);
         second.Ok? && Stores(second.value, names, Most(k, m)) && StoresOnly(second.value, names, p, account.currency)
  {
    hide Committed, Anonymous, Validated, Unclaimed, CopiesValid, Occurs, SameTransaction, Kept, NamesOf;
    CopiesAreUnclaimed(r, account, k);
    CopiesAreUnclaimed(r, account, m);
    CopiesCommit(map[], r, account, k, replays);
    CopiesStayTheSame(map[], r, account, k, replays);
    CommitMergesCopies(map[], CopiesOf(r, k), r, account, replays, 0);
    var first := Committed(map[], CopiesOf(r, k), account, replays).value;
    CopiesCommit(first, r, account, m, replays);
    CopiesStayTheSame(first, r, account, m, replays);
    OverlappingImportsMerge(map[], CopiesOf(r, k), CopiesOf(r, m), r, account, replays, 0);
  }

  // ---- what does not renumber -------------------------------------------------------------------------------------

  /** Correcting a row without touching its date, type and amount renumbers no other row. */
  lemma CorrectionsDoNotRenumber(before: seq<SourceRow>, corrected: seq<SourceRow>, source: SourceRow, account: Account)
    requires |before| == |corrected|
    requires forall i | 0 <= i < |before| :: BaseOf(before[i], account.digits) == BaseOf(corrected[i], account.digits)
    ensures Identified(before, source, account) == Identified(corrected, source, account)
  {
    if WithoutId(source) && ParseInvestmentMoneyMinor(source.amount, account.digits).Ok? {
      var amount := ParseInvestmentMoneyMinor(source.amount, account.digits).value;
      SameCount(before, corrected, Takes(Base(source.date, source.typeName, amount, account.digits), account.digits));
    }
  }

  lemma {:induction false} SameCount(one: seq<SourceRow>, other: seq<SourceRow>, takes: SourceRow -> bool)
    requires |one| == |other| && forall i | 0 <= i < |one| :: takes(one[i]) == takes(other[i])
    ensures CountThat(one, takes) == CountThat(other, takes)
  {
    if one != [] { SameCount(Front(one), Front(other), takes); }
  }
}
