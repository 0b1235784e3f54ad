/**
 Importing the history of an account (`account_history_import.go`): rows are validated,
 given identities, compared with the file and with what is stored, and inserted.
 Identifiers are taken after trimming.
 */
module HistoryImport {
  import opened Calendar
  import opened Wrappers
  import opened Ledger
  import opened Sequences
  import opened Decimals
  import opened Money
  import opened DerivedIds

  datatype SourceRow = SourceRow(
    externalId: Option<string>, typeName: string, amount: string, date: string,
    description: Option<string>, notes: Option<string>)

  datatype Prepared = Prepared(
    externalId: string, legacy: string, typeName: string, amount: Int64, date: string,
    description: Option<string>, notes: Option<string>)

  datatype Code = InvalidExternalId | InvalidType | InvalidAmount | InvalidDate | FutureDate | InvalidText

  datatype Status = Ready(prepared: Prepared) | Failed(code: Code) | DuplicateInFile | DuplicateExisting
    | ConflictingExisting

  datatype Row = Row(externalId: Option<string>, status: Status)

  /** A transaction of the account that has an external identifier; the table is keyed by it. */
  datatype Stored = Stored(
    typeName: string, amount: Int64, currency: string, date: string, description: Option<string>, notes: Option<string>)

  type Table = map<string, Stored>

  /** What an import depends on besides the file and the table. */
  datatype Account = Account(currency: string, digits: nat, today: string)

  // ---- one row ----------------------------------------------------------------------------------------------------

  /** The table `accountHistoryTypes`. */
  predicate SupportedType(t: string) {
    t in {"deposit", "withdrawal", "interest", "dividend", "capital_gain", "capital_loss", "fee", "purchase", "sale",
          "manual_adjustment", "liability_payment", "liability_increase"}
  }

  /** A calendar date written YYYY-MM-DD. */
  predicate ValidDate(s: string) {
    && |s| == 10 && s[4] == '-' && s[7] == '-'
    && AllDigits(s[..4]) && AllDigits(s[5..7]) && AllDigits(s[8..])
    && 1 <= Value(s[5..7]) <= 12 && 1 <= Value(s[8..]) <= MonthLength(12 * Value(s[..4]) + Value(s[5..7]) - 1)
  }

  predicate Greater(a: string, b: string) {
    if b == "" then a != ""
    else if a == "" then false
    else if a[0] == b[0] then Greater(a[1..], b[1..])
    else a[0] > b[0]
  }

  predicate ShortEnough(text: Option<string>, maximum: nat) {
    text.None? || |text.value| <= maximum
  }

  function NormalizedText(text: Option<string>): Option<string> {
    if text == Some("") then None else text
  }

  /** `validateAccountHistoryRow`. */
  function Validated(source: SourceRow, account: Account): Row {
    var amount := ParseInvestmentMoneyMinor(source.amount, account.digits);
    if source.externalId.Some? && |source.externalId.value| > 200 then Row(source.externalId, Failed(InvalidExternalId))
    else if !SupportedType(source.typeName) then Row(source.externalId, Failed(InvalidType))
    else if amount.Err? || amount.value == 0 || (source.typeName != "manual_adjustment" && amount.value < 0) then
      Row(source.externalId, Failed(InvalidAmount))
    else if !ValidDate(source.date) then Row(source.externalId, Failed(InvalidDate))
    else if Greater(source.date, account.today) then Row(source.externalId, Failed(FutureDate))
    else if !ShortEnough(source.description, 200) || !ShortEnough(source.notes, 2000)
      then Row(source.externalId, Failed(InvalidText))
    else
      var externalId := if source.externalId.Some? then source.externalId.value else "";
      Row(source.externalId, Ready(Prepared(
        externalId, "", source.typeName, amount.value, source.date, NormalizedText(source.description),
        NormalizedText(source.notes))))
  }

  // ---- identities -------------------------------------------------------------------------------------------------

  predicate WithoutId(source: SourceRow) {
    source.externalId.None? || source.externalId.value == ""
  }

  /**
   The identity a row takes an occurrence of: any row without an identifier whose amount
   can be read, valid or not.
   */
  function BaseOf(source: SourceRow, digits: nat): Option<string> {
    var amount := ParseInvestmentMoneyMinor(source.amount, digits);
    if WithoutId(source) && amount.Ok? then Some(Base(source.date, source.typeName, amount.value, digits)) else None
  }

  function Takes(base: string, digits: nat): SourceRow -> bool {
    (source: SourceRow) => BaseOf(source, digits) == Some(base)
  }

  function CountThat(sources: seq<SourceRow>, takes: SourceRow -> bool): nat {
    if sources == [] then 0 else CountThat(Front(sources), takes) + if takes(Last(sources)) then 1 else 0
  }

  /** How many rows of a file take an identity. */
  function Occurrences(sources: seq<SourceRow>, base: string, digits: nat): nat {
    CountThat(sources, Takes(base, digits))
  }

  /** The identity that a row which follows others takes, whether or not it is valid. */
  function Numbered(before: seq<SourceRow>, source: SourceRow, digits: nat): Option<DerivedId> {
    var amount := ParseInvestmentMoneyMinor(source.amount, digits);
    if WithoutId(source) && amount.Ok? then
      var base := Base(source.date, source.typeName, amount.value, digits);
      Some(Identity(source.date, source.typeName, amount.value, digits, Occurrences(before, base, digits) + 1))
    else None
  }

  /** Only a valid row is given the identity it takes. */
  function WithIdentity(row: Row, identity: Option<DerivedId>): Row {
    if identity.Some? && row.status.Ready? then
      Row(Some(identity.value.id),
          Ready(row.status.prepared.(externalId := identity.value.id, legacy := identity.value.legacy)))
    else row
  }

  /** A row that follows others, after it has been validated and, if it needs one, given an identity. */
  function Identified(before: seq<SourceRow>, source: SourceRow, account: Account): Row {
    WithIdentity(Validated(source, account), Numbered(before, source, account.digits))
  }

  function IdentifiedAll(sources: seq<SourceRow>, account: Account): (rows: seq<Row>)
    ensures |rows| == |sources|
  {
    seq(|sources|, i requires 0 <= i < |sources| => Identified(sources[..i], sources[i], account))
  }

  function CountId(rows: seq<Row>, id: string): nat {
    if rows == [] then 0 else CountId(Front(rows), id) + if Last(rows).externalId == Some(id) then 1 else 0
  }

  /** A row of the file when its identifier occurs again in it. */
  function WithinFile(rows: seq<Row>, i: nat): Row
    requires i < |rows|
  {
    if rows[i].externalId.Some? && CountId(rows, rows[i].externalId.value) > 1
    then rows[i].(status := DuplicateInFile) else rows[i]
  }

  // ---- what is stored ---------------------------------------------------------------------------------------------

  function Found(table: Table, p: Prepared): Option<Stored> {
    if p.externalId in table then Some(table[p.externalId])
    else if p.legacy != "" && p.legacy in table then Some(table[p.legacy])
    else None
  }

  /** `nullStringEquals`. */
  predicate SameText(stored: Option<string>, expected: Option<string>) {
    if expected.None? then stored.None? || stored.value == "" else stored == expected
  }

  predicate SameTransaction(stored: Stored, p: Prepared, currency: string) {
    && stored.typeName == p.typeName && stored.amount == p.amount && stored.currency == currency
       && stored.date == p.date
    && SameText(stored.description, p.description) && SameText(stored.notes, p.notes)
  }

  function AgainstTable(row: Row, table: Table, currency: string): Row {
    if !row.status.Ready? then row
    else
      var found := Found(table, row.status.prepared);
      if found.None? then row
      else if SameTransaction(found.value, row.status.prepared, currency) then row.(status := DuplicateExisting)
      else row.(status := ConflictingExisting)
  }

  function ClassifiedRow(identified: seq<Row>, i: nat, table: Table, currency: string): Row
    requires i < |identified|
  {
    AgainstTable(WithinFile(identified, i), table, currency)
  }

  function ClassifiedRows(identified: seq<Row>, table: Table, currency: string): (rows: seq<Row>)
    ensures |rows| == |identified|
  {
    seq(|identified|, i requires 0 <= i < |identified| => ClassifiedRow(identified, i, table, currency))
  }

  // ---- the methods ------------------------------------------------------------------------------------------------

  /** The occurrences counted so far are the counter's. */
  ghost predicate CountsOccurrences(counts: map<string, nat>, sources: seq<SourceRow>, digits: nat) {
    forall base :: CountOf(counts, base) == Occurrences(sources, base, digits)
  }

  /** What the first loop does about identities: invalid rows take an occurrence too. */
  method NumberRow(derived: DerivedExternalIds, ghost before: seq<SourceRow>, source: SourceRow, digits: nat)
    returns (identity: Option<DerivedId>)
    requires CountsOccurrences(derived.counts, before, digits)
    modifies derived
    ensures CountsOccurrences(derived.counts, before + [source], digits)
    ensures identity == Numbered(before, source, digits)
  {
    assert Front(before + [source]) == before && Last(before + [source]) == source;
    if !WithoutId(source) { return None; }
    var amount := ParseInvestmentMoneyMinor(source.amount, digits);
    if amount.Err? { return None; }
    var next := derived.Next(source.date, source.typeName, amount.value, digits);
    return Some(next);
  }

  method IdentifyRows(sources: seq<SourceRow>, account: Account) returns (rows: seq<Row>)
    ensures rows == IdentifiedAll(sources, account)
  {
    rows := [];
    var derived := new DerivedExternalIds();
    for i := 0 to |sources|
      invariant rows == IdentifiedAll(sources[..i], account)
      invariant CountsOccurrences(derived.counts, sources[..i], account.digits)
    {
      var identity := NumberRow(derived, sources[..i], sources[i], account.digits);
      var row := WithIdentity(Validated(sources[i], account), identity);
      IdentifiedOneMore(sources[..i], sources[i], account);
      assert sources[..i + 1] == sources[..i] + [sources[i]];
      rows := rows + [row];
    }
    assert sources[..|sources|] == sources;
  }

  lemma IdentifiedOneMore(before: seq<SourceRow>, source: SourceRow, account: Account)
    ensures IdentifiedAll(before + [source], account)
            == IdentifiedAll(before, account) + [Identified(before, source, account)]
  {
    var sources := before + [source];
    forall i | 0 <= i < |before| ensures sources[..i] == before[..i] {}
    assert sources[..|before|] == before;
  }

  method CountIds(rows: seq<Row>) returns (counts: map<string, nat>)
    ensures forall id :: CountOf(counts, id) == CountId(rows, id)
  {
    counts := map[];
    for i := 0 to |rows|
      invariant forall id :: CountOf(counts, id) == CountId(rows[..i], id)
    {
      assert Front(rows[..i + 1]) == rows[..i] && Last(rows[..i + 1]) == rows[i];
      if rows[i].externalId.Some? {
        counts := counts[rows[i].externalId.value := CountOf(counts, rows[i].externalId.value) + 1];
      }
    }
    assert rows[..|rows|] == rows;
  }

  /** The second and third loop of `classifyAccountHistory`. */
  method CompareRows(identified: seq<Row>, table: Table, currency: string) returns (rows: seq<Row>)
    ensures rows == ClassifiedRows(identified, table, currency)
  {
    rows := identified;
    var counts := CountIds(rows);
    for i := 0 to |rows|
      invariant |rows| == |identified|
      invariant forall j | 0 <= j < |rows| :: rows[j] == if j < i then WithinFile(identified, j) else identified[j]
    {
      if rows[i].externalId.Some? && CountOf(counts, rows[i].externalId.value) > 1 {
        rows := rows[i := rows[i].(status := DuplicateInFile)];
      }
    }
    ghost var within := rows;
    for i := 0 to |rows|
      invariant |rows| == |identified|
      invariant forall j | 0 <= j < |rows| :: rows[j] == if j < i then AgainstTable(within[j], table, currency)
                else within[j]
    {
      rows := rows[i := AgainstTable(rows[i], table, currency)];
    }
  }

  /** `classifyAccountHistory`. */
  method ClassifyAccountHistory(sources: seq<SourceRow>, table: Table, account: Account) returns (rows: seq<Row>)
    ensures rows == ClassifiedRows(IdentifiedAll(sources, account), table, account.currency)
  {
    var identified := IdentifyRows(sources, account);
    rows := CompareRows(identified, table, account.currency);
  }

  datatype ImportError = Conflict | BalanceRange

  function Kept(p: Prepared, currency: string): Stored {
    Stored(p.typeName, p.amount, currency, p.date, p.description, p.notes)
  }

  /** The table with every ready row inserted. */
  function Inserted(table: Table, rows: seq<Row>, currency: string): Table {
    if rows == [] then table
    else
      var before := Inserted(table, Front(rows), currency);
      if Last(rows).status.Ready?
        then before[Last(rows).status.prepared.externalId := Kept(Last(rows).status.prepared, currency)]
      else before
  }

  ghost predicate Conflicts(rows: seq<Row>) {
    exists i | 0 <= i < |rows| :: rows[i].status.ConflictingExisting?
  }

  ghost function CommittedRows(
    table: Table, identified: seq<Row>, currency: string, replays: Table -> bool): Result<Table, ImportError>
  {
    var rows := ClassifiedRows(identified, table, currency);
    if Conflicts(rows) then Err(Conflict)
    else
      var after := Inserted(table, rows, currency);
      if replays(after) then Ok(after) else Err(ImportError.BalanceRange)
  }

  /** `Commit`; `replays` says whether the balance can be replayed from a table. */
  ghost function Committed(
    table: Table, sources: seq<SourceRow>, account: Account, replays: Table -> bool): Result<Table, ImportError>
  {
    CommittedRows(table, IdentifiedAll(sources, account), account.currency, replays)
  }

  // ---- insertions never collide -----------------------------------------------------------------------------------

  /** The rows to insert have identifiers that are neither stored nor repeated. */
  ghost predicate Insertable(table: Table, rows: seq<Row>) {
    && (forall i | 0 <= i < |rows| && rows[i].status.Ready? :: rows[i].status.prepared.externalId !in table)
    && (forall i, j | 0 <= i < j < |rows| && rows[i].status.Ready? && rows[j].status.Ready? ::
          rows[i].status.prepared.externalId != rows[j].status.prepared.externalId)
  }

  /** Every ready row carries the identifier it will be stored under. */
  ghost predicate CarryIds(rows: seq<Row>) {
    forall i | 0 <= i < |rows|
      && rows[i].status.Ready? :: rows[i].externalId == Some(rows[i].status.prepared.externalId)
  }

  lemma IdentifiedCarryIds(sources: seq<SourceRow>, account: Account)
    ensures CarryIds(IdentifiedAll(sources, account))
  {
    forall i | 0 <= i < |sources| && IdentifiedAll(sources, account)[i].status.Ready?
      ensures
        var row := IdentifiedAll(sources, account)[i];
        row.externalId == Some(row.status.prepared.externalId)
    {
      IdentifiedCarriesId(sources[..i], sources[i], account);
    }
  }

  lemma ValidatedKeepsId(source: SourceRow, account: Account)
    ensures
      var row := Validated(source, account);
      && row.externalId == source.externalId
      && (row.status.Ready? ==>
            ParseInvestmentMoneyMinor(source.amount, account.digits).Ok?
            && (!WithoutId(source) ==> row.status.prepared.externalId == source.externalId.value))
  {
    hide ParseInvestmentMoneyMinor, ValidDate, Greater, SupportedType;
  }

  lemma IdentifiedCarriesId(before: seq<SourceRow>, source: SourceRow, account: Account)
    ensures
      var row := Identified(before, source, account);
      row.status.Ready? ==> row.externalId == Some(row.status.prepared.externalId)
  {
    hide Validated, ParseInvestmentMoneyMinor, Identity, Base;
    ValidatedKeepsId(source, account);
    var row, identity := Validated(source, account), Numbered(before, source, account.digits);
    if row.status.Ready? { assert identity.None? <==> !WithoutId(source); }
  }

  lemma {:induction false} CountOfOccurrence(rows: seq<Row>, i: nat, id: string)
    requires i < |rows| && rows[i].externalId == Some(id)
    ensures CountId(rows, id) > 0
  {
    if i < |rows| - 1 { CountOfOccurrence(Front(rows), i, id); }
  }

  lemma {:induction false} RepeatedIdIsCounted(rows: seq<Row>, i: nat, j: nat, id: string)
    requires i < j < |rows| && rows[i].externalId == Some(id) && rows[j].externalId == Some(id)
    ensures CountId(rows, id) > 1
  {
    if j == |rows| - 1 {
      CountOfOccurrence(Front(rows), i, id);
    } else {
      RepeatedIdIsCounted(Front(rows), i, j, id);
    }
  }

  lemma {:induction false} SingleIdIsCountedOnce(rows: seq<Row>, id: string)
    requires forall i, j | 0 <= i < j < |rows| :: !(rows[i].externalId == Some(id) && rows[j].externalId == Some(id))
    ensures CountId(rows, id) <= 1
  {
    if rows != [] {
      SingleIdIsCountedOnce(Front(rows), id);
      if Last(rows).externalId == Some(id) {
        AbsentIdIsNotCounted(Front(rows), id);
      }
    }
  }

  lemma {:induction false} AbsentIdIsNotCounted(rows: seq<Row>, id: string)
    requires forall i | 0 <= i < |rows| :: rows[i].externalId != Some(id)
    ensures CountId(rows, id) == 0
  {
    if rows != [] { AbsentIdIsNotCounted(Front(rows), id); }
  }

  lemma ClassifiedAreInsertable(identified: seq<Row>, table: Table, currency: string)
    requires CarryIds(identified)
    ensures Insertable(table, ClassifiedRows(identified, table, currency))
  {
    var rows := ClassifiedRows(identified, table, currency);
    assert forall i | 0 <= i < |rows| && rows[i].status.Ready? :: rows[i] == identified[i];
    forall i, j | 0 <= i < j < |rows| && rows[i].status.Ready? && rows[j].status.Ready?
      ensures rows[i].status.prepared.externalId != rows[j].status.prepared.externalId
    {
      if rows[i].status.prepared.externalId == rows[j].status.prepared.externalId {
        RepeatedIdIsCounted(identified, i, j, rows[i].status.prepared.externalId);
      }
    }
  }

  /** What is in the table after insertable rows have been inserted. */
  lemma {:induction false} InsertedHolds(table: Table, rows: seq<Row>, currency: string)
    requires Insertable(table, rows)
    ensures
      var after := Inserted(table, rows, currency);
      && (forall id | id in table :: id in after && after[id] == table[id])
      && (forall i | 0 <= i < |rows| && rows[i].status.Ready? ::
            rows[i].status.prepared.externalId in after
            && after[rows[i].status.prepared.externalId] == Kept(rows[i].status.prepared, currency))
  {
    if rows != [] {
      InsertedHolds(table, Front(rows), currency);
      assert forall i | 0 <= i < |rows| - 1 :: Front(rows)[i] == rows[i];
    }
  }

  lemma {:induction false} InsertedOnly(table: Table, rows: seq<Row>, currency: string, id: string)
    requires id in Inserted(table, rows, currency) && id !in table
    ensures exists i | 0 <= i < |rows| :: rows[i].status.Ready? && rows[i].status.prepared.externalId == id
  {
    if Last(rows).status.Ready? && Last(rows).status.prepared.externalId == id {
      assert rows[|rows| - 1].status.Ready?;
    } else {
      InsertedOnly(table, Front(rows), currency, id);
      var i :| 0 <= i < |Front(rows)| && Front(rows)[i].status.Ready?
        && Front(rows)[i].status.prepared.externalId == id;
      assert rows[i].status.Ready?;
    }
  }

  function ReadyRows(rows: seq<Row>): nat {
    if rows == [] then 0 else ReadyRows(Front(rows)) + if Last(rows).status.Ready? then 1 else 0
  }

  class Transactions {
    var table: Table

    constructor (table: Table)
      ensures this.table == table
    {
      this.table := table;
    }

    /** The table refuses an identifier that is already stored. */
    method Insert(p: Prepared, currency: string)
      requires p.externalId !in table
      modifies this
      ensures table == old(table)[p.externalId := Kept(p, currency)]
    {
      table := table[p.externalId := Kept(p, currency)];
    }

    /** The insertions of `Commit`: none is ever refused. */
    method InsertReady(rows: seq<Row>, currency: string) returns (imported: nat)
      requires Insertable(table, rows)
      modifies this
      ensures table == Inserted(old(table), rows, currency) && imported == ReadyRows(rows)
    {
      imported := 0;
      for i := 0 to |rows|
        invariant imported == ReadyRows(rows[..i])
        invariant table == Inserted(old(table), rows[..i], currency)
      {
        assert Front(rows[..i + 1]) == rows[..i] && Last(rows[..i + 1]) == rows[i];
        if rows[i].status.Ready? {
          NextIsNew(old(table), rows, i, currency);
          Insert(rows[i].status.prepared, currency);
          imported := imported + 1;
        }
      }
      assert rows[..|rows|] == rows;
    }

    /** `Commit`: all or nothing. */
    method Commit(
      sources: seq<SourceRow>, account: Account, replays: Table -> bool)
      returns (result: Result<nat, ImportError>)
      modifies this
      ensures match Committed(old(table), sources, account, replays)
              case Ok(after) =>
                table == after
                && result == Ok(ReadyRows(ClassifiedRows(IdentifiedAll(sources, account), old(table),
                   account.currency)))
              case Err(e) => result == Err(e) && table == old(table)
    {
      var identified := IdentifyRows(sources, account);
      IdentifiedCarryIds(sources, account);
      result := CommitIdentified(identified, account.currency, replays);
    }

    method CommitIdentified(
      identified: seq<Row>, currency: string, replays: Table -> bool)
      returns (result: Result<nat, ImportError>)
      requires CarryIds(identified)
      modifies this
      ensures match CommittedRows(old(table), identified, currency, replays)
              case Ok(after) => table == after
                && result == Ok(ReadyRows(ClassifiedRows(identified, old(table), currency)))
              case Err(e) => result == Err(e) && table == old(table)
    {
      var rows := CompareRows(identified, table, currency);
      for i := 0 to |rows|
        invariant table == old(table)
        invariant forall j | 0 <= j < i :: !rows[j].status.ConflictingExisting?
      {
        if rows[i].status.ConflictingExisting? { return Err(Conflict); }
      }
      var saved := table;
      ClassifiedAreInsertable(identified, table, currency);
      var imported := InsertReady(rows, currency);
      if !replays(table) {
        table := saved;
        return Err(ImportError.BalanceRange);
      }
      return Ok(imported);
    }
  }

  lemma NextIsNew(table: Table, rows: seq<Row>, i: nat, currency: string)
    requires Insertable(table, rows) && i < |rows| && rows[i].status.Ready?
    ensures rows[i].status.prepared.externalId !in Inserted(table, rows[..i], currency)
  {
    var id := rows[i].status.prepared.externalId;
    if id in Inserted(table, rows[..i], currency) {
      InsertedOnly(table, rows[..i], currency, id);
    }
  }

  /** The number of rows announced as imported is the number by which the table grows. */
  lemma {:induction false} ImportedIsTheGrowth(table: Table, rows: seq<Row>, currency: string)
    requires Insertable(table, rows)
    ensures |Inserted(table, rows, currency)| == |table| + ReadyRows(rows)
  {
    if rows != [] {
      assert forall i | 0 <= i < |rows| - 1 :: Front(rows)[i] == rows[i];
      ImportedIsTheGrowth(table, Front(rows), currency);
      if Last(rows).status.Ready? {
        NextIsNew(table, rows, |rows| - 1, currency);
        var before, id := Inserted(table, Front(rows), currency), Last(rows).status.prepared.externalId;
        assert Inserted(table, rows, currency).Keys == before.Keys + {id};
      }
    }
  }

  /** What is stored can be replayed, and a file is refused only for a conflict or because it could not be. */
  lemma StoresOnlyWhatReplays(table: Table, sources: seq<SourceRow>, account: Account, replays: Table -> bool)
    ensures
      var rows := ClassifiedRows(IdentifiedAll(sources, account), table, account.currency);
      match Committed(table, sources, account, replays)
      case Ok(after) =>
        replays(after) && forall row | row in rows :: !row.status.ConflictingExisting?
      case Err(Conflict) => exists row | row in rows :: row.status.ConflictingExisting?
      case Err(_) => !replays(Inserted(table, rows, account.currency))
  {
    hide IdentifiedAll, ClassifiedRows, Inserted;
    var rows := ClassifiedRows(IdentifiedAll(sources, account), table, account.currency);
    if !Conflicts(rows) {
      forall row | row in rows ensures !row.status.ConflictingExisting? {
        var i :| 0 <= i < |rows| && rows[i] == row;
      }
    }
  }

  // ---- importing a file again -------------------------------------------------------------------------------------

  lemma StatusAgain(identified: seq<Row>, i: nat, table: Table, currency: string)
    requires CarryIds(identified) && i < |identified| && !Conflicts(ClassifiedRows(identified, table, currency))
    ensures
      var again := ClassifiedRow(identified, i, Inserted(table, ClassifiedRows(identified, table, currency), currency),
        currency);
      !again.status.Ready? && !again.status.ConflictingExisting?
  {
    var rows := ClassifiedRows(identified, table, currency);
    ClassifiedAreInsertable(identified, table, currency);
    InsertedHolds(table, rows, currency);
    var row := WithinFile(identified, i);
    assert rows[i] == AgainstTable(row, table, currency) && !rows[i].status.ConflictingExisting?;
    if row.status.Ready? && !rows[i].status.Ready? && row.status.prepared.externalId !in table {
      IdStaysAbsent(identified, i, table, currency);
    }
  }

  /** A row found under its legacy identifier is not made a stranger by another row of the file. */
  lemma IdStaysAbsent(identified: seq<Row>, i: nat, table: Table, currency: string)
    requires CarryIds(identified) && i < |identified|
    requires WithinFile(identified, i).status.Ready? && !ClassifiedRow(identified, i, table, currency).status.Ready?
    requires identified[i].status.prepared.externalId !in table
    ensures identified[i].status.prepared.externalId !in Inserted(table, ClassifiedRows(identified, table, currency),
            currency)
  {
    var rows, id := ClassifiedRows(identified, table, currency), identified[i].status.prepared.externalId;
    if id in Inserted(table, rows, currency) {
      InsertedOnly(table, rows, currency, id);
      var j :| 0 <= j < |rows| && rows[j].status.Ready? && rows[j].status.prepared.externalId == id;
      assert rows[j] == identified[j] && i != j;
      RepeatedIdIsCounted(identified, if i < j then i else j, if i < j then j else i, id);
    }
  }

  lemma SecondRowsImportNothing(table: Table, identified: seq<Row>, currency: string, replays: Table -> bool)
    requires CarryIds(identified) && CommittedRows(table, identified, currency, replays).Ok?
    ensures
      var after := CommittedRows(table, identified, currency, replays).value;
      && CommittedRows(after, identified, currency, replays) == Ok(after)
      && (forall i | 0 <= i < |identified| :: !ClassifiedRows(identified, after, currency)[i].status.Ready?)
  {
    var after := Inserted(table, ClassifiedRows(identified, table, currency), currency);
    var again := ClassifiedRows(identified, after, currency);
    forall i | 0 <= i < |identified| ensures !again[i].status.Ready? && !again[i].status.ConflictingExisting? {
      StatusAgain(identified, i, table, currency);
    }
    NothingInserted(after, again, currency);
  }

  lemma {:induction false} NothingInserted(table: Table, rows: seq<Row>, currency: string)
    requires forall i | 0 <= i < |rows| :: !rows[i].status.Ready?
    ensures Inserted(table, rows, currency) == table
  {
    if rows != [] { NothingInserted(table, Front(rows), currency); }
  }

  /** Committing a file a second time succeeds, imports nothing and leaves the table as it was. */
  lemma SecondCommitImportsNothing(table: Table, sources: seq<SourceRow>, account: Account, replays: Table -> bool)
    requires Committed(table, sources, account, replays).Ok?
    ensures
      var after := Committed(table, sources, account, replays).value;
      && Committed(after, sources, account, replays) == Ok(after)
      && (forall i | 0 <= i < |sources| ::
            !ClassifiedRows(IdentifiedAll(sources, account), after, account.currency)[i].status.Ready?)
  {
    IdentifiedCarryIds(sources, account);
    SecondRowsImportNothing(table, IdentifiedAll(sources, account), account.currency, replays);
  }
}
