/**
 The cash-flow report of `insights_reads.go`: the memoised net-worth points, the
 external flows of a window, the window whose growth is the residual, and the months
 a range is cut into.
 */
module FlowWindows {
  import opened Wrappers
  import opened Rational
  import opened Calendar
  import opened Ledger
  import opened Sequences

  type Currency = string

  /** Net worth at the end of a day; an incomplete point omits accounts without a price or a rate. */
  datatype Point = Point(netWorth: Int64, complete: bool)

  datatype ReportError = ReportError

  // ---- the point cache --------------------------------------------------------------------------------------------

  /** `insightsPointCache`: `replay` values the frozen chart data at the end of a day. */
  class PointCache {
    const replay: int -> Result<Point, ReportError>
    var points: map<int, Point>

    ghost predicate Valid()
      reads this
    {
      forall day | day in points :: replay(day) == Ok(points[day])
    }

    constructor (replay: int -> Result<Point, ReportError>)
      ensures Valid() && this.replay == replay && points == map[]
    {
      this.replay := replay;
      points := map[];
    }

    /** A hit and a miss give the answer a direct replay gives; a failed replay is not remembered. */
    method At(day: int) returns (point: Result<Point, ReportError>)
      requires Valid()
      modifies this`points
      ensures Valid() && point == replay(day)
      ensures points == if point.Ok? then old(points)[day := point.value] else old(points)
    {
      if day in points {
        assert points[day := points[day]] == points;
        return Ok(points[day]);
      }
      var read := replay(day);
      if read.Err? {
        return read;
      }
      points := points[day := read.value];
      point := read;
    }
  }

  // ---- external flows ---------------------------------------------------------------------------------------------

  datatype FlowClass = Contribution | Withdrawn | Income | FeePaid

  function ClassifyFlow(t: TransactionType, isLiability: bool): Option<FlowClass> {
    if isLiability then
      match t
      case OpeningBalance | LiabilityIncrease => Some(Withdrawn)
      case LiabilityPayment => Some(Contribution)
      case _ => None
    else
      match t
      case OpeningBalance | Deposit => Some(Contribution)
      case Withdrawal => Some(Withdrawn)
      case Interest | Dividend => Some(Income)
      case Fee => Some(FeePaid)
      case _ => None
  }

  /** The effect of a transaction on what its owner is worth: what raises a debt lowers it. */
  function OwnersEffect(t: TransactionType, amount: int, isLiability: bool): int {
    if isLiability then -InvestmentEffect(t, amount) else InvestmentEffect(t, amount)
  }

  /**
   A flow goes the way its effect does: contributions and income raise what the owner is
   worth by their amount, withdrawals and fees lower it, and only an asset has income or
   fees.
   */
  lemma FlowsFollowTheirEffects(t: TransactionType, amount: int, isLiability: bool)
    ensures
      match ClassifyFlow(t, isLiability)
      case Some(Contribution) => OwnersEffect(t, amount, isLiability) == Abs(amount)
      case Some(Withdrawn) => OwnersEffect(t, amount, isLiability) == -(Abs(amount) as int)
      case Some(Income) => OwnersEffect(t, amount, isLiability) == Abs(amount) && !isLiability
      case Some(FeePaid) => OwnersEffect(t, amount, isLiability) == -(Abs(amount) as int) && !isLiability
      case None => true
  {
  }

  /**
   Whether the owner moves money across the edge of what is owned and owed, and whether
   the flow is earned or charged.
   */
  lemma FlowsAreExactly(t: TransactionType, isLiability: bool)
    ensures ClassifyFlow(t, isLiability).Some?
       <==> t in if isLiability then {OpeningBalance, LiabilityIncrease, LiabilityPayment}
                 else {OpeningBalance, Deposit, Withdrawal, Interest, Dividend, Fee}
    ensures ClassifyFlow(t, isLiability) == Some(Income) <==> !isLiability && t in {Interest, Dividend}
    ensures ClassifyFlow(t, isLiability) == Some(FeePaid) <==> !isLiability && t == Fee
  {
  }

  /** An account included in net worth. */
  datatype Account = Account(isLiability: bool, currency: Currency)

  datatype Transaction = Transaction(account: Id, date: int, typeName: TransactionType, amount: Int64,
    currency: Currency)

  datatype PositionEvent = PositionEvent(id: Id, account: Id, date: int, fee: Option<Int64>)

  type Conversion = Result<Option<Int64>, ReportError>

  /**
   What the report reads.  `toBase` converts an amount at the rate effective on a day and
   `accountFee` a position fee into its account's currency; both find no rate (`None`) or
   fail, and neither turns a non-negative amount into a negative one.
   */
  datatype Data = Data(
    accounts: map<Id, Account>, transactions: seq<Transaction>, events: seq<PositionEvent>,
    toBase: (Int64, Currency, int) -> Conversion, accountFee: PositionEvent -> Conversion)
  {
    ghost predicate Valid() {
      && (forall amount: Int64, currency, day ::
            amount >= 0 && toBase(amount, currency, day).Ok? && toBase(amount, currency, day).value.Some? ==>
            toBase(amount, currency, day).value.value >= 0)
      && (forall event :: accountFee(event).Ok? && accountFee(event).value.Some? ==> accountFee(event).value.value >= 0)
    }
  }

  /** What one row contributes to a report, whichever window it falls in. */
  datatype Entry = NoFlow | Failing | FeeWithoutRate | Flow(record: Record) {
    predicate Unconverted() {
      FeeWithoutRate? || (Flow? && record.base.None?)
    }
  }

  /** A flow in its own currency, and in the base currency where a rate is known. */
  datatype Record = Record(account: Id, kind: FlowClass, date: int, native: Int64, base: Option<Int64>)

  datatype Dated = Dated(date: int, entry: Entry)

  function EntryOf(account: Id, kind: FlowClass, date: int, native: Int64, base: Conversion): Entry {
    if base.Ok? then Flow(Record(account, kind, date, native, base.value)) else Failing
  }

  function TransactionEntry(data: Data, row: Transaction): Entry {
    if row.account !in data.accounts then NoFlow
    else
      match ClassifyFlow(row.typeName, data.accounts[row.account].isLiability)
      case None => NoFlow
      case Some(kind) =>
        if row.amount == MIN_INT64 then Failing
        else
          var amount: int := row.amount;
          EntryOf(row.account, kind, row.date, Abs(amount), data.toBase(Abs(amount), row.currency, row.date))
  }

  function FeeEntry(data: Data, event: PositionEvent): Entry {
    if event.account !in data.accounts || data.accounts[event.account].isLiability || event.fee.None?
      || event.fee.value == 0
    then NoFlow
    else
      match data.accountFee(event)
      case Err(_) => Failing
      case Ok(None) => FeeWithoutRate
      case Ok(Some(fee)) =>
        EntryOf(event.account, FeePaid, event.date, fee,
                  data.toBase(fee, data.accounts[event.account].currency, event.date))
  }

  /** The entries of the first rows of the two tables. */
  function Entries(data: Data, transactions: nat, events: nat): seq<Dated>
    requires transactions <= |data.transactions| && events <= |data.events|
  {
    if events > 0 then
      Entries(data, transactions, events - 1)
      + [Dated(data.events[events - 1].date, FeeEntry(data, data.events[events - 1]))]
    else if transactions > 0 then
      Entries(data, transactions - 1, 0)
      + [Dated(data.transactions[transactions - 1].date, TransactionEntry(data, data.transactions[transactions - 1]))]
    else []
  }

  function AllEntries(data: Data): seq<Dated> {
    Entries(data, |data.transactions|, |data.events|)
  }

  predicate InWindow(date: int, from: int, to: int) {
    from <= date <= to
  }

  /** The flows of a class dated within a window, in the base currency. */
  function FlowTotal(entries: seq<Dated>, kind: FlowClass, from: int, to: int): int {
    if entries == [] then 0
    else FlowTotal(Front(entries), kind, from, to) + FlowOf(Last(entries), kind, from, to)
  }

  /** What a record adds to a class. */
  function BaseOf(record: Record, kind: FlowClass): int {
    if record.kind == kind && record.base.Some? then record.base.value else 0
  }

  function FlowOf(dated: Dated, kind: FlowClass, from: int, to: int): int {
    if InWindow(dated.date, from, to) && dated.entry.Flow? then BaseOf(dated.entry.record, kind) else 0
  }

  ghost predicate AllConverted(entries: seq<Dated>, from: int, to: int) {
    forall d | d in entries && InWindow(d.date, from, to) :: !d.entry.Unconverted()
  }

  ghost predicate NoneFail(entries: seq<Dated>, from: int, to: int) {
    forall d | d in entries && InWindow(d.date, from, to) :: !d.entry.Failing?
  }

  /** The records of a window, in the order of the rows. */
  function RecordsIn(entries: seq<Dated>, from: int, to: int): seq<Record> {
    if entries == [] then [] else RecordsIn(Front(entries), from, to) + RecordOf(Last(entries), from, to)
  }

  function RecordOf(dated: Dated, from: int, to: int): seq<Record> {
    if InWindow(dated.date, from, to) && dated.entry.Flow? then [dated.entry.record] else []
  }

  function RecordTotal(records: seq<Record>, kind: FlowClass): int {
    if records == [] then 0 else RecordTotal(Front(records), kind) + BaseOf(Last(records), kind)
  }

  ghost predicate NonNegativeRecords(records: seq<Record>) {
    forall r | r in records && r.base.Some? :: r.base.value >= 0
  }

  ghost predicate RecordsOf(records: seq<Record>, complete: bool, entries: seq<Dated>, from: int, to: int) {
    && NoneFail(entries, from, to)
    && records == RecordsIn(entries, from, to)
    && (complete <==> AllConverted(entries, from, to))
    && NonNegativeRecords(records)
    && forall kind :: RecordTotal(records, kind) == FlowTotal(entries, kind, from, to)
  }

  lemma NoRecords(from: int, to: int)
    ensures RecordsOf([], true, [], from, to)
  {
  }

  lemma RecordsDoNotFail(records: seq<Record>, complete: bool, entries: seq<Dated>, from: int, to: int)
    requires RecordsOf(records, complete, entries, from, to)
    ensures NoneFail(entries, from, to)
  {
  }

  /** One more row that adds no record. */
  lemma SkipRow(records: seq<Record>, complete: bool, entries: seq<Dated>, dated: Dated, from: int, to: int)
    requires RecordsOf(records, complete, entries, from, to)
    requires InWindow(dated.date, from, to) ==> dated.entry.NoFlow? || dated.entry.FeeWithoutRate?
    ensures RecordsOf(records, complete && !(InWindow(dated.date, from, to) && dated.entry.FeeWithoutRate?),
                      entries + [dated], from, to)
  {
    AppendRow(entries, dated, from, to);
  }

  /** One more row in the window that adds a record. */
  lemma AddRow(
    records: seq<Record>, complete: bool, entries: seq<Dated>, dated: Dated, record: Record, from: int, to: int)
    requires RecordsOf(records, complete, entries, from, to) && InWindow(dated.date, from, to)
    requires dated.entry == Flow(record) && (record.base.Some? ==> record.base.value >= 0)
    ensures RecordsOf(records + [record], complete && record.base.Some?, entries + [dated], from, to)
  {
    hide FlowTotal, RecordsIn;
    AppendRow(entries, dated, from, to);
    assert Front(records + [record]) == records && Last(records + [record]) == record;
  }

  lemma AppendRow(entries: seq<Dated>, dated: Dated, from: int, to: int)
    ensures forall kind :: FlowTotal(entries + [dated], kind, from, to)
                         == FlowTotal(entries, kind, from, to) + FlowOf(dated, kind, from, to)
    ensures RecordsIn(entries + [dated], from, to) == RecordsIn(entries, from, to) + RecordOf(dated, from, to)
    ensures forall d :: d in entries + [dated] <==> d in entries || d == dated
  {
    assert Front(entries + [dated]) == entries;
  }

  /** A failing row makes the whole window fail. */
  lemma FailingRow(data: Data, transactions: nat, events: nat, dated: Dated, from: int, to: int)
    requires transactions <= |data.transactions| && events <= |data.events|
    requires events > 0 ==> transactions == |data.transactions|
    requires dated in Entries(data, transactions, events) && InWindow(dated.date, from, to) && dated.entry.Failing?
    ensures !NoneFail(AllEntries(data), from, to)
  {
    EntriesGrow(data, transactions, events, dated);
  }

  lemma {:induction false} EntriesGrow(data: Data, transactions: nat, events: nat, dated: Dated)
    requires transactions <= |data.transactions| && events <= |data.events|
    requires dated in Entries(data, transactions, events)
    requires events > 0 ==> transactions == |data.transactions|
    ensures dated in AllEntries(data)
    decreases |data.transactions| - transactions, |data.events| - events
  {
    if transactions < |data.transactions| {
      EntriesGrow(data, transactions + 1, 0, dated);
    } else if events < |data.events| {
      EntriesGrow(data, transactions, events + 1, dated);
    }
  }

  // ---- where records come from ------------------------------------------------------------------------------------

  /** The magnitude of a transaction of the record's account and date, classified and converted at that date. */
  predicate FromTransaction(data: Data, row: Transaction, r: Record) {
    && row.account in data.accounts && r.account == row.account && r.date == row.date
    && ClassifyFlow(row.typeName, data.accounts[row.account].isLiability) == Some(r.kind)
    && (r.native == row.amount || r.native == -(row.amount as int)) && r.native >= 0
    && data.toBase(r.native, row.currency, r.date) == Ok(r.base)
  }

  /** The fee of a position event of an asset, in its account's currency and converted at the event's date. */
  predicate FromEvent(data: Data, event: PositionEvent, r: Record) {
    && event.account in data.accounts && r.account == event.account && r.date == event.date && r.kind == FeePaid
    && !data.accounts[event.account].isLiability && data.accountFee(event) == Ok(Some(r.native))
    && data.toBase(r.native, data.accounts[event.account].currency, r.date) == Ok(r.base)
  }

  ghost predicate HasSource(data: Data, r: Record) {
    (exists row | row in data.transactions :: FromTransaction(data, row, r))
    || (exists event | event in data.events :: FromEvent(data, event, r))
  }

  lemma {:induction false} EntriesHaveSources(data: Data, transactions: nat, events: nat, d: Dated)
    requires transactions <= |data.transactions| && events <= |data.events|
    requires d in Entries(data, transactions, events) && d.entry.Flow?
    ensures HasSource(data, d.entry.record) && d.entry.record.date == d.date
    decreases transactions + events
  {
    if events > 0 {
      var event := data.events[events - 1];
      if d in Entries(data, transactions, events - 1) {
        EntriesHaveSources(data, transactions, events - 1, d);
      } else {
        assert FromEvent(data, event, d.entry.record);
      }
    } else if transactions > 0 {
      var row := data.transactions[transactions - 1];
      if d in Entries(data, transactions - 1, 0) {
        EntriesHaveSources(data, transactions - 1, 0, d);
      } else {
        assert FromTransaction(data, row, d.entry.record);
      }
    }
  }

  /** Every record is dated in the window and is the converted magnitude of a stored row. */
  lemma {:induction false} RecordsHaveSources(data: Data, entries: seq<Dated>, from: int, to: int, r: Record)
    requires (forall d | d in entries :: d in AllEntries(data)) && r in RecordsIn(entries, from, to)
    ensures HasSource(data, r) && from <= r.date <= to
  {
    assert entries != [] && forall d | d in Front(entries) :: d in entries;
    if r in RecordsIn(Front(entries), from, to) {
      RecordsHaveSources(data, Front(entries), from, to, r);
    } else {
      assert r in RecordOf(Last(entries), from, to) && Last(entries) in entries && Last(entries) in AllEntries(data);
      EntriesHaveSources(data, |data.transactions|, |data.events|, Last(entries));
    }
  }

  lemma {:induction false} TransactionIsAnEntry(data: Data, transactions: nat, i: nat)
    requires i < transactions <= |data.transactions|
    ensures
      var row := data.transactions[i];
      Dated(row.date, TransactionEntry(data, row)) in Entries(data, transactions, 0)
  {
    if i < transactions - 1 { TransactionIsAnEntry(data, transactions - 1, i); }
  }

  lemma {:induction false} EventIsAnEntry(data: Data, events: nat, i: nat)
    requires i < events <= |data.events|
    ensures Dated(data.events[i].date, FeeEntry(data, data.events[i])) in Entries(data, |data.transactions|, events)
  {
    if i < events - 1 { EventIsAnEntry(data, events - 1, i); }
  }

  lemma {:induction false} EntryIsRecorded(entries: seq<Dated>, d: Dated, from: int, to: int)
    requires d in entries && from <= d.date <= to && d.entry.Flow?
    ensures d.entry.record in RecordsIn(entries, from, to)
  {
    if d in Front(entries) { EntryIsRecorded(Front(entries), d, from, to); }
  }

  /** And every classified transaction of an account in net worth, dated in the window, has its record. */
  lemma TransactionsAreRecorded(data: Data, i: nat, from: int, to: int) returns (r: Record)
    requires i < |data.transactions| && from <= data.transactions[i].date <= to
    requires NoneFail(AllEntries(data), from, to)
    requires
      var row := data.transactions[i];
      row.account in data.accounts && ClassifyFlow(row.typeName, data.accounts[row.account].isLiability).Some?
    ensures r in RecordsIn(AllEntries(data), from, to) && FromTransaction(data, data.transactions[i], r)
  {
    var row := data.transactions[i];
    var d := Dated(row.date, TransactionEntry(data, row));
    TransactionIsAnEntry(data, |data.transactions|, i);
    EntriesGrow(data, |data.transactions|, 0, d);
    assert !d.entry.Failing?;
    r := d.entry.record;
    EntryIsRecorded(AllEntries(data), d, from, to);
  }

  /** So has the fee of every position event of an asset, where its account's currency has a rate. */
  lemma FeesAreRecorded(data: Data, i: nat, from: int, to: int) returns (r: Record)
    requires i < |data.events| && from <= data.events[i].date <= to
    requires NoneFail(AllEntries(data), from, to)
    requires
      var event := data.events[i];
      && event.account in data.accounts && !data.accounts[event.account].isLiability
      && event.fee.Some? && event.fee.value != 0 && data.accountFee(event).Ok? && data.accountFee(event).value.Some?
    ensures r in RecordsIn(AllEntries(data), from, to) && FromEvent(data, data.events[i], r)
  {
    var event := data.events[i];
    var d := Dated(event.date, FeeEntry(data, event));
    EventIsAnEntry(data, |data.events|, i);
    assert d in AllEntries(data) && !d.entry.Failing?;
    r := d.entry.record;
    EntryIsRecorded(AllEntries(data), d, from, to);
  }

  /** A transaction is a flow of the report, and a position event has a fee in it. */
  predicate IsFlow(data: Data, row: Transaction) {
    row.account in data.accounts && ClassifyFlow(row.typeName, data.accounts[row.account].isLiability).Some?
  }

  predicate IsCharged(data: Data, event: PositionEvent) {
    && event.account in data.accounts && !data.accounts[event.account].isLiability
    && event.fee.Some? && event.fee.value != 0
  }

  /** The magnitude of a transaction in the base currency; the least int64 has none. */
  function FlowInBase(data: Data, row: Transaction): Conversion {
    if row.amount == MIN_INT64 then Err(ReportError)
    else data.toBase(Abs(row.amount), row.currency, row.date)
  }

  function FeeInBase(data: Data, event: PositionEvent): Conversion
    requires IsCharged(data, event)
  {
    var fee := data.accountFee(event);
    if fee.Err? || fee.value.None? then fee
    else data.toBase(fee.value.value, data.accounts[event.account].currency, event.date)
  }

  lemma {:induction false} EntryHasARow(data: Data, transactions: nat, events: nat, d: Dated)
    requires transactions <= |data.transactions| && events <= |data.events|
    requires d in Entries(data, transactions, events)
    ensures (exists row | row in data.transactions :: d == Dated(row.date, TransactionEntry(data, row)))
         || (exists event | event in data.events :: d == Dated(event.date, FeeEntry(data, event)))
    decreases transactions + events
  {
    hide TransactionEntry, FeeEntry;
    if events > 0 {
      var event := data.events[events - 1];
      if d != Dated(event.date, FeeEntry(data, event)) { EntryHasARow(data, transactions, events - 1, d); }
    } else {
      var row := data.transactions[transactions - 1];
      if d != Dated(row.date, TransactionEntry(data, row)) { EntryHasARow(data, transactions - 1, 0, d); }
    }
  }

  lemma RowsAreEntries(data: Data)
    ensures forall row | row in data.transactions :: Dated(row.date, TransactionEntry(data, row)) in AllEntries(data)
    ensures forall event | event in data.events :: Dated(event.date, FeeEntry(data, event)) in AllEntries(data)
  {
    hide TransactionEntry, FeeEntry;
    forall row | row in data.transactions ensures Dated(row.date, TransactionEntry(data, row)) in AllEntries(data) {
      var i :| 0 <= i < |data.transactions| && data.transactions[i] == row;
      TransactionIsAnEntry(data, |data.transactions|, i);
      EntriesGrow(data, |data.transactions|, 0, Dated(row.date, TransactionEntry(data, row)));
    }
    forall event | event in data.events ensures Dated(event.date, FeeEntry(data, event)) in AllEntries(data) {
      var i :| 0 <= i < |data.events| && data.events[i] == event;
      EventIsAnEntry(data, |data.events|, i);
    }
  }

  lemma FlowEntry(data: Data, row: Transaction)
    ensures TransactionEntry(data, row).Failing? <==> IsFlow(data, row) && FlowInBase(data, row).Err?
    ensures TransactionEntry(data, row).Unconverted() <==> IsFlow(data, row) && FlowInBase(data, row) == Ok(None)
  {
    hide ClassifyFlow;
  }

  lemma ChargedEntry(data: Data, event: PositionEvent)
    ensures FeeEntry(data, event).Failing? <==> IsCharged(data, event) && FeeInBase(data, event).Err?
    ensures FeeEntry(data, event).Unconverted() <==> IsCharged(data, event) && FeeInBase(data, event) == Ok(None)
  {
  }

  /** What holds of every entry holds of every row's. */
  lemma EntriesAreTheRows(data: Data, holds: Dated -> bool)
    ensures (forall d | d in AllEntries(data) :: holds(d)) <==>
            && (forall row | row in data.transactions :: holds(Dated(row.date, TransactionEntry(data, row))))
            && (forall event | event in data.events :: holds(Dated(event.date, FeeEntry(data, event))))
  {
    hide AllEntries, TransactionEntry, FeeEntry;
    RowsAreEntries(data);
    if (forall row | row in data.transactions :: holds(Dated(row.date, TransactionEntry(data, row))))
       && (forall event | event in data.events :: holds(Dated(event.date, FeeEntry(data, event))))
    {
      forall d | d in AllEntries(data) ensures holds(d) { EntryOfRowHolds(data, holds, d); }
    }
  }

  lemma EntryOfRowHolds(data: Data, holds: Dated -> bool, d: Dated)
    requires d in AllEntries(data)
    requires forall row | row in data.transactions :: holds(Dated(row.date, TransactionEntry(data, row)))
    requires forall event | event in data.events :: holds(Dated(event.date, FeeEntry(data, event)))
    ensures holds(d)
  {
    hide TransactionEntry, FeeEntry;
    EntryHasARow(data, |data.transactions|, |data.events|, d);
  }

  /** A window can be read exactly when every flow and every fee in it can be converted. */
  lemma FailsExactlyWhen(data: Data, from: int, to: int)
    ensures NoneFail(AllEntries(data), from, to) <==>
            && (forall row | row in data.transactions && from <= row.date <= to && IsFlow(data, row) ::
                  FlowInBase(data, row).Ok?)
            && (forall event | event in data.events && from <= event.date <= to && IsCharged(data, event) ::
                  FeeInBase(data, event).Ok?)
  {
    hide AllEntries, TransactionEntry, FeeEntry, IsFlow, IsCharged, FlowInBase, FeeInBase;
    EntriesAreTheRows(data, (d: Dated) => InWindow(d.date, from, to) ==> !d.entry.Failing?);
    forall row: Transaction { FlowEntry(data, row); }
    forall event: PositionEvent { ChargedEntry(data, event); }
  }

  /** And it is complete exactly when all of them find a rate. */
  lemma IsCompleteExactlyWhen(data: Data, from: int, to: int)
    ensures AllConverted(AllEntries(data), from, to) <==>
            && (forall row | row in data.transactions && from <= row.date <= to && IsFlow(data, row) ::
                  FlowInBase(data, row) != Ok(None))
            && (forall event | event in data.events && from <= event.date <= to && IsCharged(data, event) ::
                  FeeInBase(data, event) != Ok(None))
  {
    hide AllEntries, TransactionEntry, FeeEntry, IsFlow, IsCharged, FlowInBase, FeeInBase;
    EntriesAreTheRows(data, (d: Dated) => InWindow(d.date, from, to) ==> !d.entry.Unconverted());
    forall row: Transaction { FlowEntry(data, row); }
    forall event: PositionEvent { ChargedEntry(data, event); }
  }

  // ---- insightsFlowRecords ----------------------------------------------------------------------------------------

  method InsightsFlowRecords(data: Data, from: int, to: int) returns (result: Result<(seq<Record>, bool), ReportError>)
    requires data.Valid()
    ensures result.Ok? <==> NoneFail(AllEntries(data), from, to)
    ensures result.Ok? ==> RecordsOf(result.value.0, result.value.1, AllEntries(data), from, to)
  {
    hide RecordsOf, NoneFail, ClassifyFlow, InWindow;
    var records: seq<Record>, complete := [], true;
    NoRecords(from, to);
    for i := 0 to |data.transactions|
      invariant RecordsOf(records, complete, Entries(data, i, 0), from, to)
    {
      var row := data.transactions[i];
      ghost var dated := Dated(row.date, TransactionEntry(data, row));
      assert Entries(data, i + 1, 0) == Entries(data, i, 0) + [dated];
      if row.account !in data.accounts || !InWindow(row.date, from, to) {
        SkipRow(records, complete, Entries(data, i, 0), dated, from, to);
        continue;
      }
      var kind := ClassifyFlow(row.typeName, data.accounts[row.account].isLiability);
      if kind.None? {
        SkipRow(records, complete, Entries(data, i, 0), dated, from, to);
        continue;
      }
      var amount: int := row.amount;
      if amount == MIN_INT64 {
        FailingRow(data, i + 1, 0, dated, from, to);
        return Err(ReportError);
      }
      var converted := data.toBase(Abs(amount), row.currency, row.date);
      if converted.Err? {
        FailingRow(data, i + 1, 0, dated, from, to);
        return Err(ReportError);
      }
      var record := Record(row.account, kind.value, row.date, Abs(amount), converted.value);
      AddRow(records, complete, Entries(data, i, 0), dated, record, from, to);
      if converted.value.None? {
        complete := false;
      }
      records := records + [record];
    }
    var count := |data.transactions|;
    for i := 0 to |data.events|
      invariant RecordsOf(records, complete, Entries(data, count, i), from, to)
    {
      var event := data.events[i];
      ghost var dated := Dated(event.date, FeeEntry(data, event));
      assert Entries(data, count, i + 1) == Entries(data, count, i) + [dated];
      if event.account !in data.accounts || data.accounts[event.account].isLiability || !InWindow(event.date, from, to)
         || event.fee.None? || event.fee.value == 0 {
        SkipRow(records, complete, Entries(data, count, i), dated, from, to);
        continue;
      }
      var fee := data.accountFee(event);
      if fee.Err? {
        FailingRow(data, count, i + 1, dated, from, to);
        return Err(ReportError);
      }
      if fee.value.None? {
        SkipRow(records, complete, Entries(data, count, i), dated, from, to);
        complete := false;
        continue;
      }
      var converted := data.toBase(fee.value.value, data.accounts[event.account].currency, event.date);
      if converted.Err? {
        FailingRow(data, count, i + 1, dated, from, to);
        return Err(ReportError);
      }
      var record := Record(event.account, FeePaid, event.date, fee.value.value, converted.value);
      AddRow(records, complete, Entries(data, count, i), dated, record, from, to);
      if converted.value.None? {
        complete := false;
      }
      records := records + [record];
    }
    RecordsDoNotFail(records, complete, AllEntries(data), from, to);
    result := Ok((records, complete));
  }

  // ---- computeFlowWindow ------------------------------------------------------------------------------------------

  datatype FlowWindow = FlowWindow(
    start: Point, end: Point, contributions: Int64, withdrawals: Int64, income: Int64, fees: Int64, growth: Int64,
    complete: bool)

  type Replay = int -> Result<Point, ReportError>

  /** The part of the change in net worth that no external flow explains. */
  function Growth(change: int, entries: seq<Dated>, from: int, to: int): int {
    change - FlowTotal(entries, Contribution, from, to) + FlowTotal(entries, Withdrawn, from, to)
    - FlowTotal(entries, Income, from, to) + FlowTotal(entries, FeePaid, from, to)
  }

  ghost predicate PointsKnown(replay: Replay, from: int, to: int) {
    replay(from - 1).Ok? && replay(to).Ok?
  }

  function NetWorthAt(replay: Replay, day: int): int {
    if replay(day).Ok? then replay(day).value.netWorth else 0
  }

  function Change(replay: Replay, from: int, to: int): int {
    NetWorthAt(replay, to) - NetWorthAt(replay, from - 1)
  }

  /** When a window can be reported: its points and conversions are available and its totals are representable. */
  ghost predicate Reportable(replay: Replay, entries: seq<Dated>, from: int, to: int) {
    && PointsKnown(replay, from, to)
    && NoneFail(entries, from, to)
    && (forall kind :: IsInt64(FlowTotal(entries, kind, from, to)))
    && IsInt64(Growth(Change(replay, from, to), entries, from, to))
  }

  ghost predicate Reports(window: FlowWindow, replay: Replay, entries: seq<Dated>, from: int, to: int)
    requires PointsKnown(replay, from, to)
  {
    && window.start == replay(from - 1).value && window.end == replay(to).value
    && window.contributions == FlowTotal(entries, Contribution, from, to)
    && window.withdrawals == FlowTotal(entries, Withdrawn, from, to)
    && window.income == FlowTotal(entries, Income, from, to)
    && window.fees == FlowTotal(entries, FeePaid, from, to)
    && window.growth == Growth(Change(replay, from, to), entries, from, to)
    && (window.complete <==> window.start.complete && window.end.complete && AllConverted(entries, from, to))
  }

  /**
   The law of a window: what the start is worth, with what was contributed, earned and
   grown, less what was withdrawn and charged, is what the end is worth.
   */
  predicate Bridges(start: int, contributions: int, income: int, growth: int, withdrawals: int, fees: int, end: int) {
    start + contributions + income + growth - withdrawals - fees == end
  }

  predicate WindowBridges(w: FlowWindow) {
    Bridges(w.start.netWorth, w.contributions, w.income, w.growth, w.withdrawals, w.fees, w.end.netWorth)
  }

  lemma {:induction false} RecordTotalGrows(records: seq<Record>, count: nat, kind: FlowClass)
    requires NonNegativeRecords(records) && count <= |records|
    ensures RecordTotal(records[..count], kind) <= RecordTotal(records, kind)
    decreases |records| - count
  {
    if count < |records| {
      assert Front(records[..count + 1]) == records[..count];
      RecordTotalGrows(records, count + 1, kind);
    } else {
      assert records[..count] == records;
    }
  }

  /** Every amount that has been converted, whatever its class. */
  function Converted(records: seq<Record>): int {
    if records == [] then 0
    else Converted(Front(records)) + if Last(records).base.Some? then Last(records).base.value else 0
  }

  lemma {:induction false} NoneOfAClass(records: seq<Record>, kind: FlowClass)
    requires forall r | r in records :: r.kind != kind
    ensures RecordTotal(records, kind) == 0
  {
    if records != [] { NoneOfAClass(Front(records), kind); }
  }

  /** Each converted amount is in the total of exactly one class, its own. */
  lemma {:induction false} ClassesShareTheRecords(records: seq<Record>)
    ensures RecordTotal(records, Contribution) + RecordTotal(records, Withdrawn) + RecordTotal(records, Income)
            + RecordTotal(records, FeePaid) == Converted(records)
    ensures forall kind | (forall r | r in records :: r.kind != kind) :: RecordTotal(records, kind) == 0
  {
    if records != [] { ClassesShareTheRecords(Front(records)); }
    forall kind | (forall r | r in records :: r.kind != kind) ensures RecordTotal(records, kind) == 0 {
      NoneOfAClass(records, kind);
    }
  }

  /** `target` of the switch: the running total of the record's class. */
  function Added(totals: map<FlowClass, Int64>, record: Record): Result<map<FlowClass, Int64>, LedgerError>
    requires record.kind in totals
  {
    if record.base.None? then Ok(totals)
    else
      match CheckedAdd(totals[record.kind], record.base.value)
      case Err(e) => Err(e)
      case Ok(sum) => Ok(totals[record.kind := sum])
  }

  ghost predicate RunningTotals(totals: map<FlowClass, Int64>, records: seq<Record>) {
    forall kind :: kind in totals && totals[kind] == RecordTotal(records, kind)
  }

  method SumRecords(records: seq<Record>) returns (result: Result<map<FlowClass, Int64>, ReportError>)
    requires NonNegativeRecords(records)
    ensures result.Ok? <==> forall kind :: IsInt64(RecordTotal(records, kind))
    ensures result.Ok? ==> RunningTotals(result.value, records)
  {
    var totals: map<FlowClass, Int64> := map[Contribution := 0, Withdrawn := 0, Income := 0, FeePaid := 0];
    forall kind: FlowClass ensures kind in totals && totals[kind] == 0 {
      match kind case Contribution => case Withdrawn => case Income => case FeePaid =>
    }
    for i := 0 to |records|
      invariant RunningTotals(totals, records[..i])
    {
      assert Front(records[..i + 1]) == records[..i];
      var next := Added(totals, records[i]);
      if next.Err? {
        RecordTotalGrows(records, i + 1, records[i].kind);
        return Err(ReportError);
      }
      totals := next.value;
    }
    assert records[..|records|] == records;
    result := Ok(totals);
  }

  /**
   `computeFlowWindow`: the window is reported exactly when it can be, its parts are the
   exact totals of its flows, and growth is what is left of the change.
   */
  method ComputeFlowWindow(cache: PointCache, data: Data, from: int, to: int)
    returns (result: Result<FlowWindow, ReportError>)
    requires cache.Valid() && data.Valid()
    modifies cache`points
    ensures cache.Valid()
    ensures result.Ok? <==> Reportable(cache.replay, AllEntries(data), from, to)
    ensures result.Ok? ==> Reports(result.value, cache.replay, AllEntries(data), from, to)
    ensures result.Ok? ==> WindowBridges(result.value)
  {
    hide RecordsIn, FlowTotal, RecordTotal, AllEntries, AllConverted, NoneFail, NonNegativeRecords, Data.Valid;
    var start := cache.At(from - 1);
    if start.Err? { return Err(start.error); }
    var end := cache.At(to);
    if end.Err? { return Err(end.error); }
    var flows := InsightsFlowRecords(data, from, to);
    if flows.Err? { return Err(flows.error); }
    var (records, flowsComplete) := flows.value;
    var sums := SumRecords(records);
    if sums.Err? { return Err(sums.error); }
    var totals := sums.value;
    var growth: int := end.value.netWorth - start.value.netWorth;
    growth := growth - totals[Contribution];
    growth := growth + totals[Withdrawn];
    growth := growth - totals[Income];
    growth := growth + totals[FeePaid];
    if !IsInt64(growth) { return Err(ReportError); }
    result := Ok(FlowWindow(start.value, end.value, totals[Contribution], totals[Withdrawn], totals[Income],
                            totals[FeePaid], growth, start.value.complete && end.value.complete && flowsComplete));
  }

  // ---- flowMonths -------------------------------------------------------------------------------------------------

  datatype Tile = Tile(from: Day, to: Day)

  /** The part of a month that lies in a range. */
  function MonthTile(month: nat, from: Day, to: Day): Tile {
    var start, end := MonthStart(month), MonthStart(month + 1) - 1;
    Tile(if start < from then from else start, if end > to then to else end)
  }

  /** The months of a range from a given one on. */
  function Tiles(month: nat, from: Day, to: Day): seq<Tile>
    decreases (to - MonthStart(month))
  {
    if MonthStart(month) > to then []
    else
      MonthStartStep(month);
      [MonthTile(month, from, to)] + Tiles(month + 1, from, to)
  }

  datatype MonthPoint = MonthPoint(
    month: Day, contributions: int, withdrawals: int, income: int, fees: int, growth: int, netChange: int,
    complete: bool)

  /** The net change of a window as the source adds it: negating the least int64 wraps. */
  function NetChange(window: FlowWindow): Result<Int64, LedgerError> {
    var start: int := window.start.netWorth;
    CheckedAdd(window.end.netWorth, Wrap(-start))
  }

  function PointOf(tile: Tile, window: FlowWindow, netChange: int): MonthPoint {
    MonthPoint(tile.from, window.contributions, window.withdrawals, window.income, window.fees, window.growth,
               netChange, window.complete)
  }

  /** The month starts from the least int64, which its own negation wraps to. */
  predicate StartsLeast(tile: Tile, replay: Replay) {
    NetWorthAt(replay, tile.from - 1) == MIN_INT64
  }

  ghost predicate PointFor(point: MonthPoint, tile: Tile, replay: Replay, entries: seq<Dated>) {
    && Reportable(replay, entries, tile.from, tile.to)
    && point.month == tile.from
    && point.contributions == FlowTotal(entries, Contribution, tile.from, tile.to)
    && point.withdrawals == FlowTotal(entries, Withdrawn, tile.from, tile.to)
    && point.income == FlowTotal(entries, Income, tile.from, tile.to)
    && point.fees == FlowTotal(entries, FeePaid, tile.from, tile.to)
    && point.growth == Growth(Change(replay, tile.from, tile.to), entries, tile.from, tile.to)
    && point.netChange == Change(replay, tile.from, tile.to) - (if StartsLeast(tile, replay) then TWO_TO_64 else 0)
    && (point.complete <==> replay(tile.from - 1).value.complete && replay(tile.to).value.complete
                            && AllConverted(entries, tile.from, tile.to))
  }

  ghost predicate PointsFor(points: seq<MonthPoint>, tiles: seq<Tile>, replay: Replay, entries: seq<Dated>) {
    |points| == |tiles| && forall i | 0 <= i < |points| :: PointFor(points[i], tiles[i], replay, entries)
  }

  /** The law of a window holds of every month. */
  ghost predicate MonthsBridge(points: seq<MonthPoint>, tiles: seq<Tile>, replay: Replay) {
    |points| == |tiles|
    && forall i | 0 <= i < |points| ::
         Bridges(NetWorthAt(replay, tiles[i].from - 1), points[i].contributions, points[i].income, points[i].growth,
                 points[i].withdrawals, points[i].fees, NetWorthAt(replay, tiles[i].to))
  }

  lemma PointsBridge(points: seq<MonthPoint>, tiles: seq<Tile>, replay: Replay, entries: seq<Dated>)
    requires PointsFor(points, tiles, replay, entries)
    ensures MonthsBridge(points, tiles, replay)
  {
    forall i | 0 <= i < |points|
      ensures Bridges(NetWorthAt(replay, tiles[i].from - 1), points[i].contributions, points[i].income,
                      points[i].growth, points[i].withdrawals, points[i].fees, NetWorthAt(replay, tiles[i].to))
    {
      assert PointFor(points[i], tiles[i], replay, entries);
    }
  }

  /** A month is reported exactly when its window can be and its net change fits as the source adds it. */
  ghost predicate MonthReportable(tile: Tile, replay: Replay, entries: seq<Dated>) {
    && Reportable(replay, entries, tile.from, tile.to)
    && IsInt64(NetWorthAt(replay, tile.to) + Wrap(-NetWorthAt(replay, tile.from - 1)))
  }

  ghost predicate AllReportable(tiles: seq<Tile>, replay: Replay, entries: seq<Dated>) {
    forall i | 0 <= i < |tiles| :: MonthReportable(tiles[i], replay, entries)
  }

  /** One turn of the month loop. */
  method FlowMonth(cache: PointCache, data: Data, tile: Tile) returns (result: Result<MonthPoint, ReportError>)
    requires cache.Valid() && data.Valid()
    modifies cache`points
    ensures cache.Valid()
    ensures result.Ok? <==> MonthReportable(tile, cache.replay, AllEntries(data))
    ensures result.Ok? ==> PointFor(result.value, tile, cache.replay, AllEntries(data))
  {
    var window := ComputeFlowWindow(cache, data, tile.from, tile.to);
    if window.Err? { return Err(window.error); }
    var change := NetChange(window.value);
    if change.Err? { return Err(ReportError); }
    PointOfWindow(window.value, tile, cache.replay, AllEntries(data));
    result := Ok(PointOf(tile, window.value, change.value));
  }

  method FlowMonths(
    cache: PointCache, data: Data, from: Day, to: Day)
    returns (result: Result<seq<MonthPoint>, ReportError>)
    requires cache.Valid() && data.Valid()
    modifies cache`points
    ensures cache.Valid()
    ensures result.Ok? <==> AllReportable(Tiles(MonthOf(from), from, to), cache.replay, AllEntries(data))
    ensures result.Ok? ==> PointsFor(result.value, Tiles(MonthOf(from), from, to), cache.replay, AllEntries(data))
    ensures result.Ok? ==> MonthsBridge(result.value, Tiles(MonthOf(from), from, to), cache.replay)
  {
    hide PointFor, MonthReportable, MonthTile, MonthsBridge;
    var points: seq<MonthPoint> := [];
    var month := MonthOf(from);
    ghost var done: seq<Tile> := [];
    while MonthStart(month) <= to
      invariant cache.Valid()
      invariant Tiles(MonthOf(from), from, to) == done + Tiles(month, from, to)
      invariant PointsFor(points, done, cache.replay, AllEntries(data))
      invariant AllReportable(done, cache.replay, AllEntries(data))
      decreases (to - MonthStart(month))
    {
      MonthStartStep(month);
      var tile := MonthTile(month, from, to);
      var point := FlowMonth(cache, data, tile);
      assert Tiles(MonthOf(from), from, to)[|done|] == tile;
      if point.Err? { return Err(point.error); }
      points := points + [point.value];
      done := done + [tile];
      month := month + 1;
    }
    assert done + [] == done;
    PointsBridge(points, done, cache.replay, AllEntries(data));
    result := Ok(points);
  }

  lemma PointOfWindow(window: FlowWindow, tile: Tile, replay: Replay, entries: seq<Dated>)
    requires Reportable(replay, entries, tile.from, tile.to) && Reports(window, replay, entries, tile.from, tile.to)
    requires NetChange(window).Ok?
    ensures PointFor(PointOf(tile, window, NetChange(window).value), tile, replay, entries)
  {
    var start: int := window.start.netWorth;
    if start > MIN_INT64 { WrapIdentity(-start); }
  }

  // ---- the months add up to the range -----------------------------------------------------------------------------

  /** Consecutive tiles that start at one day and end at another. */
  ghost predicate Covers(tiles: seq<Tile>, from: Day, to: Day) {
    && tiles != [] && tiles[0].from == from && Last(tiles).to == to
    && (forall i | 0 <= i < |tiles| :: tiles[i].from <= tiles[i].to)
    && (forall i | 0 <= i < |tiles| - 1 :: tiles[i + 1].from == tiles[i].to + 1)
  }

  lemma CoversPrepend(tile: Tile, rest: seq<Tile>, from: Day, to: Day)
    requires Covers(rest, from, to) && tile.from <= tile.to && from == tile.to + 1
    ensures Covers([tile] + rest, tile.from, to)
  {
    var tiles := [tile] + rest;
    forall i | 0 <= i < |tiles| - 1 ensures tiles[i + 1].from == tiles[i].to + 1 {
      assert tiles[i + 1] == rest[i];
      if i > 0 { assert rest[i - 1 + 1].from == rest[i - 1].to + 1; }
    }
  }

  /** The tiles cover the range exactly. */
  lemma {:induction false} TilesCover(month: nat, from: Day, to: Day)
    requires MonthTile(month, from, to).from <= to && from < MonthStart(month + 1)
    ensures Covers(Tiles(month, from, to), MonthTile(month, from, to).from, to)
    decreases (to - MonthStart(month))
  {
    MonthStartStep(month);
    if MonthStart(month + 1) <= to {
      MonthStartStep(month + 1);
      TilesCover(month + 1, from, to);
      CoversPrepend(MonthTile(month, from, to), Tiles(month + 1, from, to), MonthStart(month + 1), to);
    }
  }

  /** Each tile is the part of one calendar month that lies in the range. */
  lemma {:induction false} TilesAreMonths(month: nat, from: Day, to: Day)
    ensures forall i | 0 <= i < |Tiles(month, from, to)| ::
              Tiles(month, from, to)[i] == MonthTile(month + i, from, to)
    decreases (to - MonthStart(month))
  {
    if MonthStart(month) <= to {
      MonthStartStep(month);
      TilesAreMonths(month + 1, from, to);
    }
  }

  /** What a window reports. */
  datatype Part = FlowPart(kind: FlowClass) | GrowthPart | NetChangePart

  function Amount(replay: Replay, entries: seq<Dated>, part: Part, from: int, to: int): int {
    match part
    case FlowPart(kind) => FlowTotal(entries, kind, from, to)
    case GrowthPart => Growth(Change(replay, from, to), entries, from, to)
    case NetChangePart => Change(replay, from, to)
  }

  function Cell(point: MonthPoint, part: Part): int {
    match part
    case FlowPart(Contribution) => point.contributions
    case FlowPart(Withdrawn) => point.withdrawals
    case FlowPart(Income) => point.income
    case FlowPart(FeePaid) => point.fees
    case GrowthPart => point.growth
    case NetChangePart => point.netChange
  }

  function Column(points: seq<MonthPoint>, part: Part): int {
    if points == [] then 0 else Column(Front(points), part) + Cell(Last(points), part)
  }

  lemma {:induction false} FlowTotalSplits(entries: seq<Dated>, kind: FlowClass, a: int, b: int, c: int)
    requires a <= b < c
    ensures FlowTotal(entries, kind, a, b) + FlowTotal(entries, kind, b + 1, c) == FlowTotal(entries, kind, a, c)
  {
    if entries != [] { FlowTotalSplits(Front(entries), kind, a, b, c); }
  }

  /** Every part of a window splits where the window splits; net change and growth telescope. */
  lemma AmountSplits(replay: Replay, entries: seq<Dated>, part: Part, a: int, b: int, c: int)
    requires a <= b < c
    ensures Amount(replay, entries, part, a, b) + Amount(replay, entries, part, b + 1, c)
            == Amount(replay, entries, part, a, c)
  {
    match part
    case FlowPart(kind) => FlowTotalSplits(entries, kind, a, b, c);
    case GrowthPart =>
      FlowTotalSplits(entries, Contribution, a, b, c);
      FlowTotalSplits(entries, Withdrawn, a, b, c);
      FlowTotalSplits(entries, Income, a, b, c);
      FlowTotalSplits(entries, FeePaid, a, b, c);
    case NetChangePart =>
  }

  /** How many months start from the least int64. */
  function LeastStarts(tiles: seq<Tile>, replay: Replay): nat {
    if tiles == [] then 0 else LeastStarts(Front(tiles), replay) + if StartsLeast(Last(tiles), replay) then 1 else 0
  }

  lemma {:induction false} LeastStartsNone(tiles: seq<Tile>, replay: Replay)
    ensures LeastStarts(tiles, replay) == 0 <==> forall i | 0 <= i < |tiles| :: !StartsLeast(tiles[i], replay)
  {
    if tiles != [] { LeastStartsNone(Front(tiles), replay); }
  }

  type Quantity = (int, int) -> int

  /** A quantity of a window that splits where the window splits. */
  ghost predicate Splits(quantity: Quantity) {
    forall a, b, next, c | a <= b < c && next == b + 1 :: quantity(a, b) + quantity(next, c) == quantity(a, c)
  }

  lemma {:induction false} TilesAddUp(
    points: seq<MonthPoint>, part: Part, tiles: seq<Tile>, from: Day, to: Day, quantity: Quantity)
    requires Covers(tiles, from, to) && Splits(quantity) && |points| == |tiles|
    requires forall i | 0 <= i < |points| :: Cell(points[i], part) == quantity(tiles[i].from, tiles[i].to)
    ensures from <= to && Column(points, part) == quantity(from, to)
  {
    if |tiles| > 1 {
      CoversFront(tiles, from, to);
      var middle, next := Last(Front(tiles)).to, Last(tiles).from;
      TilesAddUp(Front(points), part, Front(tiles), from, middle, quantity);
      assert quantity(from, middle) + quantity(next, to) == quantity(from, to);
    } else {
      assert Column(Front(points), part) == 0;
    }
  }

  /** The months of a report add up to the whole range, part by part. */
  lemma MonthsAddUp(
    points: seq<MonthPoint>, tiles: seq<Tile>, replay: Replay, entries: seq<Dated>, from: Day, to: Day, part: Part)
    requires PointsFor(points, tiles, replay, entries) && Covers(tiles, from, to)
    ensures from <= to
    ensures Column(points, part) == Amount(replay, entries, part, from, to)
                                    - if part.NetChangePart? then LeastStarts(tiles, replay) * TWO_TO_64 else 0
  {
    if part.NetChangePart? {
      NetChangesAddUp(points, tiles, replay, entries, from, to);
    } else {
      PartsAddUp(points, tiles, replay, entries, from, to, part);
    }
  }

  lemma PartsAddUp(
    points: seq<MonthPoint>, tiles: seq<Tile>, replay: Replay, entries: seq<Dated>, from: Day, to: Day, part: Part)
    requires PointsFor(points, tiles, replay, entries) && Covers(tiles, from, to) && !part.NetChangePart?
    ensures from <= to && Column(points, part) == Amount(replay, entries, part, from, to)
  {
    var quantity: Quantity := (a, b) => Amount(replay, entries, part, a, b);
    forall i | 0 <= i < |points| ensures Cell(points[i], part) == quantity(tiles[i].from, tiles[i].to) {
      assert PointFor(points[i], tiles[i], replay, entries);
    }
    forall a, b, next, c | a <= b < c && next == b + 1 ensures quantity(a, b) + quantity(next, c) == quantity(a, c) {
      AmountSplits(replay, entries, part, a, b, c);
    }
    TilesAddUp(points, part, tiles, from, to, quantity);
  }

  /** Net changes telescope, short of 2^64 for every month that starts from the least int64. */
  lemma {:induction false} NetChangesAddUp(
    points: seq<MonthPoint>, tiles: seq<Tile>, replay: Replay, entries: seq<Dated>, from: Day, to: Day)
    requires PointsFor(points, tiles, replay, entries) && Covers(tiles, from, to)
    ensures from <= to
    ensures Column(points, NetChangePart) == Change(replay, from, to) - LeastStarts(tiles, replay) * TWO_TO_64
  {
    assert PointFor(Last(points), Last(tiles), replay, entries);
    if |tiles| > 1 {
      CoversFront(tiles, from, to);
      NetChangesAddUp(Front(points), Front(tiles), replay, entries, from, Last(Front(tiles)).to);
    } else {
      assert Column(Front(points), NetChangePart) == 0 && LeastStarts(Front(tiles), replay) == 0;
    }
  }

  /** So the net changes add up exactly when no month starts from the least int64. */
  lemma NetChangesAddUpExactlyWhen(
    points: seq<MonthPoint>, tiles: seq<Tile>, replay: Replay, entries: seq<Dated>, from: Day, to: Day)
    requires PointsFor(points, tiles, replay, entries) && Covers(tiles, from, to)
    ensures Column(points, NetChangePart) == NetWorthAt(replay, to) - NetWorthAt(replay, from - 1)
       <==> forall i | 0 <= i < |tiles| :: !StartsLeast(tiles[i], replay)
  {
    NetChangesAddUp(points, tiles, replay, entries, from, to);
    LeastStartsNone(tiles, replay);
  }

  lemma CoversFront(tiles: seq<Tile>, from: Day, to: Day)
    requires Covers(tiles, from, to) && |tiles| > 1
    ensures Covers(Front(tiles), from, Last(Front(tiles)).to)
    ensures Last(tiles).from == Last(Front(tiles)).to + 1 && Last(tiles).from <= to
  {
    assert Last(tiles) == tiles[|tiles| - 2 + 1];
  }

  ghost predicate PointComplete(replay: Replay, day: int) {
    replay(day).Ok? && replay(day).value.complete
  }

  ghost predicate TileComplete(tile: Tile, replay: Replay, entries: seq<Dated>) {
    PointComplete(replay, tile.from - 1) && PointComplete(replay, tile.to) && AllConverted(entries, tile.from, tile.to)
  }

  lemma PointsCompleteByTile(points: seq<MonthPoint>, tiles: seq<Tile>, replay: Replay, entries: seq<Dated>)
    requires PointsFor(points, tiles, replay, entries)
    ensures (forall p | p in points :: p.complete)
       <==> forall i | 0 <= i < |tiles| :: TileComplete(tiles[i], replay, entries)
  {
    forall i | 0 <= i < |tiles| ensures points[i].complete <==> TileComplete(tiles[i], replay, entries) {
      assert PointFor(points[i], tiles[i], replay, entries);
    }
    if forall p | p in points :: p.complete {
      forall i | 0 <= i < |tiles| ensures TileComplete(tiles[i], replay, entries) { assert points[i] in points; }
    }
  }

  ghost predicate BoundariesComplete(tiles: seq<Tile>, replay: Replay) {
    forall i | 0 <= i < |tiles| - 1 :: PointComplete(replay, tiles[i].to)
  }

  /**
   All months are complete exactly when the whole range is complete and so is net worth
   at every month boundary inside it.
   */
  lemma CompleteMonths(
    points: seq<MonthPoint>, tiles: seq<Tile>, replay: Replay, entries: seq<Dated>, from: Day, to: Day)
    requires PointsFor(points, tiles, replay, entries) && Covers(tiles, from, to)
    ensures (forall p | p in points :: p.complete)
       <==> TileComplete(Tile(from, to), replay, entries) && BoundariesComplete(tiles, replay)
  {
    PointsCompleteByTile(points, tiles, replay, entries);
    ConvertedByTile(tiles, entries, from, to);
    if forall i | 0 <= i < |tiles| :: TileComplete(tiles[i], replay, entries) {
      assert TileComplete(tiles[0], replay, entries) && TileComplete(Last(tiles), replay, entries);
      forall i | 0 <= i < |tiles| - 1 ensures PointComplete(replay, tiles[i].to) {
        assert TileComplete(tiles[i], replay, entries);
      }
    } else if TileComplete(Tile(from, to), replay, entries) && BoundariesComplete(tiles, replay) {
      TilesCompleteWithBoundaries(tiles, replay, entries, from, to);
    }
  }

  lemma TilesCompleteWithBoundaries(tiles: seq<Tile>, replay: Replay, entries: seq<Dated>, from: Day, to: Day)
    requires Covers(tiles, from, to) && BoundariesComplete(tiles, replay)
    requires TileComplete(Tile(from, to), replay, entries)
    requires forall i | 0 <= i < |tiles| :: AllConverted(entries, tiles[i].from, tiles[i].to)
    ensures forall i | 0 <= i < |tiles| :: TileComplete(tiles[i], replay, entries)
  {
    forall i | 0 <= i < |tiles| ensures TileComplete(tiles[i], replay, entries) {
      if i > 0 { assert tiles[i - 1 + 1].from == tiles[i - 1].to + 1 && PointComplete(replay, tiles[i - 1].to); }
    }
  }

  lemma {:induction false} ConvertedByTile(tiles: seq<Tile>, entries: seq<Dated>, from: Day, to: Day)
    requires Covers(tiles, from, to)
    ensures AllConverted(entries, from, to)
            <==> forall i | 0 <= i < |tiles| :: AllConverted(entries, tiles[i].from, tiles[i].to)
  {
    if |tiles| > 1 {
      var front := Front(tiles);
      CoversFront(tiles, from, to);
      ConvertedByTile(front, entries, from, Last(front).to);
      CoversBounds(front, from, Last(front).to);
      forall i | 0 <= i < |front| ensures tiles[i] == front[i] {}
    }
  }

  lemma {:induction false} CoversBounds(tiles: seq<Tile>, from: Day, to: Day)
    requires Covers(tiles, from, to)
    ensures from <= to
  {
    if |tiles| > 1 {
      CoversFront(tiles, from, to);
      CoversBounds(Front(tiles), from, Last(Front(tiles)).to);
    }
  }

  // ---- buildFlowsReport -------------------------------------------------------------------------------------------

  datatype FlowsReport = FlowsReport(window: FlowWindow, months: seq<MonthPoint>)

  /**
   Every column of the monthly report adds up to its window, net changes short of 2^64 for
   every month that starts from the least int64, and the window is complete when all months are.
   */
  ghost predicate AddsUp(window: FlowWindow, months: seq<MonthPoint>, leastStarts: nat) {
    && Column(months, FlowPart(Contribution)) == window.contributions
    && Column(months, FlowPart(Withdrawn)) == window.withdrawals
    && Column(months, FlowPart(Income)) == window.income
    && Column(months, FlowPart(FeePaid)) == window.fees
    && Column(months, GrowthPart) == window.growth
    && Column(months, NetChangePart) == window.end.netWorth - window.start.netWorth - leastStarts * TWO_TO_64
    && ((forall p | p in months :: p.complete) ==> window.complete)
  }

  /** The whole range and its months, off one cache. */
  method BuildFlowsReport(data: Data, replay: Replay, from: Day, today: Day, hasSources: bool)
    returns (result: Result<FlowsReport, ReportError>)
    requires data.Valid() && from <= today
    ensures result.Ok? <==> Reportable(replay, AllEntries(data), from, today)
                            && (hasSources ==> AllReportable(Tiles(MonthOf(from), from, today), replay,
                               AllEntries(data)))
    ensures result.Ok? ==> Reports(result.value.window, replay, AllEntries(data), from, today)
    ensures result.Ok? ==> WindowBridges(result.value.window)
    ensures result.Ok? && hasSources ==>
              MonthsBridge(result.value.months, Tiles(MonthOf(from), from, today), replay)
    ensures result.Ok? && !hasSources ==> result.value.months == []
    ensures result.Ok? && hasSources ==>
              AddsUp(result.value.window, result.value.months, LeastStarts(Tiles(MonthOf(from), from, today), replay))
  {
    var cache := new PointCache(replay);
    var window := ComputeFlowWindow(cache, data, from, today);
    if window.Err? { return Err(window.error); }
    var months: seq<MonthPoint> := [];
    if hasSources {
      var points := FlowMonths(cache, data, from, today);
      if points.Err? { return Err(points.error); }
      months := points.value;
      ReportAddsUp(window.value, months, replay, AllEntries(data), from, today);
    }
    result := Ok(FlowsReport(window.value, months));
  }

  lemma ColumnsAddUp(
    window: FlowWindow, points: seq<MonthPoint>, tiles: seq<Tile>, replay: Replay, entries: seq<Dated>, from: Day,
    to: Day)
    requires PointsFor(points, tiles, replay, entries) && Covers(tiles, from, to)
    requires PointsKnown(replay, from, to) && Reports(window, replay, entries, from, to)
    ensures Column(points, FlowPart(Contribution)) == window.contributions
    ensures Column(points, FlowPart(Withdrawn)) == window.withdrawals
    ensures Column(points, FlowPart(Income)) == window.income
    ensures Column(points, FlowPart(FeePaid)) == window.fees
    ensures Column(points, GrowthPart) == window.growth
    ensures Column(points, NetChangePart)
         == window.end.netWorth - window.start.netWorth - LeastStarts(tiles, replay) * TWO_TO_64
  {
    MonthsAddUp(points, tiles, replay, entries, from, to, FlowPart(Contribution));
    MonthsAddUp(points, tiles, replay, entries, from, to, FlowPart(Withdrawn));
    MonthsAddUp(points, tiles, replay, entries, from, to, FlowPart(Income));
    MonthsAddUp(points, tiles, replay, entries, from, to, FlowPart(FeePaid));
    MonthsAddUp(points, tiles, replay, entries, from, to, GrowthPart);
    MonthsAddUp(points, tiles, replay, entries, from, to, NetChangePart);
  }

  lemma AllCompleteIsComplete(
    window: FlowWindow, points: seq<MonthPoint>, tiles: seq<Tile>, replay: Replay, entries: seq<Dated>, from: Day,
    to: Day)
    requires PointsFor(points, tiles, replay, entries) && Covers(tiles, from, to)
    requires PointsKnown(replay, from, to) && Reports(window, replay, entries, from, to)
    ensures (forall p | p in points :: p.complete) ==> window.complete
  {
    CompleteMonths(points, tiles, replay, entries, from, to);
    assert (forall p | p in points :: p.complete) ==> TileComplete(Tile(from, to), replay, entries);
  }

  lemma ReportAddsUp(
    window: FlowWindow, points: seq<MonthPoint>, replay: Replay, entries: seq<Dated>, from: Day, to: Day)
    requires from <= to && PointsFor(points, Tiles(MonthOf(from), from, to), replay, entries)
    requires PointsKnown(replay, from, to) && Reports(window, replay, entries, from, to)
    ensures AddsUp(window, points, LeastStarts(Tiles(MonthOf(from), from, to), replay))
  {
    var tiles := Tiles(MonthOf(from), from, to);
    TilesCover(MonthOf(from), from, to);
    ColumnsAddUp(window, points, tiles, replay, entries, from, to);
    AllCompleteIsComplete(window, points, tiles, replay, entries, from, to);
  }
}
