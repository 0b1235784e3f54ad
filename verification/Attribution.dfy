/**
 The attribution of the change in a position account's value between two days
 (`chartMovementAttribution` of `chart_analytics.go`).  The accumulators of the source
 are int64 and unchecked, so every sum here wraps.
 */
module Attribution {
  import opened Wrappers
  import opened Rational
  import opened Decimals
  import opened Ledger
  import opened Sequences
  import opened Sums
  import opened PositionSnapshot
  import FlowWindows

  lemma WrapSum(a: int, b: int)
    ensures Wrap(Wrap(a) + Wrap(b)) == Wrap(a + b)
  {
    WrapAdd(a, Wrap(b));
    WrapAdd(b, a);
  }

  lemma WrapDifference(a: int, b: int)
    ensures Wrap(Wrap(a) - Wrap(b)) == Wrap(a - b)
  {
    WrapAdd(a, -(Wrap(b) as int));
    WrapCongruent(b);
    var k: int :| Wrap(b) == b + k * TWO_TO_64;
    assert a - Wrap(b) == (a - b) + (-k) * TWO_TO_64;
    CongruentWraps(a - Wrap(b), a - b);
  }

  // ---- the classified cash ----------------------------------------------------------------------------------------

  datatype Bucket = ExternalCash | Income | Fees | CashAdjustments | Unclassified

  function BucketOf(t: TransactionType): Bucket {
    match t
    case OpeningBalance | Deposit | Withdrawal | Transfer => ExternalCash
    case Interest | Dividend => Income
    case Fee => Fees
    case ManualAdjustment => CashAdjustments
    case _ => Unclassified
  }

  function EffectIn(row: TransactionRow, bucket: Bucket): int {
    if BucketOf(row.typeName) == bucket then InvestmentEffect(row.typeName, row.amount) else 0
  }

  /** The exact effects, on the balance, of the transactions in a window that fall in one bucket. */
  function BucketEffects(rows: seq<TransactionRow>, account: Id, from: int, to: int, bucket: Bucket): int {
    if rows == [] then 0
    else BucketEffects(Front(rows), account, from, to, bucket)
         + if Counted(Last(rows), account, from, to) then EffectIn(Last(rows), bucket) else 0
  }

  lemma {:induction false} BucketsCoverTheEffects(rows: seq<TransactionRow>, account: Id, from: int, to: int)
    ensures Effects(rows, account, from, to)
         == BucketEffects(rows, account, from, to, ExternalCash) + BucketEffects(rows, account, from, to, Income)
          + BucketEffects(rows, account, from, to, Fees) + BucketEffects(rows, account, from, to, CashAdjustments)
          + BucketEffects(rows, account, from, to, Unclassified)
  {
    if rows != [] { BucketsCoverTheEffects(Front(rows), account, from, to); }
  }

  lemma {:induction false} NothingUnclassified(rows: seq<TransactionRow>, account: Id, from: int, to: int)
    requires forall row | row in rows && Counted(row, account, from, to) ::
               BucketOf(row.typeName) != Unclassified || row.typeName.Unsupported?
    ensures BucketEffects(rows, account, from, to, Unclassified) == 0
  {
    if rows != [] { NothingUnclassified(Front(rows), account, from, to); }
  }

  /** The bridge of a position account and the flow report of an asset account sort their transactions alike. */
  lemma BucketsAgreeWithFlows(t: TransactionType)
    ensures
      var flow := FlowWindows.ClassifyFlow(t, false);
      && (BucketOf(t) == Income <==> flow == Some(FlowWindows.Income))
      && (BucketOf(t) == Fees <==> flow == Some(FlowWindows.FeePaid))
      && (BucketOf(t) == ExternalCash <==>
          t.Transfer? || flow == Some(FlowWindows.Contribution) || flow == Some(FlowWindows.Withdrawn))
      && (BucketOf(t) == CashAdjustments <==> t.ManualAdjustment?)
  {
  }

  /** The amount the switch works with; negating the least int64 leaves it unchanged. */
  function Unsigned(row: TransactionRow): Int64 {
    var amount: int := row.amount;
    if amount < 0 && !row.typeName.Transfer? && !row.typeName.ManualAdjustment? then Wrap(-amount) else amount
  }

  lemma UnsignedIsTheEffect(row: TransactionRow, total: int)
    ensures row.typeName.Withdrawal? || row.typeName.Fee? ==>
              Wrap(Wrap(total) - Unsigned(row)) == Wrap(total + InvestmentEffect(row.typeName, row.amount))
    ensures !row.typeName.Withdrawal? && !row.typeName.Fee? && BucketOf(row.typeName) != Unclassified ==>
              Wrap(Wrap(total) + Unsigned(row)) == Wrap(total + InvestmentEffect(row.typeName, row.amount))
  {
    var amount: int := row.amount;
    var exact := if row.typeName.Transfer? || row.typeName.ManualAdjustment? then amount else Abs(amount);
    if exact == amount {
      WrapIdentity(exact);
    }
    assert Unsigned(row) == Wrap(exact);
    WrapSum(total, exact);
    WrapDifference(total, exact);
  }

  datatype CashBuckets = CashBuckets(externalCash: Int64, income: Int64, fees: Int64, adjustments: Int64)

  ghost predicate BucketsHold(cash: CashBuckets, total: Bucket -> int) {
    && cash.externalCash == Wrap(total(ExternalCash)) && cash.income == Wrap(total(Income))
    && cash.fees == Wrap(total(Fees)) && cash.adjustments == Wrap(total(CashAdjustments))
  }

  /** The switch: one transaction of the window is added to, or taken from, the bucket of its type. */
  method ClassifyOne(row: TransactionRow, before: CashBuckets, ghost total: Bucket -> int) returns (after: CashBuckets)
    requires BucketsHold(before, total)
    ensures BucketsHold(after, bucket => total(bucket) + EffectIn(row, bucket))
  {
    hide Wrap;
    var amount := Unsigned(row);
    UnsignedIsTheEffect(row, total(BucketOf(row.typeName)));
    after := before;
    match row.typeName
    case OpeningBalance | Deposit => after := before.(externalCash := Wrap(before.externalCash + amount));
    case Withdrawal => after := before.(externalCash := Wrap(before.externalCash - amount));
    case Transfer => after := before.(externalCash := Wrap(before.externalCash + amount));
    case Interest | Dividend => after := before.(income := Wrap(before.income + amount));
    case Fee => after := before.(fees := Wrap(before.fees - amount));
    case ManualAdjustment => after := before.(adjustments := Wrap(before.adjustments + amount));
    case _ =>
  }

  function Bucketed(rows: seq<TransactionRow>, account: Id, from: int, to: int): Bucket -> int {
    bucket => BucketEffects(rows, account, from, to, bucket)
  }

  /** The first loop of the attribution. */
  method ClassifyCash(transactions: seq<TransactionRow>, account: Id, from: int, to: int) returns (cash: CashBuckets)
    ensures BucketsHold(cash, Bucketed(transactions, account, from, to))
  {
    cash := CashBuckets(0, 0, 0, 0);
    for i := 0 to |transactions|
      invariant BucketsHold(cash, Bucketed(transactions[..i], account, from, to))
    {
      var row := transactions[i];
      assert Front(transactions[..i + 1]) == transactions[..i] && Last(transactions[..i + 1]) == row;
      if row.account != account || row.date <= from || row.date > to { continue; }
      cash := ClassifyOne(row, cash, Bucketed(transactions[..i], account, from, to));
    }
    assert transactions[..|transactions|] == transactions;
  }

  /** The second loop. */
  method SumTradeCash(events: seq<EventRow>, account: Id, from: int, to: int) returns (tradeCash: Int64)
    ensures tradeCash == Wrap(TradeCash(events, account, from, to))
  {
    tradeCash := 0;
    for i := 0 to |events|
      invariant tradeCash == Wrap(TradeCash(events[..i], account, from, to))
    {
      var row := events[i];
      assert Front(events[..i + 1]) == events[..i] && Last(events[..i + 1]) == row;
      if row.account == account && from < row.date <= to {
        WrapAdd(TradeCash(events[..i], account, from, to), row.cashEffect);
        tradeCash := Wrap(tradeCash + row.cashEffect);
      }
    }
    assert events[..|events|] == events;
  }

  // ---- the movement of one position -------------------------------------------------------------------------------

  /** The zero value the source reads for an instrument that a snapshot does not hold. */
  function PositionIn(positions: map<Id, PositionValue>, id: Id): PositionValue {
    if id in positions then positions[id] else PositionValue(0.0, None, 0, false)
  }

  datatype Movement = Unmoved | Incomplete | Moved(quantity: Int64, price: Int64)

  function ProductConverted(
    market: Market, quantity: real, price: real, quote: Currency, currency: Currency, at: int)
    : Result<Option<Int64>, BridgeError>
  {
    match DecimalProductMinor(quantity, price, market.digits(quote))
    case Err(e) => Err(e)
    case Ok(minor) => market.convert(minor, quote, currency, at)
  }

  /** The quantity is valued at the first price known, and the price change on the quantity held at the end. */
  function MovementOf(market: Market, currency: Currency, from: int, to: int, start: PositionValue, end: PositionValue)
    : Result<Movement, BridgeError>
  {
    if start.quantity == 0.0 && end.quantity == 0.0 then Ok(Unmoved)
    else
      var baseline := if start.price.Some? then start.price else end.price;
      var conversionDate := if start.price.Some? then from else to;
      if baseline.None? || (start.quantity > 0.0 && start.price.None?) || (end.quantity > 0.0 && end.price.None?)
        then Ok(Incomplete)
      else
        var first := baseline.value;
        match ProductConverted(market, end.quantity - start.quantity, first.amount, first.currency, currency,
          conversionDate)
        case Err(e) => Err(e)
        case Ok(None) => Ok(Incomplete)
        case Ok(Some(quantity)) =>
          if start.price.None? || end.price.None? then Ok(Moved(quantity, 0))
          else
            var last := end.price.value;
            match ProductConverted(market, end.quantity, last.amount - start.price.value.amount, last.currency,
              currency, from)
            case Err(e) => Err(e)
            case Ok(None) => Ok(Incomplete)
            case Ok(Some(price)) => Ok(Moved(quantity, price))
  }

  // ---- the movements of all positions -----------------------------------------------------------------------------

  function QuantityPart(moved: Id -> Result<Movement, BridgeError>): Id -> int {
    (id: Id) => match moved(id) case Ok(Moved(quantity, _)) => quantity case _ => 0
  }

  function PricePart(moved: Id -> Result<Movement, BridgeError>): Id -> int {
    (id: Id) => match moved(id) case Ok(Moved(_, price)) => price case _ => 0
  }

  /** The residual: what quantity and price leave of the gain. */
  function CurrencyPart(moved: Id -> Result<Movement, BridgeError>, gain: Id -> int): Id -> int {
    (id: Id) => match moved(id) case Ok(Moved(quantity, price)) => gain(id) - quantity - price case _ => 0
  }

  /** The three parts of one instrument's movement. */
  ghost predicate PartsAt(movement: Movement, gain: int, quantity: int, price: int, residual: int) {
    match movement
    case Moved(q, p) => quantity == q && price == p && residual == gain - q - p
    case _ => quantity == 0 && price == 0 && residual == 0
  }

  ghost predicate NoneIncomplete(ids: set<Id>, moved: Id -> Result<Movement, BridgeError>) {
    forall id | id in ids :: moved(id) != Ok(Incomplete)
  }

  ghost predicate AllMoved(ids: set<Id>, moved: Id -> Result<Movement, BridgeError>) {
    forall id | id in ids :: moved(id).Ok?
  }

  datatype Movements = Movements(quantity: Int64, price: Int64, currency: Int64, complete: bool)

  /** Running totals of three parts over some instruments. */
  ghost predicate Totals(
    m: Movements, ids: set<Id>, moved: Id -> Result<Movement, BridgeError>,
    quantity: Id -> int, price: Id -> int, residual: Id -> int)
  {
    && AllMoved(ids, moved)
    && m.quantity == Wrap(SetSum(ids, quantity))
    && m.price == Wrap(SetSum(ids, price))
    && m.currency == Wrap(SetSum(ids, residual))
    && (m.complete <==> NoneIncomplete(ids, moved))
  }

  ghost predicate MovementsOf(m: Movements, ids: set<Id>, moved: Id -> Result<Movement, BridgeError>, gain: Id -> int) {
    Totals(m, ids, moved, QuantityPart(moved), PricePart(moved), CurrencyPart(moved, gain))
  }

  /** The residual as the source subtracts it, wrapping at each step. */
  function Residual(end: Int64, start: Int64, quantity: Int64, price: Int64): Int64 {
    Wrap(Wrap(Wrap(end - start) - quantity) - price)
  }

  lemma ResidualIsTheRest(end: Int64, start: Int64, quantity: Int64, price: Int64)
    ensures Residual(end, start, quantity, price) == Wrap(end - start - quantity - price)
  {
    hide Wrap;
    var gain: int := end - start;
    var q: int, p: int := quantity, price;
    WrapAdd(gain, -q);
    WrapAdd(gain - q, -p);
  }

  lemma ResidualAdds(total: int, end: Int64, start: Int64, quantity: Int64, price: Int64)
    ensures Wrap(Wrap(total) + Residual(end, start, quantity, price)) == Wrap(total + (end - start - quantity - price))
  {
    hide Wrap;
    ResidualIsTheRest(end, start, quantity, price);
    WrapSum(total, end - start - quantity - price);
  }

  lemma WrappedSumOneMore(before: Int64, done: set<Id>, id: Id, part: Id -> int)
    requires before == Wrap(SetSum(done, part)) && id !in done
    ensures Wrap(before + part(id)) == Wrap(SetSum(done + {id}, part))
  {
    SetSumAdd(done, part, id);
    WrapAdd(SetSum(done, part), part(id));
  }

  function Between(
    market: Market, currency: Currency, from: int, to: int, start: map<Id, PositionValue>, end: map<Id, PositionValue>)
    : Id -> Result<Movement, BridgeError>
  {
    (id: Id) => MovementOf(market, currency, from, to, PositionIn(start, id), PositionIn(end, id))
  }

  function Gain(start: map<Id, PositionValue>, end: map<Id, PositionValue>): Id -> int {
    (id: Id) => PositionIn(end, id).value - PositionIn(start, id).value
  }

  /** One turn of the third loop. */
  method MoveOne(
    before: Movements, id: Id, movement: Movement, start: PositionValue, end: PositionValue,
    ghost done: set<Id>, ghost moved: Id -> Result<Movement, BridgeError>,
    ghost quantity: Id -> int, ghost price: Id -> int, ghost residual: Id -> int)
    returns (after: Movements)
    requires Totals(before, done, moved, quantity, price, residual) && id !in done
    requires moved(id) == Ok(movement)
    requires PartsAt(movement, end.value - start.value, quantity(id), price(id), residual(id))
    ensures Totals(after, done + {id}, moved, quantity, price, residual)
  {
    WrappedSumOneMore(before.quantity, done, id, quantity);
    WrappedSumOneMore(before.price, done, id, price);
    WrappedSumOneMore(before.currency, done, id, residual);
    WrapIdentity(before.quantity);
    WrapIdentity(before.price);
    WrapIdentity(before.currency);
    match movement
    case Unmoved => after := before;
    case Incomplete => after := before.(complete := false);
    case Moved(q, p) =>
      ResidualAdds(before.currency, end.value, start.value, q, p);
      after := Movements(
        Wrap(before.quantity + q), Wrap(before.price + p),
        Wrap(before.currency + Residual(end.value, start.value, q, p)), before.complete);
  }

  lemma NoTotals(moved: Id -> Result<Movement, BridgeError>, quantity: Id -> int, price: Id -> int, residual: Id -> int)
    ensures Totals(Movements(0, 0, 0, true), {}, moved, quantity, price, residual)
  {
  }

  /** The third loop, over the instruments of either snapshot in any order. */
  method SumMovements(
    ids: set<Id>, start: map<Id, PositionValue>, end: map<Id, PositionValue>,
    moved: Id -> Result<Movement, BridgeError>,
    ghost quantity: Id -> int, ghost price: Id -> int, ghost residual: Id -> int)
    returns (result: Result<Movements, BridgeError>)
    requires forall id | moved(id).Ok? ::
               PartsAt(moved(id).value, PositionIn(end, id).value - PositionIn(start, id).value, quantity(id),
                 price(id), residual(id))
    ensures match result
            case Ok(sums) => Totals(sums, ids, moved, quantity, price, residual)
            case Err(_) => !AllMoved(ids, moved)
  {
    var remaining := ids;
    var sums := Movements(0, 0, 0, true);
    NoTotals(moved, quantity, price, residual);
    assert ids - remaining == {};
    while remaining != {}
      invariant remaining <= ids
      invariant Totals(sums, ids - remaining, moved, quantity, price, residual)
      decreases |remaining|
    {
      var id :| id in remaining;
      var movement := moved(id);
      if movement.Err? { return Err(movement.error); }
      ghost var done := ids - remaining;
      sums := MoveOne(
        sums, id, movement.value, PositionIn(start, id), PositionIn(end, id), done, moved, quantity, price, residual);
      remaining := remaining - {id};
      assert ids - remaining == done + {id};
    }
    assert ids - {} == ids;
    result := Ok(sums);
  }

  lemma PartsOf(moved: Id -> Result<Movement, BridgeError>, gain: Id -> int, id: Id)
    requires moved(id).Ok?
    ensures PartsAt(moved(id).value, gain(id), QuantityPart(moved)(id), PricePart(moved)(id),
            CurrencyPart(moved, gain)(id))
  {
  }

  method SumMovementsBetween(
    start: map<Id, PositionValue>, end: map<Id, PositionValue>, moved: Id -> Result<Movement, BridgeError>)
    returns (result: Result<Movements, BridgeError>)
    ensures result.Ok? <==> AllMoved(start.Keys + end.Keys, moved)
    ensures result.Ok? ==> MovementsOf(result.value, start.Keys + end.Keys, moved, Gain(start, end))
  {
    ghost var gain := Gain(start, end);
    forall id | moved(id).Ok?
      ensures PartsAt(moved(id).value, PositionIn(end, id).value - PositionIn(start, id).value,
                QuantityPart(moved)(id), PricePart(moved)(id), CurrencyPart(moved, gain)(id))
    {
      PartsOf(moved, gain, id);
    }
    result := SumMovements(
      start.Keys + end.Keys, start, end, moved, QuantityPart(moved), PricePart(moved), CurrencyPart(moved, gain));
  }

  // ---- the bridge -------------------------------------------------------------------------------------------------

  lemma PartsAddUp(m: Movements, ids: set<Id>, q: Id -> int, p: Id -> int, c: Id -> int, gain: Id -> int)
    requires m.quantity == Wrap(SetSum(ids, q)) && m.price == Wrap(SetSum(ids, p)) && m.currency == Wrap(SetSum(ids, c))
    requires forall id | id in ids :: c(id) == gain(id) - q(id) - p(id)
    ensures Wrap(m.quantity + m.price + m.currency) == Wrap(SetSum(ids, gain))
  {
    var rest := (id: Id) => gain(id) - q(id);
    SetSumDifference(ids, gain, q, rest);
    SetSumDifference(ids, rest, p, c);
    var sq, sp, sc := SetSum(ids, q), SetSum(ids, p), SetSum(ids, c);
    WrapSum(sq, sp);
    WrapAdd(m.quantity + m.price, m.currency);
    WrapSum(sq + sp, sc);
  }

  lemma MovementsAddUp(m: Movements, ids: set<Id>, moved: Id -> Result<Movement, BridgeError>, gain: Id -> int)
    requires MovementsOf(m, ids, moved, gain) && m.complete
    requires forall id | moved(id) == Ok(Unmoved) :: gain(id) == 0
    ensures Wrap(m.quantity + m.price + m.currency) == Wrap(SetSum(ids, gain))
  {
    var q, p, c := QuantityPart(moved), PricePart(moved), CurrencyPart(moved, gain);
    forall id | id in ids ensures c(id) == gain(id) - q(id) - p(id) {
      PartsOf(moved, gain, id);
      assert moved(id) != Ok(Incomplete);
    }
    PartsAddUp(m, ids, q, p, c, gain);
  }

  /** The sum of the gains over either snapshot's instruments is the difference of the two sums of worth. */
  lemma GainsTelescope(start: map<Id, PositionValue>, end: map<Id, PositionValue>)
    ensures SetSum(start.Keys + end.Keys, Gain(start, end))
            == SetSum(end.Keys, Worth(end)) - SetSum(start.Keys, Worth(start))
  {
    var ids := start.Keys + end.Keys;
    SetSumDifference(ids, Worth(end), Worth(start), Gain(start, end));
    SetSumExtend(start.Keys, ids, Worth(start));
    SetSumExtend(end.Keys, ids, Worth(end));
  }

  datatype AttributionRead = AttributionRead(
    change: Int64, cash: CashBuckets, tradeCash: Int64, movements: Movements, unattributed: Int64, complete: bool)

  function Attributed(cash: CashBuckets, tradeCash: Int64, m: Movements): Int64 {
    Wrap(cash.externalCash + cash.income + cash.fees + cash.adjustments + tradeCash + m.quantity + m.price + m.currency)
  }

  /** What the report promises when it says it is complete. */
  ghost predicate Bridges(
    read: AttributionRead, start: Snapshot, end: Snapshot, transactions: seq<TransactionRow>, account: Id, from: int,
    to: int)
  {
    && Wrap(read.movements.quantity + read.movements.price + read.movements.currency)
       == Wrap(SetSum(end.positions.Keys, Worth(end.positions)) - SetSum(start.positions.Keys, Worth(start.positions)))
    && (from <= to ==> read.unattributed == Wrap(BucketEffects(transactions, account, from, to, Unclassified)))
  }

  /**
   A position whose movement is not counted, because no quantity is held at either end,
   is worth nothing at either end.
   */
  lemma UnmovedGainsNothing(
    market: Market, currency: Currency, from: int, to: int, start: map<Id, PositionValue>, end: map<Id, PositionValue>,
    id: Id)
    requires EachHeld(start) && EachHeld(end)
    requires Between(market, currency, from, to, start, end)(id) == Ok(Unmoved)
    ensures id !in start && id !in end && Gain(start, end)(id) == 0
  {
    assert MovementOf(market, currency, from, to, PositionIn(start, id), PositionIn(end, id)) == Ok(Unmoved);
    assert PositionIn(start, id).quantity == 0.0 && PositionIn(end, id).quantity == 0.0;
  }

  lemma AllUnmovedGainNothing(
    market: Market, currency: Currency, from: int, to: int, start: map<Id, PositionValue>, end: map<Id, PositionValue>,
    moved: Id -> Result<Movement, BridgeError>, gain: Id -> int)
    requires EachHeld(start) && EachHeld(end)
    requires moved == Between(market, currency, from, to, start, end) && gain == Gain(start, end)
    ensures forall id | moved(id) == Ok(Unmoved) :: gain(id) == 0
  {
    forall id | moved(id) == Ok(Unmoved) ensures gain(id) == 0 {
      UnmovedGainsNothing(market, currency, from, to, start, end, id);
    }
  }

  /** Adding wrapped parts and subtracting them from a wrapped change loses nothing but multiples of 2^64. */
  lemma UnattributedIsTheRest(
    cash: CashBuckets, tradeCash: Int64, m: Movements, total: Bucket -> int, trade: int, gains: int, change: int,
    rest: int)
    requires BucketsHold(cash, total) && tradeCash == Wrap(trade)
    requires Wrap(m.quantity + m.price + m.currency) == Wrap(gains)
    requires change == total(ExternalCash) + total(Income) + total(Fees) + total(CashAdjustments) + trade + gains + rest
    ensures Wrap(Wrap(change) - Attributed(cash, tradeCash, m)) == Wrap(rest)
  {
    hide Wrap;
    var e, i, f, a := total(ExternalCash), total(Income), total(Fees), total(CashAdjustments);
    var moves: int := m.quantity + m.price + m.currency;
    WrapSum(e, i);
    WrapSums3(cash.externalCash + cash.income, e + i, cash.fees, f);
    WrapSums3(cash.externalCash + cash.income + cash.fees, e + i + f, cash.adjustments, a);
    WrapSums3(cash.externalCash + cash.income + cash.fees + cash.adjustments, e + i + f + a, tradeCash, trade);
    var known: int := cash.externalCash + cash.income + cash.fees + cash.adjustments + tradeCash;
    WrapSum(known, moves);
    WrapSum(e + i + f + a + trade, gains);
    assert Attributed(cash, tradeCash, m) == Wrap(e + i + f + a + trade + gains);
    WrapDifference(change, e + i + f + a + trade + gains);
  }

  lemma WrapSums3(left: int, exact: int, next: Int64, part: int)
    requires Wrap(left) == Wrap(exact) && next == Wrap(part)
    ensures Wrap(left + next) == Wrap(exact + part)
  {
    WrapAdd(left, next);
    WrapSum(exact, part);
  }

  /** The exact change between two snapshots: the effects between them, the trade cash between them, and the gains. */
  lemma ChangeBetweenSnapshots(
    start: Snapshot, end: Snapshot, transactions: seq<TransactionRow>, events: seq<EventRow>,
    account: Id, from: int, to: int, origin: int)
    requires origin <= from <= to
    requires Balances(start, transactions, events, account, from, origin)
    requires Balances(end, transactions, events, account, to, origin)
    ensures end.total - start.total
         == Effects(transactions, account, from, to) + TradeCash(events, account, from, to)
          + (SetSum(end.positions.Keys, Worth(end.positions)) - SetSum(start.positions.Keys, Worth(start.positions)))
  {
    EffectsTelescope(transactions, account, origin, from, to);
    TradeCashTelescopes(events, account, origin, from, to);
  }

  lemma MovementsBridge(
    m: Movements, start: map<Id, PositionValue>, end: map<Id, PositionValue>,
    moved: Id -> Result<Movement, BridgeError>,
    gain: Id -> int)
    requires MovementsOf(m, start.Keys + end.Keys, moved, gain) && m.complete
    requires gain == Gain(start, end) && forall id | moved(id) == Ok(Unmoved) :: gain(id) == 0
    ensures Wrap(m.quantity + m.price + m.currency)
            == Wrap(SetSum(end.Keys, Worth(end)) - SetSum(start.Keys, Worth(start)))
  {
    hide Wrap, SetSum;
    MovementsAddUp(m, start.Keys + end.Keys, moved, gain);
    GainsTelescope(start, end);
  }

  lemma HeldMovementsBridge(
    m: Movements, start: map<Id, PositionValue>, end: map<Id, PositionValue>, market: Market, currency: Currency,
    from: int, to: int)
    requires EachHeld(start) && EachHeld(end) && m.complete
    requires MovementsOf(m, start.Keys + end.Keys, Between(market, currency, from, to, start, end), Gain(start, end))
    ensures Wrap(m.quantity + m.price + m.currency)
            == Wrap(SetSum(end.Keys, Worth(end)) - SetSum(start.Keys, Worth(start)))
  {
    var moved, gain := Between(market, currency, from, to, start, end), Gain(start, end);
    AllUnmovedGainNothing(market, currency, from, to, start, end, moved, gain);
    MovementsBridge(m, start, end, moved, gain);
  }

  lemma ChangeByBuckets(
    start: Snapshot, end: Snapshot, transactions: seq<TransactionRow>, events: seq<EventRow>,
    account: Id, from: int, to: int, origin: int, total: Bucket -> int, gains: int)
    requires origin <= from <= to && total == Bucketed(transactions, account, from, to)
    requires Balances(start, transactions, events, account, from, origin)
    requires Balances(end, transactions, events, account, to, origin)
    requires gains == SetSum(end.positions.Keys, Worth(end.positions))
             - SetSum(start.positions.Keys, Worth(start.positions))
    ensures end.total - start.total
         == total(ExternalCash) + total(Income) + total(Fees) + total(CashAdjustments)
           + TradeCash(events, account, from, to)
          + gains + total(Unclassified)
  {
    ChangeBetweenSnapshots(start, end, transactions, events, account, from, to, origin);
    BucketsCoverTheEffects(transactions, account, from, to);
  }

  lemma RestBetweenSnapshots(
    read: AttributionRead, start: Snapshot, end: Snapshot, transactions: seq<TransactionRow>, events: seq<EventRow>,
    account: Id, from: int, to: int, origin: int)
    requires origin <= from <= to
    requires Balances(start, transactions, events, account, from, origin)
    requires Balances(end, transactions, events, account, to, origin)
    requires BucketsHold(read.cash, Bucketed(transactions, account, from, to))
    requires read.tradeCash == Wrap(TradeCash(events, account, from, to))
    requires Wrap(read.movements.quantity + read.movements.price + read.movements.currency)
          == Wrap(SetSum(end.positions.Keys, Worth(end.positions))
            - SetSum(start.positions.Keys, Worth(start.positions)))
    requires read.change == Wrap(end.total - start.total)
    requires read.unattributed == Wrap(read.change - Attributed(read.cash, read.tradeCash, read.movements))
    ensures read.unattributed == Wrap(BucketEffects(transactions, account, from, to, Unclassified))
  {
    hide Wrap;
    var total := Bucketed(transactions, account, from, to);
    var gains := SetSum(end.positions.Keys, Worth(end.positions))
      - SetSum(start.positions.Keys, Worth(start.positions));
    ChangeByBuckets(start, end, transactions, events, account, from, to, origin, total, gains);
    UnattributedIsTheRest(
      read.cash, read.tradeCash, read.movements, total, TradeCash(events, account, from, to), gains,
      end.total - start.total,
      total(Unclassified));
  }

  /** What the report is made of. */
  ghost predicate AttributionOf(
    read: AttributionRead, start: Snapshot, end: Snapshot, market: Market, transactions: seq<TransactionRow>,
    events: seq<EventRow>, account: Id, currency: Currency, from: int, to: int)
  {
    && read.change == Wrap(end.total - start.total)
    && BucketsHold(read.cash, Bucketed(transactions, account, from, to))
    && read.tradeCash == Wrap(TradeCash(events, account, from, to))
    && MovementsOf(
         read.movements, start.positions.Keys + end.positions.Keys,
         Between(market, currency, from, to, start.positions, end.positions), Gain(start.positions, end.positions))
    && read.unattributed == Wrap(read.change - Attributed(read.cash, read.tradeCash, read.movements))
    && (read.complete <==> start.complete && end.complete && read.movements.complete)
  }

  /** A complete report bridges. */
  lemma CompleteBridges(
    read: AttributionRead, start: Snapshot, end: Snapshot, market: Market, transactions: seq<TransactionRow>,
    events: seq<EventRow>, account: Id, currency: Currency, from: int, to: int, origin: int)
    requires origin <= from
    requires EachHeld(start.positions) && Balances(start, transactions, events, account, from, origin)
    requires EachHeld(end.positions) && Balances(end, transactions, events, account, to, origin)
    requires AttributionOf(read, start, end, market, transactions, events, account, currency, from, to) && read.complete
    ensures Bridges(read, start, end, transactions, account, from, to)
  {
    hide Wrap, EachHeld, Balances, MovementsOf, BucketsHold;
    HeldMovementsBridge(read.movements, start.positions, end.positions, market, currency, from, to);
    if from <= to {
      RestBetweenSnapshots(read, start, end, transactions, events, account, from, to, origin);
    }
  }

  /** The attribution of the change between two snapshots already taken. */
  method AttributeChange(
    start: Snapshot, end: Snapshot, market: Market, transactions: seq<TransactionRow>, events: seq<EventRow>,
    account: Id,
    currency: Currency, from: int, to: int)
    returns (result: Result<AttributionRead, BridgeError>)
    ensures result.Ok? <==> AllMoved(
              start.positions.Keys + end.positions.Keys,
              Between(market, currency, from, to, start.positions, end.positions))
    ensures result.Ok? ==> AttributionOf(result.value, start, end, market, transactions, events, account, currency,
            from, to)
  {
    hide MovementsOf, BucketsHold, AllMoved, Wrap, MovementOf;
    var cash := ClassifyCash(transactions, account, from, to);
    var tradeCash := SumTradeCash(events, account, from, to);
    var moved := Between(market, currency, from, to, start.positions, end.positions);
    var movements := SumMovementsBetween(start.positions, end.positions, moved);
    if movements.Err? { return Err(movements.error); }
    var change := Wrap(end.total - start.total);
    var unattributed := Wrap(change - Attributed(cash, tradeCash, movements.value));
    var complete := start.complete && end.complete && movements.value.complete;
    result := Ok(AttributionRead(change, cash, tradeCash, movements.value, unattributed, complete));
  }

  /**
   `chartMovementAttribution`: the snapshots it takes, what it makes of them, and, when it
   says it is complete, that it bridges.
   */
  method ChartMovementAttribution(
    market: Market, transactions: seq<TransactionRow>, events: seq<EventRow>, account: Id, currency: Currency,
    from: int, to: int, ghost origin: int)
    returns (result: Result<AttributionRead, BridgeError>, ghost start: Snapshot, ghost end: Snapshot)
    requires Beginning(transactions, events, origin) && origin <= from
    ensures Valuable(market, transactions, events, account, currency, from)
            && Valuable(market, transactions, events, account, currency, to)
            && AllMoved(
                 start.positions.Keys + end.positions.Keys,
                 Between(market, currency, from, to, start.positions, end.positions)) ==>
              result.Ok?
    ensures result.Ok? ==>
              && SnapshotOf(start, market, transactions, events, account, currency, from, origin)
              && SnapshotOf(end, market, transactions, events, account, currency, to, origin)
              && AttributionOf(result.value, start, end, market, transactions, events, account, currency, from, to)
              && (result.value.complete ==> Bridges(result.value, start, end, transactions, account, from, to))
  {
    start, end := Snapshot(0, map[], true), Snapshot(0, map[], true);
    var opening := BuildChartPositionSnapshot(market, transactions, events, account, currency, from, origin);
    if opening.Err? { return Err(opening.error), start, end; }
    var closing := BuildChartPositionSnapshot(market, transactions, events, account, currency, to, origin);
    if closing.Err? { return Err(closing.error), start, end; }
    start, end := opening.value, closing.value;
    result := AttributeChange(opening.value, closing.value, market, transactions, events, account, currency, from, to);
    if result.Ok? && result.value.complete {
      SnapshotHolds(start, market, transactions, events, account, currency, from, origin);
      SnapshotHolds(end, market, transactions, events, account, currency, to, origin);
      CompleteBridges(result.value, start, end, market, transactions, events, account, currency, from, to, origin);
    }
  }

  // ---- the sign of a sale -----------------------------------------------------------------------------------------

  lemma Pow10Positive(digits: nat)
    ensures Pow10(digits) > 0
  {
  }

  lemma DifferenceOfProducts(x: real, y: real, p: real, r: real, u: real)
    ensures (x - y) * p * u == x * p * u - y * p * u
    ensures (y - x) * p * u == y * p * u - x * p * u
    ensures x * (p - r) * u == x * p * u - x * r * u
  {
  }

  lemma SignOfProduct(x: real, p: real, u: real)
    requires p > 0.0 && u > 0.0
    ensures x >= 0.0 <==> x * p * u >= 0.0
  {
    if x < 0.0 { assert x * p < 0.0; } else { assert x * p >= 0.0; }
    if x * p < 0.0 { assert x * p * u < 0.0; } else { assert x * p * u >= 0.0; }
  }

  /** The product of a fallen quantity is that of the fall. */
  lemma ProductOfChange(q0: real, q1: real, price: real, digits: nat)
    requires q0 >= 0.0 && q1 >= 0.0 && price > 0.0
    ensures q1 >= q0 <==> Product(q1, price, digits) >= Product(q0, price, digits)
    ensures Product(q1 - q0, price, digits) == Magnitude(Product(q1, price, digits) - Product(q0, price, digits))
  {
    var u := Pow10(digits) as real;
    Pow10Positive(digits);
    DifferenceOfProducts(q1, q0, price, price, u);
    SignOfProduct(q1 - q0, price, u);
    assert Product(q1, price, digits) == q1 * price * u && Product(q0, price, digits) == q0 * price * u;
  }

  lemma ProductOfPriceChange(quantity: real, p0: real, p1: real, digits: nat)
    ensures Product(quantity, p1 - p0, digits) == Product(quantity, p1, digits) - Product(quantity, p0, digits)
  {
    DifferenceOfProducts(Magnitude(quantity), 0.0, p1, p0, Pow10(digits) as real);
  }

  lemma WholeProduct(quantity: real, price: real, digits: nat, minor: Int64)
    requires Product(quantity, price, digits) == minor as real
    ensures DecimalProductMinor(quantity, price, digits) == Ok(minor)
  {
    RoundReaches(minor as real, minor);
  }

  /** A position valued in a snapshot. */
  ghost predicate ValuedAt(
    position: PositionValue, market: Market, currency: Currency, quantity: real, price: Price, at: int)
  {
    quantity > 0.0 && position.complete && PositionAt(market, currency, quantity, Some(price), at) == Ok(position)
  }

  const NOT_HELD := PositionValue(0.0, None, 0, false)

  /** A position opened between the two days is quantity movement and nothing else. */
  lemma OpeningIsAllQuantity(
    market: Market, currency: Currency, from: int, to: int, end: PositionValue, quantity: real, price: Price)
    requires ValuedAt(end, market, currency, quantity, price, to)
    ensures MovementOf(market, currency, from, to, NOT_HELD, end) == Ok(Moved(end.value, 0))
    ensures Residual(end.value, 0, end.value, 0) == 0
  {
    assert end.quantity - 0.0 == quantity;
  }

  /** A position closed between them is as much quantity movement as it was worth, and minus twice that as currency. */
  lemma ClosingIsCountedTwice(
    market: Market, currency: Currency, from: int, to: int, start: PositionValue, quantity: real, price: Price)
    requires ValuedAt(start, market, currency, quantity, price, from)
    ensures MovementOf(market, currency, from, to, start, NOT_HELD) == Ok(Moved(start.value, 0))
    ensures Residual(0, start.value, start.value, 0) == Wrap(-2 * start.value)
  {
    hide DecimalProductMinor, Wrap;
    SameMagnitude(0.0 - quantity, quantity, price.amount, market.digits(price.currency));
    WorthTwice(start.value);
  }

  /** So in a report: an instrument in one snapshot only is a position opened or closed between them. */
  lemma OpenedOrClosedBetween(
    market: Market, currency: Currency, from: int, to: int, start: map<Id, PositionValue>, end: map<Id, PositionValue>,
    id: Id, quantity: real, price: Price)
    requires id in start.Keys + end.Keys && id !in start.Keys * end.Keys
    requires id in end ==> ValuedAt(end[id], market, currency, quantity, price, to)
    requires id in start ==> ValuedAt(start[id], market, currency, quantity, price, from)
    ensures
      var value := if id in end then end[id].value else start[id].value;
      && Between(market, currency, from, to, start, end)(id) == Ok(Moved(value, 0))
      && Gain(start, end)(id) == if id in end then value else -value
  {
    if id in end {
      OpeningIsAllQuantity(market, currency, from, to, end[id], quantity, price);
    } else {
      ClosingIsCountedTwice(market, currency, from, to, start[id], quantity, price);
    }
  }

  /**
   A movement is never made up: what is held on either side has its price, and what is
   missing is a price or a rate.
   */
  lemma MovesOnlyWhatIsPriced(
    market: Market, currency: Currency, from: int, to: int, start: PositionValue, end: PositionValue)
    ensures start.quantity == 0.0 && end.quantity == 0.0 ==>
              MovementOf(market, currency, from, to, start, end) == Ok(Unmoved)
    ensures
      var unpriced := || (start.quantity > 0.0 && start.price.None?) || (end.quantity > 0.0 && end.price.None?)
                      || (start.price.None? && end.price.None?);
      match MovementOf(market, currency, from, to, start, end)
      case Ok(Unmoved) => start.quantity == 0.0 && end.quantity == 0.0
      case Ok(Moved(_, price)) => !unpriced && (start.price.None? || end.price.None? ==> price == 0)
      case Ok(Incomplete) =>
        unpriced || exists amount, quote, day :: market.convert(amount, quote, currency, day) == Ok(None)
      case Err(_) => !unpriced
  {
    hide DecimalProductMinor;
  }

  lemma SameMagnitude(x: real, y: real, price: real, digits: nat)
    requires Magnitude(x) == Magnitude(y)
    ensures DecimalProductMinor(x, price, digits) == DecimalProductMinor(y, price, digits)
  {
    assert Product(x, price, digits) == Product(y, price, digits);
  }

  lemma WorthTwice(value: Int64)
    ensures Residual(0, value, value, 0) == Wrap(-2 * value)
  {
    var v: int := value;
    WrapAdd(-v, -v);
    WrapIdentity(Wrap(-2 * v));
  }

  lemma NothingChanges(quantity: real, price: real, digits: nat)
    ensures DecimalProductMinor(quantity - quantity, price, digits) == Ok(0)
    ensures DecimalProductMinor(quantity, price - price, digits) == Ok(0)
  {
    var u := Pow10(digits) as real;
    assert 0.0 * price * u == 0.0;
    assert Magnitude(quantity) * 0.0 * u == 0.0;
    WholeProduct(quantity - quantity, price, digits, 0);
    WholeProduct(quantity, price - price, digits, 0);
  }

  /** A position held at an unchanged price only moves with the exchange rate. */
  lemma HoldingIsAllCurrency(
    market: Market, currency: Currency, from: int, to: int, start: PositionValue, end: PositionValue, quantity: real,
    price: Price)
    requires ValuedAt(start, market, currency, quantity, price, from)
             && ValuedAt(end, market, currency, quantity, price, to)
    requires market.convert(0, price.currency, currency, from) == Ok(Some(0))
    ensures MovementOf(market, currency, from, to, start, end) == Ok(Moved(0, 0))
    ensures Residual(end.value, start.value, 0, 0) == Wrap(end.value - start.value)
  {
    hide DecimalProductMinor;
    NothingChanges(quantity, price.amount, market.digits(price.currency));
    var gain: int := end.value - start.value;
    WrapIdentity(Wrap(gain));
  }

  /**
   A position priced in the account's own currency at both ends, whose products are whole
   minor units, so that neither rounding nor conversion plays a part: `held` is the
   opening value, `kept` the closing quantity at the opening price, `worth` the closing
   value.  Because the quantity enters the product by its magnitude, a sale counts as a
   positive quantity movement, and the "currency" residual is not zero but minus twice it.
   */
  lemma SaleIsCountedTwiceAsCurrency(
    market: Market, currency: Currency, from: int, to: int, q0: real, q1: real, p0: real, p1: real,
    held: Int64, kept: Int64, worth: Int64)
    requires q0 > 0.0 && q1 > 0.0 && p0 > 0.0
    requires
      var digits := market.digits(currency);
      Product(q0, p0, digits) == held as real && Product(q1, p0, digits) == kept as real
        && Product(q1, p1, digits) == worth as real
    requires forall minor: Int64, at: int :: market.convert(minor, currency, currency, at) == Ok(Some(minor))
    requires IsInt64(Abs(kept - held)) && IsInt64(worth - kept)
    ensures
      var start := PositionValue(q0, Some(Price(p0, currency)), held, true);
      var end := PositionValue(q1, Some(Price(p1, currency)), worth, true);
      && MovementOf(market, currency, from, to, start, end) == Ok(Moved(Abs(kept - held), worth - kept))
      && Residual(worth, held, Abs(kept - held), worth - kept) == Wrap(if q1 >= q0 then 0 else 2 * (kept - held))
      && (Residual(worth, held, Abs(kept - held), worth - kept) == 0 <==> q1 >= q0)
  {
    hide DecimalProductMinor, Product, Wrap, Residual;
    var digits := market.digits(currency);
    ProductOfChange(q0, q1, p0, digits);
    WholeProduct(q1 - q0, p0, digits, Abs(kept - held));
    ProductOfPriceChange(q1, p0, p1, digits);
    WholeProduct(q1, p1 - p0, digits, worth - kept);
    ResidualIsTheRest(worth, held, Abs(kept - held), worth - kept);
    TwiceWrapsToNothing(kept - held);
    TwiceWrapsToNothing(0);
  }

  lemma TwiceWrapsToNothing(fall: int)
    requires IsInt64(Abs(fall))
    ensures Wrap(2 * fall) == 0 <==> fall == 0
  {
  }

  /**
   Through exchange rates: the change in quantity is valued at the opening price and the
   opening rate, the change in price on the closing quantity at the opening rate, and what
   is left for currency is the change of the rate on the closing value, and minus twice a
   fall in quantity.
   */
  lemma CurrencyIsTheRateChange(
    market: Market, currency: Currency, quote: Currency, from: int, to: int, n0: nat, n1: nat, m0: int, m1: int,
    rate: int -> int, start: PositionValue, end: PositionValue)
    requires n0 > 0 && n1 > 0
    requires forall amount: Int64, day: int | IsInt64(amount * rate(day)) ::
               market.convert(amount, quote, currency, day) == Ok(Some(amount * rate(day)))
    requires start == PositionValue(n0 as real, Some(InMinor(market, quote, m0)), start.value, true)
    requires end == PositionValue(n1 as real, Some(InMinor(market, quote, m1)), end.value, true)
    requires start.value == n0 * m0 * rate(from) && end.value == n1 * m1 * rate(to)
    requires IsInt64(Abs(n1 - n0) * m0) && IsInt64(Abs(n1 - n0) * m0 * rate(from))
    requires IsInt64(n1 * (m1 - m0)) && IsInt64(n1 * (m1 - m0) * rate(from))
    ensures
      var quantity, price := Abs(n1 - n0) * m0 * rate(from), n1 * (m1 - m0) * rate(from);
      && MovementOf(market, currency, from, to, start, end) == Ok(Moved(quantity, price))
      && end.value - start.value - quantity - price
         == n1 * m1 * (rate(to) - rate(from)) + if n1 >= n0 then 0 else 2 * ((n1 - n0) * m0 * rate(from))
  {
    hide DecimalProductMinor;
    var digits := market.digits(quote);
    SharesAtAPrice(n1 - n0, m0, digits);
    SharesAtAPrice(n1, m1 - m0, digits);
    assert m1 as real / Pow10(digits) as real - m0 as real / Pow10(digits) as real
      == (m1 - m0) as real / Pow10(digits) as real;
    assert (n1 - n0) as real == n1 as real - n0 as real && Abs(n1) == n1;
    RateChange(n0, n1, m0, m1, rate(from), rate(to));
  }

  function InMinor(market: Market, quote: Currency, minor: int): Price {
    Price(minor as real / Pow10(market.digits(quote)) as real, quote)
  }

  lemma RateChange(n0: int, n1: int, m0: int, m1: int, r0: int, r1: int)
    ensures n1 * m1 * r1 - n0 * m0 * r0 - Abs(n1 - n0) * m0 * r0 - n1 * (m1 - m0) * r0
         == n1 * m1 * (r1 - r0) + if n1 >= n0 then 0 else 2 * ((n1 - n0) * m0 * r0)
  {
    var x, y, z := n1 * m1, n1 * m0, n0 * m0;
    assert n1 * (m1 - m0) == x - y && (n1 - n0) * m0 == y - z;
    assert Abs(n1 - n0) * m0 == if n1 >= n0 then y - z else z - y;
    assert (x - y) * r0 == x * r0 - y * r0 && (y - z) * r0 == y * r0 - z * r0 && (z - y) * r0 == z * r0 - y * r0;
    assert x * (r1 - r0) == x * r1 - x * r0;
  }

  /**
   Rounding moves the residual by at most two minor units: with products that are not
   whole, it is as far from nothing, or from twice the fall in quantity at the opening price.
   */
  lemma SaleIsCountedTwiceWithinRounding(
    market: Market, currency: Currency, from: int, to: int, q0: real, q1: real, p0: real, p1: real,
    held: Int64, worth: Int64, quantity: Int64, price: Int64)
    requires q0 > 0.0 && q1 > 0.0 && p0 > 0.0
    requires
      var digits := market.digits(currency);
      && DecimalProductMinor(q0, p0, digits) == Ok(held) && DecimalProductMinor(q1, p1, digits) == Ok(worth)
      && DecimalProductMinor(q1 - q0, p0, digits) == Ok(quantity)
         && DecimalProductMinor(q1, p1 - p0, digits) == Ok(price)
    requires forall minor: Int64, at: int :: market.convert(minor, currency, currency, at) == Ok(Some(minor))
    ensures
      var start := PositionValue(q0, Some(Price(p0, currency)), held, true);
      var end := PositionValue(q1, Some(Price(p1, currency)), worth, true);
      && MovementOf(market, currency, from, to, start, end) == Ok(Moved(quantity, price))
      && Residual(worth, held, quantity, price) == Wrap(worth - held - quantity - price)
    ensures
      var digits := market.digits(currency);
      var twice := if q1 >= q0 then 0.0 else 2.0 * (Product(q1, p0, digits) - Product(q0, p0, digits));
      -2.0 <= (worth - held - quantity - price) as real - twice <= 2.0
  {
    var digits := market.digits(currency);
    assert MovementOf(market, currency, from, to, PositionValue(q0, Some(Price(p0, currency)), held, true),
                      PositionValue(q1, Some(Price(p1, currency)), worth, true)) == Ok(Moved(quantity, price)) by {
      hide DecimalProductMinor;
    }
    hide Product, Wrap, Residual;
    ProductOfChange(q0, q1, p0, digits);
    ProductOfPriceChange(q1, p0, p1, digits);
    ResidualIsTheRest(worth, held, quantity, price);
  }
}
