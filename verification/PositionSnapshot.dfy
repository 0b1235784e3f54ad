/**
 What a position account is worth on a day: its cash and its priced and converted
 holdings (`buildChartPositionSnapshot` of `chart_analytics.go`).
 */
module PositionSnapshot {
  import opened Wrappers
  import opened Rational
  import opened Decimals
  import opened Ledger
  import opened Sequences
  import opened Sums

  type Currency = string

  datatype TransactionRow = TransactionRow(account: Id, date: int, typeName: TransactionType, amount: Int64)

  datatype EventRow = EventRow(account: Id, instrument: Id, date: int, cashEffect: Int64)

  datatype Price = Price(amount: real, currency: Currency)

  datatype BridgeError = BridgeError

  /**
   What the bridge looks up: the quantities a sequence of position events leaves, the
   latest usable price of an instrument, a conversion at the rate effective on a day
   (`None` when there is no rate), and the decimal places of a currency.
   */
  datatype Market = Market(
    quantities: seq<EventRow> -> Result<map<Id, real>, BridgeError>,
    price: (Id, seq<EventRow>, int) -> Option<Price>,
    convert: (Int64, Currency, Currency, int) -> Result<Option<Int64>, BridgeError>,
    digits: Currency -> nat)

  function Magnitude(x: real): real {
    if x < 0.0 then -x else x
  }

  function MinorUnits(magnitude: real, price: real, digits: nat): real {
    magnitude * price * (Pow10(digits) as real)
  }

  /** The exact product behind `decimalProductMinor`: of the quantity's magnitude and the price, in minor units. */
  function Product(quantity: real, price: real, digits: nat): real {
    MinorUnits(Magnitude(quantity), price, digits)
  }

  /** `decimalProductMinor`. */
  function DecimalProductMinor(quantity: real, price: real, digits: nat): Result<Int64, BridgeError> {
    var rounded := Round(Product(quantity, price, digits));
    if IsInt64(rounded) then Ok(rounded) else Err(BridgeError)
  }

  // ---- the cash of an account -------------------------------------------------------------------------------------

  function Counted(row: TransactionRow, account: Id, from: int, to: int): bool {
    row.account == account && from < row.date <= to
  }

  /** The exact effects of an account's transactions dated after one day and not after another. */
  function Effects(rows: seq<TransactionRow>, account: Id, from: int, to: int): int {
    if rows == [] then 0
    else Effects(Front(rows), account, from, to)
         + if Counted(Last(rows), account, from, to) then InvestmentEffect(Last(rows).typeName, Last(rows).amount)
           else 0
  }

  function TradeCash(rows: seq<EventRow>, account: Id, from: int, to: int): int {
    if rows == [] then 0
    else TradeCash(Front(rows), account, from, to)
         + if Last(rows).account == account && from < Last(rows).date <= to then Last(rows).cashEffect else 0
  }

  function EventsUpTo(rows: seq<EventRow>, account: Id, at: int): seq<EventRow> {
    if rows == [] then []
    else EventsUpTo(Front(rows), account, at)
         + if Last(rows).account == account && Last(rows).date <= at then [Last(rows)] else []
  }

  /** A day before every row. */
  ghost predicate Beginning(transactions: seq<TransactionRow>, events: seq<EventRow>, origin: int) {
    (forall r | r in transactions :: origin < r.date) && (forall e | e in events :: origin < e.date)
  }

  lemma {:induction false} EffectsTelescope(rows: seq<TransactionRow>, account: Id, origin: int, from: int, to: int)
    requires origin <= from <= to
    ensures Effects(rows, account, origin, from) + Effects(rows, account, from, to)
            == Effects(rows, account, origin, to)
  {
    if rows != [] { EffectsTelescope(Front(rows), account, origin, from, to); }
  }

  lemma {:induction false} TradeCashTelescopes(rows: seq<EventRow>, account: Id, origin: int, from: int, to: int)
    requires origin <= from <= to
    ensures TradeCash(rows, account, origin, from) + TradeCash(rows, account, from, to)
            == TradeCash(rows, account, origin, to)
  {
    if rows != [] { TradeCashTelescopes(Front(rows), account, origin, from, to); }
  }

  // ---- snapshots --------------------------------------------------------------------------------------------------

  datatype PositionValue = PositionValue(quantity: real, price: Option<Price>, value: Int64, complete: bool)

  datatype Snapshot = Snapshot(total: Int64, positions: map<Id, PositionValue>, complete: bool)

  /** The value of one held quantity; a position without a price or a rate counts for nothing. */
  function PositionAt(market: Market, currency: Currency, quantity: real, price: Option<Price>, at: int)
    : Result<PositionValue, BridgeError>
  {
    if price.None? then Ok(PositionValue(quantity, None, 0, false))
    else
      match DecimalProductMinor(quantity, price.value.amount, market.digits(price.value.currency))
      case Err(e) => Err(e)
      case Ok(quote) =>
        match market.convert(quote, price.value.currency, currency, at)
        case Err(e) => Err(e)
        case Ok(None) => Ok(PositionValue(quantity, price, 0, false))
        case Ok(Some(minor)) => Ok(PositionValue(quantity, price, minor, true))
  }

  function Worth(positions: map<Id, PositionValue>): Id -> int {
    id => if id in positions then positions[id].value else 0
  }

  ghost function Held(quantities: map<Id, real>): set<Id> {
    set id | id in quantities && quantities[id] != 0.0
  }

  ghost predicate EachValued(
    positions: map<Id, PositionValue>, quantities: map<Id, real>,
    valued: (Id, real) -> Result<PositionValue, BridgeError>)
  {
    forall id | id in positions :: id in quantities && valued(id, quantities[id]) == Ok(positions[id])
  }

  ghost predicate AllComplete(positions: map<Id, PositionValue>) {
    forall id | id in positions :: positions[id].complete
  }

  /** A valuation keeps the quantity it was given, and one that found no price or rate counts for nothing. */
  ghost predicate Values(valued: (Id, real) -> Result<PositionValue, BridgeError>) {
    forall id: Id, quantity: real | valued(id, quantity).Ok? ::
      var position := valued(id, quantity).value;
      position.quantity == quantity && (!position.complete ==> position.value == 0)
  }

  function Valuation(market: Market, currency: Currency, rows: seq<EventRow>, at: int)
    : (Id, real) -> Result<PositionValue, BridgeError>
  {
    (id: Id, quantity: real) => PositionAt(market, currency, quantity, market.price(id, rows, at), at)
  }

  lemma ValuationValues(market: Market, currency: Currency, rows: seq<EventRow>, at: int)
    ensures Values(Valuation(market, currency, rows, at))
  {
    var valued := Valuation(market, currency, rows, at);
    forall id: Id, quantity: real | valued(id, quantity).Ok?
      ensures var position := valued(id, quantity).value;
              position.quantity == quantity && (!position.complete ==> position.value == 0)
    {
      assert valued(id, quantity) == PositionAt(market, currency, quantity, market.price(id, rows, at), at);
    }
  }

  /** What a snapshot says: cash plus the worth of every position held, each counted once. */
  ghost predicate SnapshotOf(
    snapshot: Snapshot, market: Market, transactions: seq<TransactionRow>, events: seq<EventRow>,
    account: Id, currency: Currency, at: int, origin: int)
  {
    var rows := EventsUpTo(events, account, at);
    var quantities := market.quantities(rows);
    && quantities.Ok?
    && snapshot.positions.Keys == Held(quantities.value)
    && EachValued(snapshot.positions, quantities.value, Valuation(market, currency, rows, at))
    && (snapshot.complete <==> AllComplete(snapshot.positions))
    && Balances(snapshot, transactions, events, account, at, origin)
  }

  /** Every position in a snapshot is held. */
  lemma SnapshotHolds(
    snapshot: Snapshot, market: Market, transactions: seq<TransactionRow>, events: seq<EventRow>,
    account: Id, currency: Currency, at: int, origin: int)
    requires SnapshotOf(snapshot, market, transactions, events, account, currency, at, origin)
    ensures EachHeld(snapshot.positions) && Balances(snapshot, transactions, events, account, at, origin)
  {
    var rows := EventsUpTo(events, account, at);
    var quantities := market.quantities(rows).value;
    ValuationValues(market, currency, rows, at);
    forall id | id in snapshot.positions ensures snapshot.positions[id].quantity != 0.0 {
      assert id in Held(quantities)
        && Valuation(market, currency, rows, at)(id, quantities[id]) == Ok(snapshot.positions[id]);
    }
  }

  ghost predicate EachHeld(positions: map<Id, PositionValue>) {
    forall id | id in positions :: positions[id].quantity != 0.0
  }

  /** The total of a snapshot: its cash up to the day and the worth of its positions. */
  ghost predicate Balances(
    snapshot: Snapshot, transactions: seq<TransactionRow>, events: seq<EventRow>, account: Id, at: int, origin: int)
  {
    snapshot.total == Effects(transactions, account, origin, at) + TradeCash(events, account, origin, at)
                      + SetSum(snapshot.positions.Keys, Worth(snapshot.positions))
  }

  /** A quantity has a price, and its worth a rate on the day. */
  predicate Priced(market: Market, currency: Currency, quantity: real, price: Option<Price>, at: int) {
    && price.Some?
    && var quote := DecimalProductMinor(quantity, price.value.amount, market.digits(price.value.currency));
       quote.Ok? && market.convert(quote.value, price.value.currency, currency, at) != Ok(None)
  }

  /** A snapshot is complete exactly when everything held has a price and a rate; what has none counts for nothing. */
  lemma SnapshotIsCompleteExactlyWhen(
    s: Snapshot, market: Market, transactions: seq<TransactionRow>, events: seq<EventRow>,
    account: Id, currency: Currency, at: int, origin: int)
    requires SnapshotOf(s, market, transactions, events, account, currency, at, origin)
    ensures
      var rows := EventsUpTo(events, account, at);
      && (s.complete <==>
          forall id | id in s.positions ::
            Priced(market, currency, s.positions[id].quantity, market.price(id, rows, at), at))
      && (forall id | id in s.positions ::
            s.positions[id].price == market.price(id, rows, at)
            && (s.positions[id].complete || s.positions[id].value == 0))
  {
    var rows := EventsUpTo(events, account, at);
    var quantities := market.quantities(rows).value;
    forall id | id in s.positions
      ensures
        s.positions[id].price == market.price(id, rows, at) && (s.positions[id].complete || s.positions[id].value == 0)
      ensures
        s.positions[id].complete <==>
        Priced(market, currency, s.positions[id].quantity, market.price(id, rows, at), at)
    {
      assert Valuation(market, currency, rows, at)(id, quantities[id]) == Ok(s.positions[id]);
    }
  }

  // ---- which rows a snapshot is taken from ------------------------------------------------------------------------

  lemma {:induction false} EventsUpToJoin(one: seq<EventRow>, other: seq<EventRow>, account: Id, at: int)
    ensures EventsUpTo(one + other, account, at) == EventsUpTo(one, account, at) + EventsUpTo(other, account, at)
  {
    if other == [] {
      assert one + other == one;
    } else {
      EventsUpToJoin(one, Front(other), account, at);
      assert Front(one + other) == one + Front(other) && Last(one + other) == Last(other);
    }
  }

  /** The events replayed are those of the account dated on or before the day, in table order and as often as stored. */
  lemma {:induction false} EventsUpToHold(rows: seq<EventRow>, account: Id, at: int, e: EventRow)
    ensures multiset(EventsUpTo(rows, account, at))[e]
         == if e.account == account && e.date <= at then multiset(rows)[e] else 0
    ensures forall one, other | rows == one + other ::
              EventsUpTo(rows, account, at) == EventsUpTo(one, account, at) + EventsUpTo(other, account, at)
  {
    if rows != [] {
      EventsUpToHold(Front(rows), account, at, e);
      FrontElements(rows);
    }
    forall one, other | rows == one + other
      ensures EventsUpTo(rows, account, at) == EventsUpTo(one, account, at) + EventsUpTo(other, account, at)
    {
      EventsUpToJoin(one, other, account, at);
    }
  }

  function CashOf(rows: seq<EventRow>): int {
    if rows == [] then 0 else CashOf(Front(rows)) + Last(rows).cashEffect
  }

  lemma CashOfOneMore(rows: seq<EventRow>, e: EventRow)
    ensures CashOf(rows + [e]) == CashOf(rows) + e.cashEffect
  {
    assert Front(rows + [e]) == rows;
  }

  /** The cash of a snapshot pays for the very events its quantities are replayed from. */
  lemma {:induction false} HoldingsArePaidFor(rows: seq<EventRow>, account: Id, origin: int, at: int)
    requires forall e | e in rows :: origin < e.date
    ensures TradeCash(rows, account, origin, at) == CashOf(EventsUpTo(rows, account, at))
  {
    if rows != [] {
      HoldingsArePaidFor(Front(rows), account, origin, at);
      var front := EventsUpTo(Front(rows), account, at);
      assert Last(rows) in rows && front + [] == front;
      CashOfOneMore(front, Last(rows));
    }
  }

  /** What a snapshot holds in cash. */
  ghost function CashIn(snapshot: Snapshot): int {
    snapshot.total - SetSum(snapshot.positions.Keys, Worth(snapshot.positions))
  }

  /**
   One more event changes no snapshot of another account or of an earlier day, and reaches
   both the cash and the quantities of every snapshot from its own day on.
   */
  lemma OneMoreEvent(
    s: Snapshot, market: Market, transactions: seq<TransactionRow>, events: seq<EventRow>, e: EventRow, account: Id,
    currency: Currency, at: int, origin: int)
    requires origin < e.date
    ensures e.account != account || e.date > at ==>
              (SnapshotOf(s, market, transactions, events + [e], account, currency, at, origin)
               <==> SnapshotOf(s, market, transactions, events, account, currency, at, origin))
    ensures e.account == account && e.date <= at
            && SnapshotOf(s, market, transactions, events + [e], account, currency, at, origin) ==>
              var quantities := market.quantities(EventsUpTo(events, account, at) + [e]);
              && quantities.Ok? && s.positions.Keys == Held(quantities.value)
              && CashIn(s)
                 == Effects(transactions, account, origin, at) + TradeCash(events, account, origin, at) + e.cashEffect
  {
    assert Front(events + [e]) == events && Last(events + [e]) == e;
    assert EventsUpTo(events, account, at) + [] == EventsUpTo(events, account, at);
  }

  /** One more transaction changes only the cash, by its effect, and only from its own day on. */
  lemma OneMoreTransaction(
    s: Snapshot, t: Snapshot, market: Market, transactions: seq<TransactionRow>, row: TransactionRow,
    events: seq<EventRow>, account: Id, currency: Currency, at: int, origin: int)
    requires origin < row.date && t == s.(total := t.total)
    requires t.total - s.total
             == if row.account == account && row.date <= at then InvestmentEffect(row.typeName, row.amount) else 0
    ensures SnapshotOf(t, market, transactions + [row], events, account, currency, at, origin)
       <==> SnapshotOf(s, market, transactions, events, account, currency, at, origin)
  {
    assert Front(transactions + [row]) == transactions && Last(transactions + [row]) == row;
  }

  // ---- what a holding is worth ------------------------------------------------------------------------------------

  /** Held or owed, a number of shares at a price in minor units counts as their product. */
  lemma SharesAtAPrice(shares: int, minor: int, digits: nat)
    requires IsInt64(Abs(shares) * minor)
    ensures DecimalProductMinor(shares as real, minor as real / Pow10(digits) as real, digits)
            == Ok(Abs(shares) * minor)
  {
    var unit := Pow10(digits) as real;
    assert Magnitude(shares as real) == Abs(shares) as real;
    PerUnit(Abs(shares) as real, minor as real, unit);
    assert Product(shares as real, minor as real / unit, digits) == (Abs(shares) * minor) as real;
    RoundReaches((Abs(shares) * minor) as real, Abs(shares) * minor);
  }

  lemma PerUnit(x: real, y: real, unit: real)
    requires unit > 0.0
    ensures x * (y / unit) * unit == x * y
  {
    assert y / unit * unit == y;
    assert x * (y / unit) * unit == x * (y / unit * unit);
  }

  /** A holding is worth its shares at the price, converted at the rate of the day of the snapshot. */
  lemma HoldingIsWorth(
    market: Market, currency: Currency, shares: nat, minor: int, quote: Currency, rate: int -> int, at: int)
    requires IsInt64(shares * minor) && IsInt64(shares * minor * rate(at))
    requires forall amount: Int64, day: int | IsInt64(amount * rate(day)) ::
               market.convert(amount, quote, currency, day) == Ok(Some(amount * rate(day)))
    ensures
      var price := Price(minor as real / Pow10(market.digits(quote)) as real, quote);
      PositionAt(market, currency, shares as real, Some(price), at)
      == Ok(PositionValue(shares as real, Some(price), shares * minor * rate(at), true))
  {
    hide DecimalProductMinor;
    SharesAtAPrice(shares, minor, market.digits(quote));
  }

  // ---- what keeps the checked additions in range ------------------------------------------------------------------

  /** The money that the transactions up to a day move, regardless of sign. */
  function EffectsTurnover(rows: seq<TransactionRow>, account: Id, at: int): nat {
    if rows == [] then 0
    else EffectsTurnover(Front(rows), account, at)
         + if Last(rows).account == account && Last(rows).date <= at
           then Abs(InvestmentEffect(Last(rows).typeName, Last(rows).amount)) else 0
  }

  function TradeTurnover(rows: seq<EventRow>, account: Id, at: int): nat {
    if rows == [] then 0
    else TradeTurnover(Front(rows), account, at)
         + if Last(rows).account == account && Last(rows).date <= at then Abs(Last(rows).cashEffect) else 0
  }

  lemma {:induction false} EffectsTurnoverGrows(rows: seq<TransactionRow>, count: nat, account: Id, at: int)
    requires count <= |rows|
    ensures EffectsTurnover(rows[..count], account, at) <= EffectsTurnover(rows, account, at)
  {
    if count < |rows| {
      EffectsTurnoverGrows(Front(rows), count, account, at);
      assert Front(rows)[..count] == rows[..count];
    } else {
      assert rows[..count] == rows;
    }
  }

  lemma {:induction false} TradeTurnoverGrows(rows: seq<EventRow>, count: nat, account: Id, at: int)
    requires count <= |rows|
    ensures TradeTurnover(rows[..count], account, at) <= TradeTurnover(rows, account, at)
  {
    if count < |rows| {
      TradeTurnoverGrows(Front(rows), count, account, at);
      assert Front(rows)[..count] == rows[..count];
    } else {
      assert rows[..count] == rows;
    }
  }

  /** The first loop of the snapshot; it only fails when more money moves than an int64 holds. */
  method SnapshotEffects(transactions: seq<TransactionRow>, account: Id, at: int, ghost origin: int)
    returns (result: Result<Int64, BridgeError>)
    requires forall r | r in transactions :: origin < r.date
    ensures match result
            case Ok(cash) =>
              cash == Effects(transactions, account, origin, at)
                && Abs(cash) <= EffectsTurnover(transactions, account, at)
            case Err(_) => EffectsTurnover(transactions, account, at) > MAX_INT64
  {
    var cash: Int64 := 0;
    for i := 0 to |transactions|
      invariant cash == Effects(transactions[..i], account, origin, at)
      invariant Abs(cash) <= EffectsTurnover(transactions[..i], account, at)
    {
      var row := transactions[i];
      assert Front(transactions[..i + 1]) == transactions[..i] && Last(transactions[..i + 1]) == row
        && row in transactions;
      EffectsTurnoverGrows(transactions, i + 1, account, at);
      if row.account == account && row.date <= at {
        var effect := InvestmentEffect(row.typeName, row.amount);
        if !IsInt64(effect) { return Err(BridgeError); }
        var sum := CheckedAdd(cash, effect);
        if sum.Err? { return Err(BridgeError); }
        cash := sum.value;
      }
    }
    assert transactions[..|transactions|] == transactions;
    result := Ok(cash);
  }

  /** The second loop. */
  method SnapshotTrades(cash: Int64, events: seq<EventRow>, account: Id, at: int, ghost origin: int)
    returns (result: Result<Int64, BridgeError>, rows: seq<EventRow>)
    requires forall e | e in events :: origin < e.date
    ensures match result
            case Ok(total) =>
              total == cash + TradeCash(events, account, origin, at) && rows == EventsUpTo(events, account, at)
              && Abs(total) <= Abs(cash) + TradeTurnover(events, account, at)
            case Err(_) => Abs(cash) + TradeTurnover(events, account, at) > MAX_INT64
  {
    var total := cash;
    rows := [];
    for i := 0 to |events|
      invariant total == cash + TradeCash(events[..i], account, origin, at)
      invariant rows == EventsUpTo(events[..i], account, at)
      invariant Abs(total) <= Abs(cash) + TradeTurnover(events[..i], account, at)
    {
      var row := events[i];
      assert Front(events[..i + 1]) == events[..i] && Last(events[..i + 1]) == row && row in events;
      TradeTurnoverGrows(events, i + 1, account, at);
      if row.account == account && row.date <= at {
        rows := rows + [row];
        var sum := CheckedAdd(total, row.cashEffect);
        if sum.Err? { return Err(BridgeError), rows; }
        total := sum.value;
      }
    }
    assert events[..|events|] == events;
    result := Ok(total);
  }

  /** The worth a quantity has, if it is held and can be valued, regardless of sign. */
  function SizeOf(quantities: map<Id, real>, valued: (Id, real) -> Result<PositionValue, BridgeError>, id: Id): nat {
    if id in quantities && quantities[id] != 0.0 && valued(id, quantities[id]).Ok?
    then Abs(valued(id, quantities[id]).value.value) else 0
  }

  function Size(
    quantities: map<Id, real>, valued: (Id, real) -> Result<PositionValue, BridgeError>): (size: Id -> int)
  {
    (id: Id) => SizeOf(quantities, valued, id)
  }

  lemma SizeNotNegative(quantities: map<Id, real>, valued: (Id, real) -> Result<PositionValue, BridgeError>)
    ensures forall id: Id :: Size(quantities, valued)(id) >= 0
  {
    forall id: Id ensures Size(quantities, valued)(id) >= 0 {
      assert Size(quantities, valued)(id) == SizeOf(quantities, valued, id);
    }
  }

  ghost predicate AllValued(quantities: map<Id, real>, valued: (Id, real) -> Result<PositionValue, BridgeError>) {
    forall id | id in Held(quantities) :: valued(id, quantities[id]).Ok?
  }

  /** The snapshot of the quantities that have been visited. */
  ghost predicate Visited(
    snapshot: Snapshot, remaining: set<Id>, quantities: map<Id, real>,
    valued: (Id, real) -> Result<PositionValue, BridgeError>,
    cash: int)
  {
    && remaining <= quantities.Keys
    && snapshot.positions.Keys == Held(quantities) - remaining
    && EachValued(snapshot.positions, quantities, valued)
    && (snapshot.complete <==> AllComplete(snapshot.positions))
    && snapshot.total == cash + SetSum(snapshot.positions.Keys, Worth(snapshot.positions))
  }

  lemma VisitedEmpty(
    before: Snapshot, remaining: set<Id>, id: Id, quantities: map<Id, real>,
    valued: (Id, real) -> Result<PositionValue, BridgeError>, cash: int)
    requires Visited(before, remaining, quantities, valued, cash)
    requires id in remaining && quantities[id] == 0.0
    ensures Visited(before, remaining - {id}, quantities, valued, cash)
  {
    assert Held(quantities) - remaining == Held(quantities) - (remaining - {id});
  }

  lemma VisitedOneMore(
    before: Snapshot, after: Snapshot, remaining: set<Id>, id: Id, quantities: map<Id, real>,
    valued: (Id, real) -> Result<PositionValue, BridgeError>, cash: int, position: PositionValue)
    requires Visited(before, remaining, quantities, valued, cash)
    requires id in remaining && quantities[id] != 0.0 && valued(id, quantities[id]) == Ok(position)
    requires after.positions == before.positions[id := position]
    requires after.complete == (before.complete && position.complete) && after.total == before.total + position.value
    ensures Visited(after, remaining - {id}, quantities, valued, cash)
  {
    WorthOfOneMore(before.positions, id, position);
    CompleteWithOneMore(before.positions, id, position);
    assert after.positions.Keys == before.positions.Keys + {id} == Held(quantities) - (remaining - {id});
  }

  /** One turn of the valuation loop. */
  method ValueOne(
    before: Snapshot, ghost left: set<Id>, id: Id, quantities: map<Id, real>,
    valued: (Id, real) -> Result<PositionValue, BridgeError>, ghost cash: Int64)
    returns (result: Result<Snapshot, BridgeError>)
    requires Values(valued) && id in left && left <= quantities.Keys
    requires Visited(before, left, quantities, valued, cash)
    ensures match result
            case Ok(after) =>
              Visited(after, left - {id}, quantities, valued, cash)
              && Abs(after.total) <= Abs(before.total) + Size(quantities, valued)(id)
            case Err(_) =>
              !AllValued(quantities, valued) || Abs(before.total) + Size(quantities, valued)(id) > MAX_INT64
  {
    if quantities[id] == 0.0 {
      VisitedEmpty(before, left, id, quantities, valued, cash);
      return Ok(before);
    }
    var valuation := valued(id, quantities[id]);
    assert id in Held(quantities);
    if valuation.Err? { return Err(valuation.error); }
    var position := valuation.value;
    var total := before.total;
    if position.complete {
      var sum := CheckedAdd(total, position.value);
      if sum.Err? { return Err(BridgeError); }
      total := sum.value;
    }
    var after := Snapshot(total, before.positions[id := position], before.complete && position.complete);
    VisitedOneMore(before, after, left, id, quantities, valued, cash, position);
    result := Ok(after);
  }

  /** What the totals of the valuation loop stay within. */
  ghost predicate WithinSizes(total: int, cash: int, done: set<Id>, size: Id -> int) {
    Abs(total) <= Abs(cash) + SetSum(done, size)
  }

  lemma WithinOneMore(total: int, after: int, cash: int, done: set<Id>, id: Id, size: Id -> int)
    requires WithinSizes(total, cash, done, size) && id !in done && Abs(after) <= Abs(total) + size(id)
    ensures WithinSizes(after, cash, done + {id}, size)
  {
    SetSumAdd(done, size, id);
  }

  lemma BeyondSizes(total: int, cash: int, done: set<Id>, id: Id, all: set<Id>, size: Id -> int)
    requires WithinSizes(total, cash, done, size) && id !in done && done + {id} <= all
    requires Abs(total) + size(id) > MAX_INT64 && forall x | x in all :: size(x) >= 0
    ensures Abs(cash) + SetSum(all, size) > MAX_INT64
  {
    SetSumAdd(done, size, id);
    SetSumMonotone(done + {id}, all, size);
  }

  /** The same, with what the totals stay within. */
  method ValueNext(
    before: Snapshot, ghost left: set<Id>, id: Id, quantities: map<Id, real>,
    valued: (Id, real) -> Result<PositionValue, BridgeError>, ghost cash: Int64)
    returns (result: Result<Snapshot, BridgeError>)
    requires Values(valued) && id in left && left <= quantities.Keys
    requires Visited(before, left, quantities, valued, cash)
    requires WithinSizes(before.total, cash, quantities.Keys - left, Size(quantities, valued))
    ensures match result
            case Ok(after) =>
              Visited(after, left - {id}, quantities, valued, cash)
              && WithinSizes(after.total, cash, quantities.Keys - (left - {id}), Size(quantities, valued))
            case Err(_) => TooMuch(quantities, valued, cash)
  {
    hide Visited, SetSum, SizeOf;
    result := ValueOne(before, left, id, quantities, valued, cash);
    ghost var done, size := quantities.Keys - left, Size(quantities, valued);
    SizeNotNegative(quantities, valued);
    if result.Ok? {
      WithinOneMore(before.total, result.value.total, cash, done, id, size);
      assert quantities.Keys - (left - {id}) == done + {id};
    } else if AllValued(quantities, valued) {
      BeyondSizes(before.total, cash, done, id, quantities.Keys, size);
    }
  }

  /** Why valuing the quantities can fail. */
  ghost predicate TooMuch(
    quantities: map<Id, real>, valued: (Id, real) -> Result<PositionValue, BridgeError>, cash: int)
  {
    AllValued(quantities, valued) ==> Abs(cash) + SetSum(quantities.Keys, Size(quantities, valued)) > MAX_INT64
  }

  /**
   The valuation loop of the snapshot: the quantities are visited in any order.  It only
   fails when a held quantity cannot be valued or the worths leave int64.
   */
  method ValuePositions(
    quantities: map<Id, real>, valued: (Id, real) -> Result<PositionValue, BridgeError>, cash: Int64)
    returns (result: Result<Snapshot, BridgeError>)
    requires Values(valued)
    ensures match result
            case Ok(snapshot) => Visited(snapshot, {}, quantities, valued, cash)
            case Err(_) => TooMuch(quantities, valued, cash)
  {
    var snapshot := Snapshot(cash, map[], true);
    var remaining := quantities.Keys;
    assert Held(quantities) - remaining == {};
    assert quantities.Keys - remaining == {};
    while remaining != {}
      invariant remaining <= quantities.Keys
      invariant Visited(snapshot, remaining, quantities, valued, cash)
      invariant WithinSizes(snapshot.total, cash, quantities.Keys - remaining, Size(quantities, valued))
      decreases |remaining|
    {
      var id :| id in remaining;
      var next := ValueNext(snapshot, remaining, id, quantities, valued, cash);
      if next.Err? { return next; }
      snapshot := next.value;
      remaining := remaining - {id};
    }
    result := Ok(snapshot);
  }

  lemma CompleteWithOneMore(positions: map<Id, PositionValue>, id: Id, position: PositionValue)
    requires id !in positions
    ensures AllComplete(positions[id := position]) <==> AllComplete(positions) && position.complete
  {
    var more := positions[id := position];
    assert more[id] == position;
    if AllComplete(more) {
      forall other | other in positions ensures positions[other].complete {
        assert more[other] == positions[other];
      }
    }
  }

  /**
   Nothing stands in the way of a snapshot: the quantities replay, all can be valued,
   and the money that moves fits int64.
   */
  ghost predicate Valuable(
    market: Market, transactions: seq<TransactionRow>, events: seq<EventRow>, account: Id, currency: Currency, at: int)
  {
    var rows := EventsUpTo(events, account, at);
    var quantities := market.quantities(rows);
    && quantities.Ok?
    && AllValued(quantities.value, Valuation(market, currency, rows, at))
    && EffectsTurnover(transactions, account, at) + TradeTurnover(events, account, at)
       + SetSum(quantities.value.Keys, Size(quantities.value, Valuation(market, currency, rows, at))) <= MAX_INT64
  }

  /** `buildChartPositionSnapshot`. */
  method BuildChartPositionSnapshot(
    market: Market, transactions: seq<TransactionRow>, events: seq<EventRow>, account: Id, currency: Currency, at: int,
    ghost origin: int)
    returns (result: Result<Snapshot, BridgeError>)
    requires Beginning(transactions, events, origin)
    ensures Valuable(market, transactions, events, account, currency, at) ==> result.Ok?
    ensures result.Ok? ==> SnapshotOf(result.value, market, transactions, events, account, currency, at, origin)
  {
    ghost var positions := SizesNotNegative(market, events, account, currency, at);
    var effects := SnapshotEffects(transactions, account, at, origin);
    if effects.Err? { return Err(effects.error); }
    var cash, rows := SnapshotTrades(effects.value, events, account, at, origin);
    if cash.Err? { return Err(cash.error); }
    var quantities := market.quantities(rows);
    if quantities.Err? { return Err(quantities.error); }
    ValuationValues(market, currency, rows, at);
    result := ValuePositions(quantities.value, Valuation(market, currency, rows, at), cash.value);
  }

  lemma SizesNotNegative(
    market: Market, events: seq<EventRow>, account: Id, currency: Currency, at: int)
    returns (total: int)
    ensures
      var rows := EventsUpTo(events, account, at);
      market.quantities(rows).Ok? ==>
        total == SetSum(market.quantities(rows).value.Keys,
          Size(market.quantities(rows).value, Valuation(market, currency, rows, at)))
    ensures total >= 0
  {
    var rows := EventsUpTo(events, account, at);
    total := 0;
    if market.quantities(rows).Ok? {
      var quantities := market.quantities(rows).value;
      total := SetSum(quantities.Keys, Size(quantities, Valuation(market, currency, rows, at)));
      SizeNotNegative(quantities, Valuation(market, currency, rows, at));
      SetSumNotNegative(quantities.Keys, Size(quantities, Valuation(market, currency, rows, at)));
    }
  }

  lemma WorthOfOneMore(positions: map<Id, PositionValue>, id: Id, position: PositionValue)
    requires id !in positions
    ensures
      var more := positions[id := position];
      SetSum(more.Keys, Worth(more)) == SetSum(positions.Keys, Worth(positions)) + position.value
  {
    var more := positions[id := position];
    SetSumAdd(positions.Keys, Worth(more), id);
    assert more.Keys == positions.Keys + {id};
    SetSumSame(positions.Keys, Worth(more), Worth(positions));
  }

  lemma SetSumSame(s: set<Id>, f: Id -> int, g: Id -> int)
    requires forall x | x in s :: f(x) == g(x)
    ensures SetSum(s, f) == SetSum(s, g)
  {
    var none := (x: Id) => 0;
    SetSumDifference(s, f, none, g);
    SetSumExtend({}, s, none);
  }
}
