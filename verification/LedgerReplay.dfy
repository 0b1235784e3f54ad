/**
 Balance replay.  The source replays the same ledger in four places, each ordering
 and adding in its own way: `chartAccountValue` sorts slices and adds with an overflow
 guard, `accountBalanceAt` and `replayBalance` read rows ordered by the database and
 add big integers, `projectAccountHistory` appends prospective rows first.  All follow
 `Replay`; the theorems say what it computes and when the order of tied rows matters.
 */
module LedgerReplay {
  import opened Wrappers
  import opened Rational
  import opened Ledger
  import opened Sequences

  datatype Event =
    | Transaction(date: int, created: int, typeName: TransactionType, amount: Int64)
    | Valuation(date: int, created: int, amount: Int64)

  // ---- order ------------------------------------------------------------------------------------------------------

  /** Strictly later in (date, creation time). */
  predicate Later(one: Event, other: Event) {
    one.date > other.date || (one.date == other.date && one.created > other.created)
  }

  /** The sort key (date, created, kind): transactions precede a valuation of the same stamp. */
  predicate Ordered(first: Event, second: Event) {
    Later(second, first) || (!Later(first, second) && (first.Transaction? || second.Valuation?))
  }

  predicate Sorted(events: seq<Event>) {
    forall i, j | 0 <= i < j < |events| :: Ordered(events[i], events[j])
  }

  /** Place an event after every event that is ordered before it. */
  function Insert(events: seq<Event>, event: Event): seq<Event> {
    if events == [] || Ordered(events[|events| - 1], event) then events + [event]
    else Insert(events[..|events| - 1], event) + [events[|events| - 1]]
  }

  /** A stable sort: tied events keep their order. */
  function StableSort(events: seq<Event>): seq<Event> {
    if events == [] then [] else Insert(StableSort(events[..|events| - 1]), events[|events| - 1])
  }

  lemma {:induction false} InsertKeepsElements(events: seq<Event>, event: Event)
    ensures multiset(Insert(events, event)) == multiset(events) + multiset{event}
  {
    if events != [] && !Ordered(Last(events), event) {
      InsertKeepsElements(Front(events), event);
      FrontElements(events);
    }
  }

  lemma {:induction false} InsertKeepsOrder(events: seq<Event>, event: Event)
    requires Sorted(events)
    ensures Sorted(Insert(events, event))
  {
    if events == [] {
    } else if Ordered(Last(events), event) {
      SortedAppend(events, event);
    } else {
      var last, inserted := Last(events), Insert(Front(events), event);
      InsertKeepsOrder(Front(events), event);
      InsertKeepsElements(Front(events), event);
      SameElements(inserted, Front(events) + [event]);
      forall e | e in inserted ensures Ordered(e, last) { assert e in Front(events) + [event]; }
      SortedAppend(inserted, last);
    }
  }

  lemma SortedAppend(events: seq<Event>, last: Event)
    requires Sorted(events)
    requires (forall e | e in events :: Ordered(e, last)) || (events != [] && Ordered(Last(events), last))
    ensures Sorted(events + [last])
  {
    forall e | e in events ensures Ordered(e, last) {
      if events != [] { OrderedThrough(events, e, last); }
    }
  }

  lemma OrderedThrough(events: seq<Event>, e: Event, last: Event)
    requires Sorted(events) && e in events
    requires (forall x | x in events :: Ordered(x, last)) || Ordered(Last(events), last)
    ensures Ordered(e, last)
  {
    var i :| 0 <= i < |events| && events[i] == e;
    if i < |events| - 1 { assert Ordered(events[i], Last(events)); }
  }

  lemma {:induction false} StableSortSorts(events: seq<Event>)
    ensures Sorted(StableSort(events)) && multiset(StableSort(events)) == multiset(events)
  {
    if events != [] {
      var front, last := events[..|events| - 1], events[|events| - 1];
      StableSortSorts(front);
      InsertKeepsOrder(StableSort(front), last);
      InsertKeepsElements(StableSort(front), last);
      FrontElements(events);
    }
  }

  // ---- replay -----------------------------------------------------------------------------------------------------

  /** One event: a valuation sets the balance, a transaction adds its effect if the sum is an int64. */
  function Apply(balance: Int64, event: Event): Result<Int64, LedgerError> {
    match event
    case Valuation(_, _, amount) => Ok(amount)
    case Transaction(_, _, typeName, amount) =>
      match TransactionEffect(typeName, amount)
      case Err(e) => Err(e)
      case Ok(effect) => if IsInt64(balance + effect) then Ok(balance + effect) else Err(BalanceRange)
  }

  function Replay(events: seq<Event>): Result<Int64, LedgerError> {
    if events == [] then Ok(0)
    else
      match Replay(events[..|events| - 1])
      case Err(e) => Err(e)
      case Ok(balance) => Apply(balance, events[|events| - 1])
  }

  /** An error met on the way is the error of the whole replay. */
  lemma {:induction false} ErrorSticks(events: seq<Event>, count: nat)
    requires count <= |events| && Replay(events[..count]).Err?
    ensures Replay(events) == Replay(events[..count])
    decreases |events| - count
  {
    if count < |events| {
      assert events[..count + 1][..count] == events[..count];
      ErrorSticks(events, count + 1);
    } else {
      assert events[..count] == events;
    }
  }

  /** The effect of a transaction after the cut, if any; a valuation has none. */
  function EffectAfter(event: Event, cut: Option<Event>): int {
    if event.Transaction? && (cut.None? || Later(event, cut.value)) then InvestmentEffect(event.typeName, event.amount)
    else 0
  }

  function EffectsAfter(events: seq<Event>, cut: Option<Event>): int {
    if events == [] then 0
    else EffectsAfter(events[..|events| - 1], cut) + EffectAfter(events[|events| - 1], cut)
  }

  /** The latest valuation: the one that is ordered last. */
  function LastValuation(events: seq<Event>): (last: Option<Event>)
    ensures last.Some? ==> last.value in events && last.value.Valuation?
    ensures last.None? ==> forall e | e in events :: e.Transaction?
  {
    if events == [] then None
    else if events[|events| - 1].Valuation? then Some(events[|events| - 1])
    else LastValuation(events[..|events| - 1])
  }

  lemma {:induction false} LastValuationIsLatest(events: seq<Event>)
    requires Sorted(events)
    ensures
      var last := LastValuation(events);
      last.Some? ==> forall e | e in events && e.Valuation? :: !Later(e, last.value)
  {
    if events != [] && events[|events| - 1].Transaction? {
      LastValuationIsLatest(events[..|events| - 1]);
    }
  }

  function Base(valuation: Option<Event>): int {
    if valuation.Some? then valuation.value.amount else 0
  }

  lemma {:induction false} NothingAfter(events: seq<Event>, cut: Event)
    requires forall e | e in events && e.Transaction? :: !Later(e, cut)
    ensures EffectsAfter(events, Some(cut)) == 0
  {
    if events != [] {
      NothingAfter(events[..|events| - 1], cut);
    }
  }

  function Meaning(events: seq<Event>): int {
    Base(LastValuation(events)) + EffectsAfter(events, LastValuation(events))
  }

  /**
   What a successful replay computes: the amount of the latest valuation plus the exact
   effects of the transactions stamped after it, or all effects when there is no valuation.
   */
  lemma {:induction false} ReplayMeaning(events: seq<Event>)
    requires Sorted(events) && Replay(events).Ok?
    ensures Replay(events).value == Meaning(events)
  {
    if events != [] {
      var front, last := events[..|events| - 1], events[|events| - 1];
      if last.Valuation? {
        forall e | e in front && e.Transaction? ensures !Later(e, last) {
          var i :| 0 <= i < |front| && front[i] == e;
          assert Ordered(events[i], last);
        }
        NothingAfter(front, last);
      } else {
        ReplayMeaning(front);
        EffectsAgree(last.typeName, last.amount);
        TransactionAfterValuation(events);
      }
    }
  }

  /** In a sorted ledger that ends in a transaction, that transaction is stamped after every valuation. */
  lemma TransactionAfterValuation(events: seq<Event>)
    requires Sorted(events) && events != [] && events[|events| - 1].Transaction?
    ensures LastValuation(events).Some? ==> Later(events[|events| - 1], LastValuation(events).value)
  {
    var last := LastValuation(events[..|events| - 1]);
    if last.Some? {
      var i :| 0 <= i < |events| - 1 && events[i] == last.value;
      assert Ordered(events[i], events[|events| - 1]);
    }
  }

  // ---- money in and money out -------------------------------------------------------------------------------------

  /** What raises a balance, of an asset or of a debt. */
  const MONEY_IN: set<TransactionType> :=
    {OpeningBalance, Deposit, Interest, Dividend, CapitalGain, Purchase, LiabilityIncrease}

  /** And what lowers it. */
  const MONEY_OUT: set<TransactionType> := {Withdrawal, CapitalLoss, Fee, Sale, LiabilityPayment}

  /** The amounts, regardless of sign, of the transactions of some types after a cut. */
  function Amounts(events: seq<Event>, types: set<TransactionType>, cut: Option<Event>): int {
    if events == [] then 0
    else Amounts(Front(events), types, cut)
         + if IsAfter(Last(events), cut) && Last(events).typeName in types then Abs(Last(events).amount) else 0
  }

  /** The amounts as they are written, of adjustments and transfers after a cut. */
  function SignedAmounts(events: seq<Event>, cut: Option<Event>): int {
    if events == [] then 0
    else SignedAmounts(Front(events), cut)
         + if IsAfter(Last(events), cut) && Last(events).typeName in {ManualAdjustment, Transfer}
           then Last(events).amount else 0
  }

  /** A transaction dated after the day of the cut, or created after it on that day. */
  predicate IsAfter(event: Event, cut: Option<Event>) {
    event.Transaction?
    && (cut.None? || event.date > cut.value.date
        || (event.date == cut.value.date && event.created > cut.value.created))
  }

  lemma {:induction false} EffectsAreInLessOut(events: seq<Event>, cut: Option<Event>)
    ensures EffectsAfter(events, cut)
         == Amounts(events, MONEY_IN, cut) - Amounts(events, MONEY_OUT, cut) + SignedAmounts(events, cut)
  {
    if events != [] { EffectsAreInLessOut(Front(events), cut); }
  }

  /**
   A replayed balance is the latest valuation and what came in after it, less what went
   out after it: opening balances, deposits, interest, dividends, gains, purchases and
   increases of a debt come in, withdrawals, losses, fees, sales and payments of a debt go
   out, and adjustments and transfers do what their sign says.
   */
  lemma ReplayIsInLessOut(events: seq<Event>)
    requires Sorted(events) && Replay(events).Ok?
    ensures
      var latest := LastValuation(events);
      Replay(events).value
      == Base(latest) + Amounts(events, MONEY_IN, latest) - Amounts(events, MONEY_OUT, latest)
         + SignedAmounts(events, latest)
  {
    hide Replay, Sorted;
    ReplayMeaning(events);
    EffectsAreInLessOut(events, LastValuation(events));
  }

  /** A valuation counts from its date and creation time on, in whichever order the two rows are read. */
  lemma ValuationReplacesWhatCameBefore(t: Event, v: Event)
    requires t.Transaction? && v.Valuation? && TransactionEffect(t.typeName, t.amount).Ok?
    requires IsInt64(v.amount + InvestmentEffect(t.typeName, t.amount))
    ensures
      var balance := if t.date > v.date || (t.date == v.date && t.created > v.created)
                     then v.amount + InvestmentEffect(t.typeName, t.amount) else v.amount;
      Replay(StableSort([t, v])) == Replay(StableSort([v, t])) == Ok(balance)
  {
    EffectsAgree(t.typeName, t.amount);
    hide TransactionEffect, InvestmentEffect, Replay, StableSort;
    SortOfTwo(t, v);
    SortOfTwo(v, t);
    if IsAfter(t, Some(v)) { ReplayOfTwo(v, t); } else { ReplayOfTwo(t, v); }
  }

  lemma ReplayOfTwo(first: Event, second: Event)
    ensures Replay([first, second])
         == match Apply(0, first) case Err(e) => Err(e) case Ok(balance) => Apply(balance, second)
  {
    hide Apply;
    assert [first, second][..1] == [first] && [first][..0] == [];
    assert Replay([]) == Ok(0);
    assert Replay([first]) == Apply(0, first);
  }

  lemma SortOfTwo(first: Event, second: Event)
    ensures StableSort([first, second]) == if Ordered(first, second) then [first, second] else [second, first]
  {
    hide Ordered;
    assert [first, second][..1] == [first] && [first][..0] == [];
    assert StableSort([]) == [];
    assert StableSort([first]) == Insert([], first) == [first];
    assert StableSort([first, second]) == Insert([first], second);
    assert Insert([], second) == [second];
  }

  // ---- independence of the order of ties --------------------------------------------------------------------------

  lemma {:induction false} EffectsAfterRemove(events: seq<Event>, index: nat, cut: Option<Event>)
    requires index < |events|
    ensures EffectsAfter(events, cut)
         == EffectsAfter(Without(events, index), cut) + EffectAfter(events[index], cut)
  {
    var rest := Without(events, index);
    if index == |events| - 1 {
      assert rest == Front(events);
    } else {
      EffectsAfterRemove(Front(events), index, cut);
      assert Front(rest) == Without(Front(events), index);
    }
  }

  lemma {:induction false} EffectsAfterPermutation(one: seq<Event>, other: seq<Event>, cut: Option<Event>)
    requires multiset(one) == multiset(other)
    ensures EffectsAfter(one, cut) == EffectsAfter(other, cut)
    decreases |one|
  {
    SameElements(one, other);
    if one != [] {
      var index := RemoveCommon(one, other);
      EffectsAfterPermutation(Front(one), Without(other, index), cut);
      EffectsAfterRemove(other, index, cut);
    }
  }

  /** Valuations that tie for the latest stamp agree on the amount. */
  ghost predicate LatestValuationsAgree(events: seq<Event>) {
    forall v, w | Latest(events, v) && Latest(events, w) :: v.amount == w.amount
  }

  /** A valuation with no later one. */
  ghost predicate Latest(events: seq<Event>, v: Event) {
    v in events && v.Valuation? && forall e | e in events && e.Valuation? :: !Later(e, v)
  }

  lemma CutOnlyMattersByStamp(events: seq<Event>, v: Event, w: Event)
    requires !Later(v, w) && !Later(w, v)
    ensures EffectsAfter(events, Some(v)) == EffectsAfter(events, Some(w))
  {
    if events != [] {
      CutOnlyMattersByStamp(events[..|events| - 1], v, w);
    }
  }

  /**
   Any two orders of the same ledger give the same balance when both succeed, provided
   valuations tied for the latest stamp agree.
   */
  lemma ReplaysAgree(one: seq<Event>, other: seq<Event>)
    requires Sorted(one) && Sorted(other) && multiset(one) == multiset(other)
    requires LatestValuationsAgree(one)
    requires Replay(one).Ok? && Replay(other).Ok?
    ensures Replay(one) == Replay(other)
  {
    ReplayMeaning(one);
    ReplayMeaning(other);
    MeaningIsOrderFree(one, other);
  }

  lemma MeaningIsOrderFree(one: seq<Event>, other: seq<Event>)
    requires Sorted(one) && Sorted(other) && multiset(one) == multiset(other)
    requires LatestValuationsAgree(one)
    ensures Meaning(one) == Meaning(other)
  {
    LatestValuationsTie(one, other);
    var v, w := LastValuation(one), LastValuation(other);
    EffectsAfterPermutation(one, other, w);
    if v.Some? {
      CutOnlyMattersByStamp(one, v.value, w.value);
    }
  }

  lemma LatestValuationsTie(one: seq<Event>, other: seq<Event>)
    requires Sorted(one) && Sorted(other) && multiset(one) == multiset(other)
    requires LatestValuationsAgree(one)
    ensures
      match (LastValuation(one), LastValuation(other))
      case (None, None) => true
      case (Some(v), Some(w)) => !Later(v, w) && !Later(w, v) && v.amount == w.amount
      case _ => false
  {
    SameElements(one, other);
    LastValuationIsLatest(one);
    LastValuationIsLatest(other);
    var v, w := LastValuation(one), LastValuation(other);
    if v.Some? {
      assert v.value in other && w.Some? && w.value in one;
      assert Latest(one, v.value) && Latest(one, w.value);
    }
  }

  /** The condition is exact: two latest valuations that disagree can be swapped, which changes the balance. */
  lemma TiedValuationsDisagree(events: seq<Event>) returns (swapped: seq<Event>)
    requires Sorted(events) && Replay(events).Ok?
    requires !LatestValuationsAgree(events)
    ensures Sorted(swapped) && multiset(swapped) == multiset(events)
    ensures Replay(swapped).Ok? ==> Replay(swapped) != Replay(events)
  {
    var v, w :| Latest(events, v) && Latest(events, w) && v.amount != w.amount;
    LastValuationIsLatest(events);
    var last := LastValuation(events).value;
    var tied := if v.amount != last.amount then v else w;
    swapped := SwapTied(events, last, tied);
    ReplayMeaning(events);
    if Replay(swapped).Ok? {
      ReplayMeaning(swapped);
      EffectsAfterPermutation(events, swapped, Some(tied));
      CutOnlyMattersByStamp(events, last, tied);
    }
  }

  lemma SwapTied(events: seq<Event>, last: Event, tied: Event) returns (swapped: seq<Event>)
    requires Sorted(events) && LastValuation(events) == Some(last)
    requires tied in events && tied.Valuation? && tied != last && !Later(tied, last) && !Later(last, tied)
    ensures Sorted(swapped) && multiset(swapped) == multiset(events) && LastValuation(swapped) == Some(tied)
  {
    hide LastValuation;
    var at := LastValuationIndex(events);
    var i :| 0 <= i < |events| && events[i] == tied;
    swapped := events[i := last][at := tied];
    LastValuationFrom(swapped, at);
  }

  lemma {:induction false} LastValuationIndex(events: seq<Event>) returns (at: nat)
    requires LastValuation(events).Some?
    ensures at < |events| && events[at] == LastValuation(events).value
    ensures forall j | at < j < |events| :: events[j].Transaction?
  {
    if events[|events| - 1].Valuation? {
      at := |events| - 1;
    } else {
      at := LastValuationIndex(events[..|events| - 1]);
    }
  }

  lemma {:induction false} LastValuationFrom(events: seq<Event>, at: nat)
    requires at < |events| && events[at].Valuation?
    requires forall j | at < j < |events| :: events[j].Transaction?
    ensures LastValuation(events) == Some(events[at])
  {
    if at < |events| - 1 {
      LastValuationFrom(events[..|events| - 1], at);
    }
  }

  // ---- success ----------------------------------------------------------------------------------------------------

  /** The money that moves in a ledger, regardless of sign. */
  function Turnover(events: seq<Event>): nat {
    if events == [] then 0 else Turnover(events[..|events| - 1]) + Abs(events[|events| - 1].amount)
  }

  /** No order of the events fails when every type is supported and the turnover fits. */
  lemma {:induction false} BoundedLedgerSucceeds(events: seq<Event>)
    requires forall e | e in events && e.Transaction? :: !e.typeName.Unsupported?
    requires Turnover(events) <= MAX_INT64
    ensures Replay(events).Ok? && Abs(Replay(events).value) <= Turnover(events)
  {
    if events != [] {
      BoundedLedgerSucceeds(events[..|events| - 1]);
      var last := events[|events| - 1];
      if last.Transaction? { EffectsAgree(last.typeName, last.amount); }
    }
  }

  // ---- the replays of the source ----------------------------------------------------------------------------------

  datatype TransactionRow = TransactionRow(account: Id, date: int, created: int, typeName: TransactionType,
    amount: Int64)
  datatype ValuationRow = ValuationRow(account: Id, date: int, created: int, value: Int64)

  function TransactionEvents(rows: seq<TransactionRow>, account: Id, at: int): seq<Event> {
    if rows == [] then []
    else
      var row := Last(rows);
      TransactionEvents(Front(rows), account, at)
      + if row.account == account && row.date <= at
        then [Transaction(row.date, row.created, row.typeName, row.amount)] else []
  }

  function ValuationEvents(rows: seq<ValuationRow>, account: Id, at: int): seq<Event> {
    if rows == [] then []
    else
      var row := Last(rows);
      ValuationEvents(Front(rows), account, at)
      + if row.account == account && row.date <= at then [Valuation(row.date, row.created, row.value)] else []
  }

  /** The rows of an account up to a day, in table order. */
  function AccountEvents(
    transactions: seq<TransactionRow>, valuations: seq<ValuationRow>, account: Id, at: int): seq<Event>
  {
    TransactionEvents(transactions, account, at) + ValuationEvents(valuations, account, at)
  }

  lemma {:induction false} TransactionEventsHold(rows: seq<TransactionRow>, account: Id, at: int, e: Event)
    ensures multiset(TransactionEvents(rows, account, at))[e]
         == if e.Transaction? && e.date <= at
            then multiset(rows)[TransactionRow(account, e.date, e.created, e.typeName, e.amount)] else 0
  {
    if rows != [] {
      TransactionEventsHold(Front(rows), account, at, e);
      FrontElements(rows);
    }
  }

  lemma {:induction false} ValuationEventsHold(rows: seq<ValuationRow>, account: Id, at: int, e: Event)
    ensures multiset(ValuationEvents(rows, account, at))[e]
         == if e.Valuation? && e.date <= at
            then multiset(rows)[ValuationRow(account, e.date, e.created, e.amount)] else 0
  {
    if rows != [] {
      ValuationEventsHold(Front(rows), account, at, e);
      FrontElements(rows);
    }
  }

  /** The events of an account on a day are its rows dated on or before it, each as often as it is stored. */
  lemma AccountEventsHold(
    transactions: seq<TransactionRow>, valuations: seq<ValuationRow>, account: Id, at: int, e: Event)
    ensures multiset(AccountEvents(transactions, valuations, account, at))[e]
         == if e.date > at then 0
            else match e
              case Transaction(date, created, typeName, amount) =>
                multiset(transactions)[TransactionRow(account, date, created, typeName, amount)]
              case Valuation(date, created, amount) =>
                multiset(valuations)[ValuationRow(account, date, created, amount)]
  {
    TransactionEventsHold(transactions, account, at, e);
    ValuationEventsHold(valuations, account, at, e);
  }

  /** The two loops that collect the events of an account up to a day. */
  method CollectEvents(transactions: seq<TransactionRow>, valuations: seq<ValuationRow>, account: Id, at: int)
    returns (events: seq<Event>)
    ensures events == AccountEvents(transactions, valuations, account, at)
  {
    events := [];
    for i := 0 to |transactions|
      invariant events == TransactionEvents(transactions[..i], account, at)
    {
      var row := transactions[i];
      assert transactions[..i + 1] == transactions[..i] + [row];
      if row.account == account && row.date <= at {
        events := events + [Transaction(row.date, row.created, row.typeName, row.amount)];
      }
    }
    assert transactions[..|transactions|] == transactions;
    for i := 0 to |valuations|
      invariant events == TransactionEvents(transactions, account, at) + ValuationEvents(valuations[..i], account, at)
    {
      var row := valuations[i];
      assert valuations[..i + 1] == valuations[..i] + [row];
      if row.account == account && row.date <= at {
        events := events + [Valuation(row.date, row.created, row.value)];
      }
    }
    assert valuations[..|valuations|] == valuations;
  }

  /** `chartAccountValue` of an account tracked by balance. */
  method ChartAccountValue(transactions: seq<TransactionRow>, valuations: seq<ValuationRow>, account: Id, at: int)
    returns (result: Result<Int64, LedgerError>)
    ensures result == Replay(StableSort(AccountEvents(transactions, valuations, account, at)))
  {
    hide StableSort, AccountEvents;
    var events := CollectEvents(transactions, valuations, account, at);
    events := StableSort(events);
    var balance: Int64 := 0;
    for i := 0 to |events|
      invariant Replay(events[..i]) == Ok(balance)
    {
      var row := events[i];
      assert events[..i + 1][..i] == events[..i];
      if row.Valuation? {
        balance := row.amount;
        continue;
      }
      var effect := TransactionEffect(row.typeName, row.amount);
      if effect.Err? {
        ErrorSticks(events, i + 1);
        return Err(effect.error);
      }
      var sum := CheckedAdd(balance, effect.value);
      if sum.Err? {
        ErrorSticks(events, i + 1);
        return Err(sum.error);
      }
      balance := sum.value;
    }
    assert events[..|events|] == events;
    result := Ok(balance);
  }

  /**
   The big-integer loop that `accountBalanceAt`, `replayBalance` and `projectAccountHistory`
   share, over rows in the order they are read.
   */
  method ReplayRows(rows: seq<Event>) returns (result: Result<Int64, LedgerError>)
    ensures result == Replay(rows)
  {
    var balance: int := 0;
    for i := 0 to |rows|
      invariant IsInt64(balance) && Replay(rows[..i]) == Ok(balance)
    {
      var row := rows[i];
      assert rows[..i + 1][..i] == rows[..i];
      if row.Valuation? {
        balance := row.amount;
        continue;
      }
      var effect := TransactionEffect(row.typeName, row.amount);
      if effect.Err? {
        ErrorSticks(rows, i + 1);
        return Err(effect.error);
      }
      balance := balance + effect.value;
      if !IsInt64(balance) {
        ErrorSticks(rows, i + 1);
        return Err(BalanceRange);
      }
    }
    assert rows[..|rows|] == rows;
    result := Ok(balance);
  }

  /** Rows a query returns ordered by date, creation time and kind; the order of ties is the database's choice. */
  ghost predicate QueryResult(rows: seq<Event>, events: seq<Event>) {
    Sorted(rows) && multiset(rows) == multiset(events)
  }

  /** The chart, the database query and a second query agree on an account's balance on a day. */
  lemma ReplaysOfOneLedgerAgree(
    transactions: seq<TransactionRow>, valuations: seq<ValuationRow>, account: Id, at: int, rows: seq<Event>,
    again: seq<Event>)
    requires
      var events := AccountEvents(transactions, valuations, account, at);
      QueryResult(rows, events) && QueryResult(again, events) && LatestValuationsAgree(rows)
    requires
      var events := AccountEvents(transactions, valuations, account, at);
      Replay(rows).Ok? && Replay(again).Ok? && Replay(StableSort(events)).Ok?
    ensures Replay(StableSort(AccountEvents(transactions, valuations, account, at))) == Replay(rows) == Replay(again)
  {
    StableSortSorts(AccountEvents(transactions, valuations, account, at));
    ReplaysAgree(rows, again);
    ReplaysAgree(rows, StableSort(AccountEvents(transactions, valuations, account, at)));
  }

  // ---- a preview and its commit -----------------------------------------------------------------------------------

  /** A row about to be imported. */
  datatype Prospect = Prospect(ready: bool, date: int, typeName: TransactionType, amount: Int64)

  /** The transactions of the ready rows, each stamped with its own creation time. */
  function Prospects(rows: seq<Prospect>, stamps: nat -> int): seq<Event> {
    if rows == [] then []
    else
      Prospects(Front(rows), stamps)
      + if Last(rows).ready
        then [Transaction(Last(rows).date, stamps(|rows| - 1), Last(rows).typeName, Last(rows).amount)] else []
  }

  /** `projectAccountHistory`: the stored rows with the prospects appended, stamped one nanosecond apart from now on. */
  method ProjectAccountHistory(stored: seq<Event>, imported: seq<Prospect>, now: int)
    returns (result: Result<Int64, LedgerError>)
    ensures result == Replay(StableSort(stored + Prospects(imported, index => now + index)))
  {
    ghost var stamps := (index: nat) => now + index;
    var events := stored;
    for i := 0 to |imported|
      invariant events == stored + Prospects(imported[..i], stamps)
    {
      var row := imported[i];
      assert imported[..i + 1] == imported[..i] + [row];
      if row.ready {
        events := events + [Transaction(row.date, now + i, row.typeName, row.amount)];
      }
    }
    assert imported[..|imported|] == imported;
    SameStamps(imported, stamps, index => now + index);
    result := ReplayRows(StableSort(events));
  }

  lemma {:induction false} SameStamps(rows: seq<Prospect>, one: nat -> int, other: nat -> int)
    requires forall i: nat | i < |rows| :: one(i) == other(i)
    ensures Prospects(rows, one) == Prospects(rows, other)
  {
    if rows != [] { SameStamps(Front(rows), one, other); }
  }

  /** Every import is stamped after each stored valuation of its date. */
  ghost predicate StampedAfter(stored: seq<Event>, rows: seq<Prospect>, stamps: nat -> int) {
    forall i: nat, v | i < |rows| && v in stored && v.Valuation? && v.date == rows[i].date :: stamps(i) > v.created
  }

  lemma {:induction false} EffectsAfterConcat(one: seq<Event>, other: seq<Event>, cut: Option<Event>)
    ensures EffectsAfter(one + other, cut) == EffectsAfter(one, cut) + EffectsAfter(other, cut)
  {
    if other == [] {
      assert one + other == one;
    } else {
      EffectsAfterConcat(one, Front(other), cut);
      assert Front(one + other) == one + Front(other);
    }
  }

  lemma {:induction false} ProspectEffects(
    stored: seq<Event>, rows: seq<Prospect>, one: nat -> int, other: nat -> int, cut: Option<Event>)
    requires StampedAfter(stored, rows, one) && StampedAfter(stored, rows, other)
    requires cut.Some? ==> cut.value in stored && cut.value.Valuation?
    ensures EffectsAfter(Prospects(rows, one), cut) == EffectsAfter(Prospects(rows, other), cut)
  {
    if rows != [] {
      var row, last := Last(rows), |rows| - 1;
      assert rows[last] == row;
      assert forall i: nat | i < |Front(rows)| :: Front(rows)[i] == rows[i];
      ProspectEffects(stored, Front(rows), one, other, cut);
      if row.ready {
        EffectsAfterConcat(Prospects(Front(rows), one), [Transaction(row.date, one(last), row.typeName, row.amount)],
          cut);
        EffectsAfterConcat(Prospects(Front(rows), other),
          [Transaction(row.date, other(last), row.typeName, row.amount)], cut);
        SingleEffect(Transaction(row.date, one(last), row.typeName, row.amount), cut);
        SingleEffect(Transaction(row.date, other(last), row.typeName, row.amount), cut);
      } else {
        assert Prospects(rows, one) == Prospects(Front(rows), one);
        assert Prospects(rows, other) == Prospects(Front(rows), other);
      }
    }
  }

  lemma SingleEffect(event: Event, cut: Option<Event>)
    ensures EffectsAfter([event], cut) == EffectAfter(event, cut)
  {
    assert [event][..0] == [];
  }

  lemma {:induction false} ProspectsAreTransactions(rows: seq<Prospect>, stamps: nat -> int)
    ensures forall e | e in Prospects(rows, stamps) :: e.Transaction?
  {
    if rows != [] { ProspectsAreTransactions(Front(rows), stamps); }
  }

  /**
   A preview announces the balance the commit then stores.  The two stamp the imported
   rows differently, since the database keeps fewer digits of the creation time, but any
   stamps after the stored valuations of the same dates give the same balance.
   */
  lemma PreviewMatchesCommit(
    stored: seq<Event>, rows: seq<Prospect>, preview: nat -> int, commit: nat -> int, one: seq<Event>,
    other: seq<Event>)
    requires StampedAfter(stored, rows, preview) && StampedAfter(stored, rows, commit)
    requires QueryResult(one, stored + Prospects(rows, preview)) && QueryResult(other, stored + Prospects(rows, commit))
    requires LatestValuationsAgree(stored)
    requires Replay(one).Ok? && Replay(other).Ok?
    ensures Replay(one) == Replay(other)
  {
    hide Replay, QueryResult, LatestValuationsAgree, StampedAfter;
    var v := ImportReplay(stored, rows, preview, one);
    var w := ImportReplay(stored, rows, commit, other);
    ProspectEffects(stored, rows, preview, commit, v);
    SameCut(stored, Prospects(rows, commit), v, w);
  }

  /** What the rows contribute that one way of stamping puts after the latest valuation and the other does not. */
  function Crossed(rows: seq<Prospect>, one: nat -> int, other: nat -> int, cut: Option<Event>): int {
    if rows == [] then 0
    else
      var before := Crossed(Front(rows), one, other, cut);
      if Last(rows).ready && cut.Some? && Last(rows).date == cut.value.date then
        before + CrossedBy(Last(rows), one(|rows| - 1) > cut.value.created, other(|rows| - 1) > cut.value.created)
      else before
  }

  function CrossedBy(row: Prospect, one: bool, other: bool): int {
    if one == other then 0 else if one then InvestmentEffect(row.typeName, row.amount)
      else -InvestmentEffect(row.typeName, row.amount)
  }

  lemma {:induction false} CrossedIsTheDifference(
    rows: seq<Prospect>, one: nat -> int, other: nat -> int, cut: Option<Event>)
    ensures EffectsAfter(Prospects(rows, one), cut) - EffectsAfter(Prospects(rows, other), cut)
            == Crossed(rows, one, other, cut)
  {
    if rows != [] {
      var row, last := Last(rows), |rows| - 1;
      CrossedIsTheDifference(Front(rows), one, other, cut);
      if row.ready {
        EffectsAfterConcat(Prospects(Front(rows), one), [Transaction(row.date, one(last), row.typeName, row.amount)],
          cut);
        EffectsAfterConcat(Prospects(Front(rows), other),
          [Transaction(row.date, other(last), row.typeName, row.amount)], cut);
        SingleEffect(Transaction(row.date, one(last), row.typeName, row.amount), cut);
        SingleEffect(Transaction(row.date, other(last), row.typeName, row.amount), cut);
      } else {
        assert Prospects(rows, one) == Prospects(Front(rows), one);
        assert Prospects(rows, other) == Prospects(Front(rows), other);
      }
    }
  }

  /**
   Whatever the stamps, the two balances differ by the effects of the rows that only one
   way of stamping puts after the latest valuation, so they are the same exactly when
   these make up nothing.
   */
  lemma PreviewMatchesCommitExactlyWhen(
    stored: seq<Event>, rows: seq<Prospect>, preview: nat -> int, commit: nat -> int, latest: Option<Event>,
    one: seq<Event>, other: seq<Event>)
    requires QueryResult(one, stored + Prospects(rows, preview)) && QueryResult(other, stored + Prospects(rows, commit))
    requires LatestIn(stored, latest) && LatestValuationsAgree(stored)
    requires Replay(one).Ok? && Replay(other).Ok?
    ensures Replay(one).value - Replay(other).value == Crossed(rows, preview, commit, latest)
    ensures Replay(one) == Replay(other) <==> Crossed(rows, preview, commit, latest) == 0
  {
    hide Replay, LatestIn, QueryResult, LatestValuationsAgree;
    var v := ImportReplay(stored, rows, preview, one);
    var w := ImportReplay(stored, rows, commit, other);
    SameCut(stored, Prospects(rows, preview), v, latest);
    SameCut(stored, Prospects(rows, commit), w, latest);
    CrossedIsTheDifference(rows, preview, commit, latest);
  }

  /** The latest stored valuation, as a cut, decides which effects count. */
  lemma SameCut(stored: seq<Event>, added: seq<Event>, v: Option<Event>, w: Option<Event>)
    requires LatestIn(stored, v) && LatestIn(stored, w) && LatestValuationsAgree(stored)
    ensures Base(v) == Base(w)
    ensures EffectsAfter(stored, v) == EffectsAfter(stored, w) && EffectsAfter(added, v) == EffectsAfter(added, w)
  {
    if v.Some? && w.Some? {
      assert Latest(stored, v.value) && Latest(stored, w.value);
      CutOnlyMattersByStamp(stored, v.value, w.value);
      CutOnlyMattersByStamp(added, v.value, w.value);
    }
  }

  ghost predicate LatestIn(events: seq<Event>, last: Option<Event>) {
    match last
    case None => forall e | e in events :: e.Transaction?
    case Some(v) => Latest(events, v)
  }

  lemma ImportReplay(stored: seq<Event>, rows: seq<Prospect>, stamps: nat -> int, sorted: seq<Event>)
    returns (last: Option<Event>)
    requires QueryResult(sorted, stored + Prospects(rows, stamps)) && Replay(sorted).Ok?
    ensures LatestIn(stored, last)
    ensures Replay(sorted).value
            == Base(last) + EffectsAfter(stored, last) + EffectsAfter(Prospects(rows, stamps), last)
  {
    ReplayMeaning(sorted);
    last := ImportMeaning(stored, rows, stamps, sorted);
  }

  lemma ImportMeaning(stored: seq<Event>, rows: seq<Prospect>, stamps: nat -> int, sorted: seq<Event>)
    returns (last: Option<Event>)
    requires QueryResult(sorted, stored + Prospects(rows, stamps))
    ensures LatestIn(stored, last)
    ensures Meaning(sorted) == Base(last) + EffectsAfter(stored, last) + EffectsAfter(Prospects(rows, stamps), last)
  {
    last := LastValuation(sorted);
    LatestStored(stored, rows, stamps, sorted);
    EffectsAfterPermutation(sorted, stored + Prospects(rows, stamps), last);
    EffectsAfterConcat(stored, Prospects(rows, stamps), last);
  }

  /** With imports the latest valuation is still the latest of the stored ones. */
  lemma LatestStored(stored: seq<Event>, rows: seq<Prospect>, stamps: nat -> int, sorted: seq<Event>)
    requires QueryResult(sorted, stored + Prospects(rows, stamps))
    ensures LatestIn(stored, LastValuation(sorted))
  {
    SameElements(sorted, stored + Prospects(rows, stamps));
    ProspectsAreTransactions(rows, stamps);
    LastValuationIsLatest(sorted);
  }
}
