/**
 The periods in which the latest price of an instrument was too old
 (`priceStaleRanges`), against the rule for a single day (`priceIsStale`).
 */
module StaleRanges {
  import opened Wrappers
  import opened Sequences

  datatype Price = Price(instrument: Id, date: int)

  datatype Range = Range(from: int, to: int)

  /** `priceIsStale`: stale once today is more than the threshold after the price's date. */
  predicate PriceIsStale(priceDate: int, today: int, threshold: int) {
    today > priceDate + threshold
  }

  predicate Ascending(dates: seq<int>) {
    forall i, j | 0 <= i < j < |dates| :: dates[i] < dates[j]
  }

  // ---- uniqueChartDates -------------------------------------------------------------------------------------------

  predicate NonDescending(values: seq<int>) {
    forall i, j | 0 <= i < j < |values| :: values[i] <= values[j]
  }

  function InsertDate(values: seq<int>, value: int): (inserted: seq<int>)
    ensures forall d :: d in inserted <==> d in values || d == value
  {
    if values == [] then [value]
    else if value <= values[0] then [value] + values
    else [values[0]] + InsertDate(values[1..], value)
  }

  lemma NonDescendingCons(first: int, rest: seq<int>)
    requires NonDescending(rest) && forall d | d in rest :: first <= d
    ensures NonDescending([first] + rest)
  {
    var all := [first] + rest;
    forall i, j | 0 <= i < j < |all| ensures all[i] <= all[j] { assert all[j] == rest[j - 1] && rest[j - 1] in rest; }
  }

  lemma {:induction false} InsertDateOrdered(values: seq<int>, value: int)
    requires NonDescending(values)
    ensures NonDescending(InsertDate(values, value))
  {
    if values != [] {
      if value <= values[0] {
        NonDescendingCons(value, values);
      } else {
        InsertDateOrdered(values[1..], value);
        NonDescendingCons(values[0], InsertDate(values[1..], value));
      }
    }
  }

  function SortDates(values: seq<int>): (sorted: seq<int>)
    ensures NonDescending(sorted)
    ensures forall d :: d in sorted <==> d in values
  {
    if values == [] then []
    else
      InsertDateOrdered(SortDates(Front(values)), Last(values));
      InsertDate(SortDates(Front(values)), Last(values))
  }

  lemma AscendingAppend(dates: seq<int>, last: int)
    requires Ascending(dates) && forall d | d in dates :: d < last
    ensures Ascending(dates + [last])
  {
    var all := dates + [last];
    forall i, j | 0 <= i < j < |all| ensures all[i] < all[j] { assert all[i] == dates[i] && dates[i] in dates; }
  }

  lemma SeenIsEarlier(sorted: seq<int>, i: nat, d: int)
    requires NonDescending(sorted) && i < |sorted| && d in sorted[..i]
    ensures d <= sorted[i]
  {
  }

  /** The distinct dates in order. */
  method UniqueChartDates(values: seq<int>) returns (result: seq<int>)
    ensures Ascending(result)
    ensures forall d :: d in result <==> d in values
  {
    var sorted := SortDates(values);
    result := [];
    var seen: set<int> := {};
    for i := 0 to |sorted|
      invariant Ascending(result)
      invariant forall d :: d in seen <==> d in sorted[..i]
      invariant forall d :: d in result <==> d in seen
    {
      var date := sorted[i];
      assert sorted[..i + 1] == sorted[..i] + [date];
      if date !in seen {
        forall d | d in result ensures d < date { SeenIsEarlier(sorted, i, d); }
        AscendingAppend(result, date);
        result := result + [date];
        seen := seen + {date};
      }
    }
    assert sorted[..|sorted|] == sorted;
  }

  // ---- priceStaleRanges -------------------------------------------------------------------------------------------

  /** The range after one price date, up to the next price or, for the latest price, up to today. */
  function RangeAfter(dates: seq<int>, index: nat, threshold: int, today: int): seq<Range>
    requires index < |dates|
  {
    var staleFrom := dates[index] + threshold + 1;
    if index + 1 < |dates| then
      if staleFrom < dates[index + 1] then [Range(staleFrom, dates[index + 1])] else []
    else if staleFrom <= today then [Range(staleFrom, today)]
    else []
  }

  function RangesFrom(dates: seq<int>, index: nat, threshold: int, today: int): seq<Range>
    requires index <= |dates|
    decreases |dates| - index
  {
    if index == |dates| then []
    else RangeAfter(dates, index, threshold, today) + RangesFrom(dates, index + 1, threshold, today)
  }

  /** The price dates of an instrument that are not in the future. */
  ghost predicate PricedOn(prices: seq<Price>, instrument: Id, today: int, day: int) {
    day <= today && Price(instrument, day) in prices
  }

  method PriceDates(prices: seq<Price>, instrument: Id, today: int) returns (chosen: seq<int>)
    ensures forall d :: d in chosen <==> PricedOn(prices, instrument, today, d)
  {
    chosen := [];
    for i := 0 to |prices|
      invariant forall d :: d in chosen <==> PricedOn(prices[..i], instrument, today, d)
    {
      var price := prices[i];
      assert prices[..i + 1] == prices[..i] + [price];
      assert forall p :: p in prices[..i + 1] <==> p in prices[..i] || p == price;
      if price.instrument == instrument && price.date <= today {
        chosen := chosen + [price.date];
      }
    }
    assert prices[..|prices|] == prices;
  }

  /** The latest of the dates that is not after a day. */
  ghost predicate LatestBy(dates: seq<int>, day: int, latest: int) {
    latest in dates && latest <= day && forall d | d in dates && d <= day :: d <= latest
  }

  /** A day lies in a range; only a range that runs up to today without a new price includes its end. */
  predicate Within(range: Range, day: int, today: int, pricedToday: bool) {
    range.from <= day && (day < range.to || (day == range.to == today && !pricedToday))
  }

  ghost predicate Covered(ranges: seq<Range>, day: int, today: int, pricedToday: bool) {
    exists r | r in ranges :: Within(r, day, today, pricedToday)
  }

  lemma RangeAfterIsStale(dates: seq<int>, index: nat, threshold: int, today: int, day: int)
    requires Ascending(dates) && index < |dates| && threshold >= 0 && Last(dates) <= today && day <= today
    ensures Covered(RangeAfter(dates, index, threshold, today), day, today, Last(dates) == today)
       <==> PriceIsStale(dates[index], day, threshold) && (index + 1 < |dates| ==> day < dates[index + 1])
  {
    var after := RangeAfter(dates, index, threshold, today);
    if after != [] {
      assert after[0] in after;
    }
  }

  lemma CoveredConcat(one: seq<Range>, other: seq<Range>, day: int, today: int, pricedToday: bool)
    ensures Covered(one + other, day, today, pricedToday)
       <==> Covered(one, day, today, pricedToday) || Covered(other, day, today, pricedToday)
  {
    forall r ensures r in one + other <==> r in one || r in other {}
  }

  /** From the first price to today, the ranges hold exactly the days whose latest price is stale. */
  lemma {:induction false} RangesAreTheStaleDays(
    dates: seq<int>, index: nat, threshold: int, today: int, day: int, latest: int)
    requires Ascending(dates) && index < |dates| && threshold >= 0 && Last(dates) <= today
    requires dates[index] <= day <= today && LatestBy(dates, day, latest)
    ensures Covered(RangesFrom(dates, index, threshold, today), day, today, Last(dates) == today)
       <==> PriceIsStale(latest, day, threshold)
    decreases |dates| - index
  {
    var pricedToday := Last(dates) == today;
    RangeAfterIsStale(dates, index, threshold, today, day);
    CoveredConcat(RangeAfter(dates, index, threshold, today), RangesFrom(dates, index + 1, threshold, today),
                  day, today, pricedToday);
    var k :| 0 <= k < |dates| && dates[k] == latest;
    if index + 1 < |dates| && dates[index + 1] <= day {
      RangesAreTheStaleDays(dates, index + 1, threshold, today, day, latest);
    } else {
      assert dates[index] in dates;
      assert k == index;
      NotYetCovered(dates, index + 1, threshold, today, day);
    }
  }

  lemma {:induction false} NotYetCovered(dates: seq<int>, index: nat, threshold: int, today: int, day: int)
    requires Ascending(dates) && dates != [] && index <= |dates| && threshold >= 0 && Last(dates) <= today
             && day <= today
    requires index < |dates| ==> day < dates[index]
    ensures !Covered(RangesFrom(dates, index, threshold, today), day, today, Last(dates) == today)
    decreases |dates| - index
  {
    if index < |dates| {
      RangeAfterIsStale(dates, index, threshold, today, day);
      NotYetCovered(dates, index + 1, threshold, today, day);
      CoveredConcat(RangeAfter(dates, index, threshold, today), RangesFrom(dates, index + 1, threshold, today),
                    day, today, Last(dates) == today);
    }
  }

  /** In order, not touching, none in the future, and all after a day. */
  ghost predicate Separate(ranges: seq<Range>, after: int, today: int) {
    && (forall i | 0 <= i < |ranges| :: after < ranges[i].from <= ranges[i].to <= today)
    && (forall i, j | 0 <= i < j < |ranges| :: ranges[i].to < ranges[j].from)
  }

  lemma SeparatePrepend(first: Range, rest: seq<Range>, after: int, today: int)
    requires after < first.from <= first.to <= today && Separate(rest, first.to, today)
    ensures Separate([first] + rest, after, today)
  {
    var ranges := [first] + rest;
    forall i | 0 < i < |ranges| ensures ranges[i] == rest[i - 1] {}
  }

  /** The ranges are in order and do not touch. */
  lemma {:induction false} RangesDisjoint(dates: seq<int>, index: nat, threshold: int, today: int)
    requires Ascending(dates) && index < |dates| && threshold >= 0 && Last(dates) <= today
    ensures Separate(RangesFrom(dates, index, threshold, today), dates[index], today)
    decreases |dates| - index
  {
    if index + 1 < |dates| {
      RangesDisjoint(dates, index + 1, threshold, today);
      RangeAfterBounds(dates, index, threshold, today);
      SeparateJoin(RangeAfter(dates, index, threshold, today), RangesFrom(dates, index + 1, threshold, today),
                   dates[index], dates[index + 1], today);
    } else {
      SeparateJoin(RangeAfter(dates, index, threshold, today), [], dates[index], today, today);
    }
  }

  lemma RangeAfterBounds(dates: seq<int>, index: nat, threshold: int, today: int)
    requires Ascending(dates) && index + 1 < |dates| && threshold >= 0 && Last(dates) <= today
    ensures Separate(RangeAfter(dates, index, threshold, today), dates[index], today)
    ensures forall r | r in RangeAfter(dates, index, threshold, today) :: r.to <= dates[index + 1]
    ensures dates[index] < dates[index + 1]
  {
    assert dates[index + 1] <= Last(dates);
  }

  lemma SeparateEarlier(ranges: seq<Range>, after: int, earlier: int, today: int)
    requires Separate(ranges, after, today) && earlier <= after
    ensures Separate(ranges, earlier, today)
  {
    forall i | 0 <= i < |ranges| ensures earlier < ranges[i].from <= ranges[i].to <= today {
      assert after < ranges[i].from;
    }
  }

  lemma SeparateJoin(one: seq<Range>, rest: seq<Range>, after: int, middle: int, today: int)
    requires |one| <= 1 && Separate(one, after, today) && Separate(rest, middle, today)
    requires after <= middle && forall r | r in one :: r.to <= middle
    ensures Separate(one + rest, after, today)
  {
    if one == [] {
      assert one + rest == rest;
    } else {
      var first := one[0];
      assert first in one && one == [first];
      SeparateEarlier(rest, middle, first.to, today);
      SeparatePrepend(first, rest, after, today);
    }
  }

  /** The latest price date of an instrument that is not after a day. */
  ghost predicate LatestPrice(prices: seq<Price>, instrument: Id, today: int, day: int, latest: int) {
    && PricedOn(prices, instrument, today, latest) && latest <= day
    && forall d | PricedOn(prices, instrument, today, d) && d <= day :: d <= latest
  }

  /** A day that has a price on or before it, in a range exactly when that price is stale. */
  ghost predicate StaleExactly(
    ranges: seq<Range>, prices: seq<Price>, instrument: Id, threshold: int, today: int, day: int, latest: int)
  {
    LatestPrice(prices, instrument, today, day, latest) ==>
      (Covered(ranges, day, today, PricedOn(prices, instrument, today, today))
       <==> PriceIsStale(latest, day, threshold))
  }

  /** `priceStaleRanges`: the ranges are in order, apart, and hold exactly the days whose latest price is stale. */
  method PriceStaleRanges(prices: seq<Price>, instrument: Id, threshold: int, today: int) returns (ranges: seq<Range>)
    ensures threshold >= 0 ==>
              forall day, latest | day <= today ::
                StaleExactly(ranges, prices, instrument, threshold, today, day, latest)
    ensures threshold >= 0 ==>
              forall first | PricedOn(prices, instrument, today, first)
                             && (forall d | PricedOn(prices, instrument, today, d) :: first <= d) ::
                                Separate(ranges, first, today)
    ensures (forall d :: !PricedOn(prices, instrument, today, d)) ==> ranges == []
  {
    var chosen := PriceDates(prices, instrument, today);
    var dates := UniqueChartDates(chosen);
    ranges := [];
    for i := 0 to |dates|
      invariant ranges + RangesFrom(dates, i, threshold, today) == RangesFrom(dates, 0, threshold, today)
    {
      ranges := ranges + RangeAfter(dates, i, threshold, today);
    }
    assert ranges == RangesFrom(dates, 0, threshold, today);
    if dates == [] {
      assert forall d :: !PricedOn(prices, instrument, today, d);
    } else {
      assert dates[0] in dates && Last(dates) in dates;
      if threshold >= 0 {
        forall day, latest | day <= today
          ensures StaleExactly(ranges, prices, instrument, threshold, today, day, latest)
        {
          RangesHoldStaleDays(ranges, dates, prices, instrument, threshold, today, day, latest);
        }
        RangesDisjoint(dates, 0, threshold, today);
      }
    }
  }

  lemma LastIsGreatest(dates: seq<int>)
    requires Ascending(dates) && dates != []
    ensures forall d | d in dates :: d <= Last(dates)
  {
  }

  lemma RangesHoldStaleDays(
    ranges: seq<Range>, dates: seq<int>, prices: seq<Price>, instrument: Id, threshold: int, today: int, day: int,
    latest: int)
    requires Ascending(dates) && dates != [] && threshold >= 0 && day <= today
    requires forall d :: d in dates <==> PricedOn(prices, instrument, today, d)
    requires ranges == RangesFrom(dates, 0, threshold, today)
    ensures StaleExactly(ranges, prices, instrument, threshold, today, day, latest)
  {
    if LatestPrice(prices, instrument, today, day, latest) {
      assert Last(dates) in dates && latest in dates;
      assert LatestBy(dates, day, latest);
      var k :| 0 <= k < |dates| && dates[k] == latest;
      assert dates[0] <= latest;
      RangesAreTheStaleDays(dates, 0, threshold, today, day, latest);
      LastIsGreatest(dates);
    }
  }

  // ---- the end of a range -----------------------------------------------------------------------------------------

  /** Reading a range on its own: its end is in it exactly when that is today. */
  ghost predicate PlainlyCovered(ranges: seq<Range>, day: int, today: int) {
    Covered(ranges, day, today, false)
  }

  /** The plain reading is right about every day from the first price to today. */
  ghost predicate PlainReadingIsRight(dates: seq<int>, threshold: int, today: int)
    requires dates != []
  {
    forall day: int, latest: int | dates[0] <= day <= today && LatestBy(dates, day, latest) ::
      PlainlyCovered(RangesFrom(dates, 0, threshold, today), day, today) <==> PriceIsStale(latest, day, threshold)
  }

  /** A price dated today ends a stale period. */
  predicate StaleUntilToday(dates: seq<int>, threshold: int, today: int) {
    |dates| >= 2 && Last(dates) == today && dates[|dates| - 2] + threshold + 1 < today
  }

  /** With a price dated today, the ranges include today, read plainly, exactly when that price ends one. */
  lemma {:induction false} TodayIsPlainlyCovered(dates: seq<int>, index: nat, threshold: int, today: int)
    requires Ascending(dates) && index < |dates| && threshold >= 0 && Last(dates) == today
    ensures PlainlyCovered(RangesFrom(dates, index, threshold, today), today, today)
       <==> index + 1 < |dates| && StaleUntilToday(dates, threshold, today)
    decreases |dates| - index
  {
    var after := RangeAfter(dates, index, threshold, today);
    if after != [] { assert after[0] in after; }
    if index + 1 < |dates| {
      CoveredConcat(after, RangesFrom(dates, index + 1, threshold, today), today, today, false);
      TodayIsPlainlyCovered(dates, index + 1, threshold, today);
    } else {
      assert after == [] && RangesFrom(dates, index + 1, threshold, today) == [];
    }
  }

  /** On every other day, and without a price dated today, the plain reading is the right one. */
  lemma OtherDaysReadPlainly(dates: seq<int>, threshold: int, today: int, day: int, latest: int)
    requires Ascending(dates) && dates != [] && threshold >= 0 && Last(dates) <= today
    requires dates[0] <= day <= today && LatestBy(dates, day, latest) && (day < today || Last(dates) < today)
    ensures PlainlyCovered(RangesFrom(dates, 0, threshold, today), day, today) <==> PriceIsStale(latest, day, threshold)
  {
    hide RangesFrom;
    RangesAreTheStaleDays(dates, 0, threshold, today, day, latest);
    var ranges := RangesFrom(dates, 0, threshold, today);
    forall r ensures Within(r, day, today, Last(dates) == today) == Within(r, day, today, false) {}
  }

  /**
   Reading every range that ends today as including today is right about every day exactly
   unless a price dated today ends a stale period: that range ends today and does not
   include it.
   */
  lemma PlainReadingIsRightExactlyWhen(dates: seq<int>, threshold: int, today: int)
    requires Ascending(dates) && dates != [] && threshold >= 0 && Last(dates) <= today
    ensures PlainReadingIsRight(dates, threshold, today) <==> !StaleUntilToday(dates, threshold, today)
  {
    hide RangesFrom, PlainlyCovered;
    forall day: int, latest: int
      | dates[0] <= day <= today && LatestBy(dates, day, latest) && (day < today || Last(dates) < today)
      ensures PlainlyCovered(RangesFrom(dates, 0, threshold, today), day, today)
              <==> PriceIsStale(latest, day, threshold)
    {
      OtherDaysReadPlainly(dates, threshold, today, day, latest);
    }
    if Last(dates) == today {
      TodayIsPlainlyCovered(dates, 0, threshold, today);
      LastIsGreatest(dates);
      assert LatestBy(dates, today, today) && !PriceIsStale(today, today, threshold);
    }
  }

  /**
   Nor can the two be told apart: these price dates give the same range, and today is
   stale only without the second.
   */
  lemma EndTodayIsAmbiguous(first: int, today: int, threshold: int)
    requires threshold >= 0 && first + threshold + 1 < today
    ensures RangesFrom([first, today], 0, threshold, today) == RangesFrom([first], 0, threshold, today)
            == [Range(first + threshold + 1, today)]
    ensures !PriceIsStale(today, today, threshold) && PriceIsStale(first, today, threshold)
  {
    assert RangesFrom([first, today], 1, threshold, today) == [];
    assert RangesFrom([first], 1, threshold, today) == [];
  }
}
