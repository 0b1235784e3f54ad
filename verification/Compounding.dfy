/**
 The mathematics of a goal projection, apart from dates: a balance that grows by
 a factor each month and receives a contribution in the months of a schedule.
 Every projection loop of the source is proved against `Course.Value`.
 */
module Compounding {
  import opened Wrappers
  import opened Rational

  /** Which months contribute. */
  type Schedule = nat -> bool

  /** The balance after a month's return, from the balance before. */
  type Growth = real -> real

  function Scaling(factor: real): Growth {
    x => x * factor
  }

  /** What a projection depends on. */
  datatype Course = Course(schedule: Schedule, current: int, contribution: int, growth: Growth) {

    function Paid(month: nat): int {
      if schedule(month) then contribution else 0
    }

    /** The unrounded worth after a number of months. */
    function Value(months: nat): real {
      if months == 0 then current as real else growth(Value(months - 1)) + Paid(months) as real
    }

    function Contributed(months: nat): int {
      if months == 0 then 0 else Contributed(months - 1) + Paid(months)
    }

    function Projected(months: nat): int {
      Round(Value(months))
    }
  }

  // ---- properties of a month's growth -----------------------------------------------------------------------------

  ghost predicate Increasing(growth: Growth) {
    forall x, y | x <= y :: growth(x) <= growth(y)
  }

  /** A non-negative balance never shrinks. */
  ghost predicate Expanding(growth: Growth) {
    forall x | x >= 0.0 :: growth(x) >= x
  }

  ghost predicate Dominates(higher: Growth, lower: Growth) {
    forall x | x >= 0.0 :: lower(x) <= higher(x)
  }

  lemma ScalingIncreasing(factor: real)
    requires factor >= 0.0
    ensures Increasing(Scaling(factor))
  {
    forall x, y | x <= y ensures Scaling(factor)(x) <= Scaling(factor)(y) { MulMonotone(x, y, factor); }
  }

  lemma ScalingExpanding(factor: real)
    requires factor >= 1.0
    ensures Increasing(Scaling(factor)) && Expanding(Scaling(factor))
  {
    ScalingIncreasing(factor);
    forall x | x >= 0.0 ensures Scaling(factor)(x) >= x { MulMonotone(1.0, factor, x); }
  }

  lemma ScalingDominates(lower: real, higher: real)
    requires lower <= higher
    ensures Dominates(Scaling(higher), Scaling(lower))
  {
    forall x | x >= 0.0 ensures Scaling(lower)(x) <= Scaling(higher)(x) { MulMonotone(lower, higher, x); }
  }

  // ---- order properties of the projection -------------------------------------------------------------------------

  /** `left` pays no more than `right` in any of the first months. */
  ghost predicate PaysNoMore(left: Course, right: Course, months: nat) {
    forall m: nat | 1 <= m <= months :: left.Paid(m) <= right.Paid(m)
  }

  lemma {:induction false} ValueMonotoneInPayments(left: Course, right: Course, months: nat)
    requires left.current <= right.current && left.growth == right.growth && Increasing(left.growth)
    requires PaysNoMore(left, right, months)
    ensures left.Value(months) <= right.Value(months)
  {
    if months > 0 {
      ValueMonotoneInPayments(left, right, months - 1);
    }
  }

  /** More money or more generous payments never project less. */
  lemma MonotoneInPayments(left: Course, right: Course, months: nat)
    requires left.current <= right.current && left.growth == right.growth && Increasing(left.growth)
    requires PaysNoMore(left, right, months)
    ensures left.Projected(months) <= right.Projected(months)
  {
    ValueMonotoneInPayments(left, right, months);
    RoundMonotone(left.Value(months), right.Value(months));
  }

  lemma {:induction false} ValueMonotoneInRate(left: Course, right: Course, months: nat)
    requires right == left.(growth := right.growth) && left.current >= 0 && left.contribution >= 0
    requires Expanding(left.growth) && Increasing(right.growth) && Dominates(right.growth, left.growth)
    ensures 0.0 <= left.Value(months) <= right.Value(months)
  {
    if months > 0 {
      ValueMonotoneInRate(left, right, months - 1);
      var x := left.Value(months - 1);
      assert left.growth(x) <= right.growth(x);
    }
  }

  /** On non-negative money a higher return never projects less. */
  lemma MonotoneInRate(left: Course, right: Course, months: nat)
    requires right == left.(growth := right.growth) && left.current >= 0 && left.contribution >= 0
    requires Expanding(left.growth) && Increasing(right.growth) && Dominates(right.growth, left.growth)
    ensures left.Projected(months) <= right.Projected(months)
  {
    ValueMonotoneInRate(left, right, months);
    RoundMonotone(left.Value(months), right.Value(months));
  }

  lemma {:induction false} ValueGrows(course: Course, early: nat, late: nat)
    requires Expanding(course.growth) && course.contribution >= 0 && early <= late
    requires course.Value(early) >= 0.0
    ensures course.Value(early) <= course.Value(late)
    decreases late - early
  {
    if early < late {
      ValueGrows(course, early, late - 1);
    }
  }

  /** A projection that has reached a positive target stays there. */
  lemma ReachedStaysReached(course: Course, target: int, early: nat, late: nat)
    requires Expanding(course.growth) && course.contribution >= 0 && early <= late
    requires target > 0 && course.Projected(early) >= target
    ensures course.Projected(late) >= target
  {
    ValueGrows(course, early, late);
    RoundMonotone(course.Value(early), course.Value(late));
  }

  lemma {:induction false} ValueCovers(course: Course, months: nat)
    requires Expanding(course.growth) && course.current >= 0 && course.contribution >= 0
    ensures course.Contributed(months) >= 0
    ensures course.Value(months) >= (course.current + course.Contributed(months)) as real
  {
    if months > 0 {
      ValueCovers(course, months - 1);
      assert course.growth(course.Value(months - 1)) >= course.Value(months - 1);
    }
  }

  /** On non-negative money the projection covers the principal and all contributions. */
  lemma ProjectedCovers(course: Course, months: nat)
    requires Expanding(course.growth) && course.current >= 0 && course.contribution >= 0
    ensures course.Contributed(months) >= 0
    ensures course.Projected(months) >= course.current + course.Contributed(months)
  {
    ValueCovers(course, months);
    RoundReaches(course.Value(months), course.current + course.Contributed(months));
  }

  /** Contributing the whole gap from the first month on closes it when the balance is not negative. */
  lemma GapSuffices(course: Course, target: int, months: nat)
    requires Expanding(course.growth) && 0 <= course.current < target && months >= 1
    requires course.schedule(1) && course.contribution == target - course.current
    ensures course.Projected(months) >= target
  {
    ProjectedCovers(course, 1);
    assert course.Contributed(1) == course.Contributed(0) + course.Paid(1);
    ReachedStaysReached(course, target, 1, months);
  }

  /** A debt that nothing is paid into never shrinks below one. */
  lemma {:induction false} DebtStays(course: Course, factor: real, months: nat)
    requires course.growth == Scaling(factor) && factor >= 1.0 && course.current < 0 && course.contribution == 0
    ensures course.Value(months) <= -1.0
  {
    if months > 0 {
      DebtStays(course, factor, months - 1);
      MulMonotone(1.0, factor, -course.Value(months - 1));
    }
  }

  /** On a debt the higher return falls behind the lower by at least the difference of the factors every month. */
  lemma {:induction false} DebtsDiverge(lower: Course, higher: Course, low: real, high: real, months: nat)
    requires lower.growth == Scaling(low) && higher == lower.(growth := Scaling(high)) && 1.0 <= low <= high
    requires lower.current < 0 && lower.contribution == 0
    ensures higher.Value(months) <= lower.Value(months) - months as real * (high - low)
  {
    hide Scaling, Course.Paid;
    if months > 0 {
      DebtsDiverge(lower, higher, low, high, months - 1);
      DebtStays(lower, low, months - 1);
      var n := (months - 1) as real;
      DebtStep(lower.Value(months - 1), higher.Value(months - 1), low, high, n);
      Unrolled(lower, low, months);
      Unrolled(higher, high, months);
      assert months as real == n + 1.0;
    }
  }

  /** A month without a payment. */
  lemma Unrolled(course: Course, factor: real, months: nat)
    requires course.growth == Scaling(factor) && course.contribution == 0 && months > 0
    ensures course.Value(months) == course.Value(months - 1) * factor
  {
  }

  lemma DebtStep(x: real, y: real, low: real, high: real, n: real)
    requires 1.0 <= low <= high && n >= 0.0 && x <= -1.0 && y <= x - n * (high - low)
    ensures y * high <= x * low - (n + 1.0) * (high - low)
  {
    var d := high - low;
    MulMonotone(y, x - n * d, high);
    MulMonotone(0.0, d, n);
    MulMonotone(1.0, high, n * d);
    MulMonotone(1.0, -x, d);
    assert (x - n * d) * high == x * high - (n * d) * high;
    assert x * high == x * low + x * d;
  }

  // ---- the first month that reaches a target ----------------------------------------------------------------------

  /** How far ahead a completion is looked for. */
  const COMPLETION_HORIZON: nat := 1200

  /** A projection and the amount it should reach. */
  datatype Aim = Aim(course: Course, target: int) {
    predicate ReachedIn(month: nat) {
      course.Projected(month) >= target
    }
  }

  /** The first month from `month` up to the horizon at which a condition holds. */
  function FirstMonth(condition: nat -> bool, month: nat): Option<nat>
    requires month <= COMPLETION_HORIZON
    decreases COMPLETION_HORIZON - month
  {
    if condition(month) then Some(month)
    else if month == COMPLETION_HORIZON then None
    else FirstMonth(condition, month + 1)
  }

  lemma {:induction false} FirstMonthIsLeast(condition: nat -> bool, from: nat)
    requires from <= COMPLETION_HORIZON
    ensures
      match FirstMonth(condition, from)
      case Some(found) =>
        && from <= found <= COMPLETION_HORIZON && condition(found)
        && forall m: nat | from <= m < found :: !condition(m)
      case None => forall m: nat | from <= m <= COMPLETION_HORIZON :: !condition(m)
    decreases COMPLETION_HORIZON - from
  {
    if !condition(from) && from < COMPLETION_HORIZON {
      FirstMonthIsLeast(condition, from + 1);
    }
  }

  /** The target is reached at a horizon exactly when the first reaching month is within it. */
  lemma ReachedExactlyWhenCompletedInTime(aim: Aim, months: nat)
    requires Expanding(aim.course.growth) && aim.course.contribution >= 0 && aim.target > 0
    requires months <= COMPLETION_HORIZON
    ensures
      var found := FirstMonth(aim.ReachedIn, 0);
      aim.course.Projected(months) >= aim.target <==> found.Some? && found.value <= months
  {
    FirstMonthIsLeast(aim.ReachedIn, 0);
    var found := FirstMonth(aim.ReachedIn, 0);
    assert aim.ReachedIn(months) <==> aim.course.Projected(months) >= aim.target;
    if found.Some? && found.value <= months {
      assert aim.ReachedIn(found.value);
      ReachedStaysReached(aim.course, aim.target, found.value, months);
    }
  }

  lemma FirstMonthIs(condition: nat -> bool, month: nat)
    requires month <= COMPLETION_HORIZON && condition(month)
    requires forall m: nat | m < month :: !condition(m)
    ensures FirstMonth(condition, 0) == Some(month)
  {
    FirstMonthIsLeast(condition, 0);
  }

  lemma NoMonthIsFirst(condition: nat -> bool)
    requires forall m: nat | m <= COMPLETION_HORIZON :: !condition(m)
    ensures FirstMonth(condition, 0) == None
  {
    FirstMonthIsLeast(condition, 0);
  }
}
