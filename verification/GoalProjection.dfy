/**
 The goal projections of `chart_analytics.go`: the projected value, the search for
 the smallest sufficient monthly contribution, the completion estimate, the three
 scenarios, and the sampled chart.
 */
module GoalProjection {
  import opened Wrappers
  import opened Calendar
  import opened Rational
  import opened Compounding

  /** A contribution plan: a month contributes when its date lies in the plan's window. */
  datatype Plan = Plan(start: Day, planStart: Day, planEnd: Option<Day>) {
    predicate Active(month: nat) {
      var date := AddMonths(start, month);
      date >= planStart && (planEnd.None? || date <= planEnd.value)
    }
  }

  /** The plan of the required pace: every month from now on. */
  function EveryMonth(start: Day): Plan {
    Plan(start, start, None)
  }

  lemma EveryMonthActive(start: Day)
    ensures forall month: nat | month >= 1 :: EveryMonth(start).Active(month)
  {
    forall month: nat | month >= 1 ensures EveryMonth(start).Active(month) {
      AddMonthsStrict(start, 0, month);
    }
  }

  /** A year's return in basis points, spread over twelve months without compounding. */
  function MonthlyGrowth(annualReturnBps: int): Growth {
    Scaling(1.0 + annualReturnBps as real / 120000.0)
  }

  lemma MonthlyGrowthExpands(bps: int)
    requires bps >= 0
    ensures Increasing(MonthlyGrowth(bps)) && Expanding(MonthlyGrowth(bps))
  {
    ScalingExpanding(1.0 + bps as real / 120000.0);
  }

  // ---- projectGoalValue -------------------------------------------------------------------------------------------

  method GrowthFactor(annualReturnBps: int) returns (factor: Rat)
    ensures Scaling(factor.Value()) == MonthlyGrowth(annualReturnBps)
  {
    var monthlyRate: Rat := Fraction(annualReturnBps, 120000);
    factor := FromInt(1).Plus(monthlyRate);
  }

  /** The step every projection loop repeats: grow, then add the contribution of an active month. */
  method NextMonth(value: Rat, factor: Rat, course: Course, month: nat) returns (next: Rat)
    requires course.growth == Scaling(factor.Value())
    ensures next.Value() == course.growth(value.Value()) + course.Paid(month) as real
  {
    next := value.Times(factor);
    if course.schedule(month) {
      next := next.Plus(FromInt(course.contribution));
    }
  }

  method ProjectGoalValue(current: int, contribution: int, annualReturnBps: int, months: nat, schedule: Schedule)
    returns (projected: int, contributions: int)
    ensures projected == Course(schedule, current, contribution, MonthlyGrowth(annualReturnBps)).Projected(months)
    ensures contributions == Course(schedule, current, contribution, MonthlyGrowth(annualReturnBps)).Contributed(months)
  {
    var course := Course(schedule, current, contribution, MonthlyGrowth(annualReturnBps));
    var value := FromInt(current);
    contributions := 0;
    var factor := GrowthFactor(annualReturnBps);
    for month := 1 to months + 1
      invariant value.Value() == course.Value(month - 1)
      invariant contributions == course.Contributed(month - 1)
    {
      value := NextMonth(value, factor, course, month);
      if schedule(month) {
        contributions := contributions + contribution;
      }
    }
    projected := RoundedRatBigInt(value);
  }

  // ---- requiredMonthlyContribution --------------------------------------------------------------------------------

  /**
   The outcome of the search over the contribution of a course: no smaller contribution
   reaches the target, and the one found reaches it unless even the search's upper bound,
   the whole gap, does not.
   */
  ghost predicate RequiredPace(course: Course, target: int, months: nat) {
    && 0 <= course.contribution <= target - course.current
    && (forall less | 0 <= less < course.contribution :: course.(contribution := less).Projected(months) < target)
    && (course.Projected(months) >= target
        <==> course.(contribution := target - course.current).Projected(months) >= target)
  }

  method RequiredMonthlyContribution(current: int, target: int, annualReturnBps: int, start: Day, targetDate: Day)
    returns (low: int)
    requires annualReturnBps >= 0
    ensures MonthsBetween(start, targetDate) == 0 || current >= target ==> low == 0
    ensures MonthsBetween(start, targetDate) > 0 && current < target ==>
              RequiredPace(Course(EveryMonth(start).Active, current, low, MonthlyGrowth(annualReturnBps)),
                           target, MonthsBetween(start, targetDate))
  {
    var months := MonthsBetween(start, targetDate);
    if months <= 0 || current >= target {
      return 0;
    }
    low := 0;
    var high := target - current;
    var schedule := EveryMonth(start).Active;
    ghost var course := Course(schedule, current, 0, MonthlyGrowth(annualReturnBps));
    MonthlyGrowthExpands(annualReturnBps);
    while low < high
      invariant 0 <= low <= high <= target - current
      invariant forall less | 0 <= less < low :: course.(contribution := less).Projected(months) < target
      invariant high < target - current ==> course.(contribution := high).Projected(months) >= target
    {
      var mid := Quo(low + high, 2);
      var projected, _ := ProjectGoalValue(current, mid, annualReturnBps, months, schedule);
      if projected >= target {
        high := mid;
      } else {
        forall less | 0 <= less <= mid ensures course.(contribution := less).Projected(months) < target {
          MonotoneInPayments(course.(contribution := less), course.(contribution := mid), months);
        }
        low := mid + 1;
      }
    }
    MonotoneInPayments(course.(contribution := low), course.(contribution := target - current), months);
  }

  /** From a non-negative balance the search finds the least contribution that reaches the target. */
  lemma RequiredPaceReaches(course: Course, target: int, months: nat)
    requires Increasing(course.growth) && Expanding(course.growth)
    requires 0 <= course.current < target && months >= 1 && course.schedule(1)
    requires RequiredPace(course, target, months)
    ensures forall other | other >= 0 ::
              course.(contribution := other).Projected(months) >= target <==> other >= course.contribution
  {
    GapSuffices(course.(contribution := target - course.current), target, months);
    forall other | other >= course.contribution
      ensures course.(contribution := other).Projected(months) >= target
    {
      MonotoneInPayments(course, course.(contribution := other), months);
    }
  }

  /**
   The source accepts returns up to 100%.  Within them the pace found reaches the target
   unless there is a single month and its return on the debt is more than half a unit.
   */
  predicate PaceSuffices(current: int, bps: int, months: nat) {
    current >= 0 || months >= 2 || -current * bps <= 60000
  }

  /** From any balance the search finds the least contribution that reaches the target, or misses it, exactly so. */
  lemma RequiredPaceReachesExactlyWhen(course: Course, target: int, bps: int, months: nat)
    requires course.growth == MonthlyGrowth(bps) && 0 <= bps <= 10000
    requires course.current < target && target > 0 && months >= 1
    requires forall month: nat | 1 <= month <= months :: course.schedule(month)
    requires RequiredPace(course, target, months)
    ensures course.Projected(months) >= target <==> PaceSuffices(course.current, bps, months)
    ensures PaceSuffices(course.current, bps, months) ==>
              forall other | other >= 0 ::
                course.(contribution := other).Projected(months) >= target <==> other >= course.contribution
  {
    MonthlyGrowthExpands(bps);
    var gap := course.(contribution := target - course.current);
    if course.current >= 0 {
      GapSuffices(gap, target, months);
    } else if months >= 2 {
      GapSufficesInTwoMonths(gap, target, bps, months);
    } else {
      GapInOneMonth(gap, target, bps);
    }
    if course.Projected(months) >= target {
      forall other | other >= course.contribution ensures course.(contribution := other).Projected(months) >= target {
        MonotoneInPayments(course, course.(contribution := other), months);
      }
    }
  }

  /** The whole gap paid into a debt: one month's return on the debt is missing. */
  lemma GapInOneMonth(gap: Course, target: int, bps: int)
    requires gap.growth == MonthlyGrowth(bps) && bps >= 0 && gap.schedule(1)
    requires gap.current < 0 < target && gap.contribution == target - gap.current
    ensures gap.Value(1) == target as real - (-gap.current * bps) as real / 120000.0
    ensures gap.Projected(1) >= target <==> -gap.current * bps <= 60000
  {
    var current := gap.current as real;
    assert gap.Value(1) == gap.growth(gap.Value(0)) + gap.Paid(1) as real;
    assert current * (1.0 + bps as real / 120000.0) == current + current * (bps as real) / 120000.0;
    assert (-gap.current * bps) as real == -(current * (bps as real));
  }

  /** A second payment covers it. */
  lemma GapSufficesInTwoMonths(gap: Course, target: int, bps: int, months: nat)
    requires gap.growth == MonthlyGrowth(bps) && 0 <= bps <= 10000 && months >= 2 && gap.schedule(1) && gap.schedule(2)
    requires gap.current < 0 < target && gap.contribution == target - gap.current
    ensures gap.Projected(months) >= target
  {
    hide MonthlyGrowth, Increasing, Expanding, Round, Course.Value;
    GapInOneMonth(gap, target, bps);
    MonthlyGrowthExpands(bps);
    GapGrows(gap, bps);
    SecondPayment(target as real, -gap.current as real, bps as real / 120000.0);
    DebtReturn(gap.current, bps);
    RoundReaches(gap.Value(2), target);
    ReachedStaysReached(gap, target, 2, months);
  }

  lemma GapGrows(gap: Course, bps: int)
    requires gap.growth == MonthlyGrowth(bps) && gap.schedule(2)
    ensures gap.Value(2) == gap.Value(1) * (1.0 + bps as real / 120000.0) + gap.contribution as real
  {
    assert gap.Value(2) == gap.growth(gap.Value(1)) + gap.Paid(2) as real;
  }

  lemma DebtReturn(current: int, bps: int)
    ensures (-current * bps) as real / 120000.0 == -current as real * (bps as real / 120000.0)
  {
    assert (-current * bps) as real == -current as real * (bps as real);
  }

  lemma SecondPayment(target: real, debt: real, rate: real)
    requires target > 0.0 && debt > 0.0 && 0.0 <= rate <= 0.1
    ensures (target - debt * rate) * (1.0 + rate) + (target + debt) >= target
  {
    MulMonotone(0.0, rate, target);
    MulMonotone(rate, 0.1, debt);
    MulMonotone(debt * rate, debt * 0.1, 1.0 + rate);
    MulMonotone(1.0 + rate, 1.1, debt * 0.1);
    assert (target - debt * rate) * (1.0 + rate) == target + target * rate - debt * rate * (1.0 + rate);
  }

  /** An overdrawn balance that compounds against its owner can need more than the search's upper bound. */
  lemma RequiredPaceMissesWhenOverdrawn(schedule: Schedule)
    requires schedule(1)
    ensures
      var course := Course(schedule, -1000, 1100, MonthlyGrowth(1200));
      && RequiredPace(course, 100, 1)
      && course.Projected(1) < 100 <= course.(contribution := 1110).Projected(1)
  {
    var course := Course(schedule, -1000, 1100, MonthlyGrowth(1200));
    forall c: int ensures course.(contribution := c).Projected(1) == c - 1010 {
      assert course.(contribution := c).Value(0) == -1000.0;
      RoundReaches(course.(contribution := c).Value(1), c - 1010);
    }
    assert course == course.(contribution := 1100);
  }

  /** A plan that reaches the target, whatever its window, contributes at least the required pace. */
  lemma RequiredPaceIsLeastOverPlans(plan: Course, pace: Course, target: int, months: nat)
    requires plan == pace.(schedule := plan.schedule, contribution := plan.contribution)
    requires Increasing(pace.growth) && plan.contribution >= 0
    requires forall month: nat | month >= 1 :: pace.schedule(month)
    requires RequiredPace(pace, target, months)
    requires plan.Projected(months) >= target
    ensures plan.contribution >= pace.contribution
  {
    MonotoneInPayments(plan, pace.(contribution := plan.contribution), months);
  }

  // ---- goalScenarioCompletion -------------------------------------------------------------------------------------

  /** One turn of the completion loop: the next value, and whether its rounding reaches the target. */
  method GrowToMonth(value: Rat, factor: Rat, course: Course, month: nat, target: int) returns (next: Rat, enough: bool)
    requires course.growth == Scaling(factor.Value()) && month >= 1 && value.Value() == course.Value(month - 1)
    ensures next.Value() == course.Value(month) && enough == Aim(course, target).ReachedIn(month)
  {
    next := NextMonth(value, factor, course, month);
    var rounded := RoundedRatBigInt(next);
    enough := rounded >= target;
  }

  method GoalScenarioCompletion(current: int, target: int, contribution: int, annualReturnBps: int, schedule: Schedule)
    returns (completion: Option<nat>)
    ensures
      var course := Course(schedule, current, contribution, MonthlyGrowth(annualReturnBps));
      completion == FirstMonth(Aim(course, target).ReachedIn, 0)
  {
    var course := Course(schedule, current, contribution, MonthlyGrowth(annualReturnBps));
    ghost var reached := Aim(course, target).ReachedIn;
    RoundReaches(current as real, current);
    if current >= target {
      FirstMonthIs(reached, 0);
      return Some(0);
    }
    var value := FromInt(current);
    var factor := GrowthFactor(annualReturnBps);
    var month := 1;
    while month <= COMPLETION_HORIZON
      invariant 1 <= month <= COMPLETION_HORIZON + 1
      invariant value.Value() == course.Value(month - 1)
      invariant forall m: nat | m < month :: !reached(m)
    {
      var enough;
      value, enough := GrowToMonth(value, factor, course, month, target);
      if enough {
        FirstMonthIs(reached, month);
        return Some(month);
      }
      month := month + 1;
    }
    NoMonthIsFirst(reached);
    completion := None;
  }

  // ---- calculateGoalScenario --------------------------------------------------------------------------------------

  datatype Scenario = Scenario(
    monthlyContribution: int, annualReturnBps: int, projectedAtTarget: int, newContributions: int,
    estimatedGrowth: int, estimatedCompletion: Option<Day>, reachesTarget: bool)

  function CourseOf(plan: Plan, current: int, contribution: int, bps: int): Course {
    Course(plan.Active, current, contribution, MonthlyGrowth(bps))
  }

  function DateOf(plan: Plan, month: Option<nat>): Option<Day> {
    if month.Some? then Some(AddMonths(plan.start, month.value)) else None
  }

  /** What the source calls a scenario, from the projection alone. */
  function ScenarioOf(plan: Plan, current: int, target: int, contribution: int, bps: int, targetDate: Day): Scenario {
    var months := MonthsBetween(plan.start, targetDate);
    var course := CourseOf(plan, current, contribution, bps);
    Scenario(contribution, bps, course.Projected(months), course.Contributed(months),
             course.Projected(months) - current - course.Contributed(months),
             DateOf(plan, FirstMonth(Aim(course, target).ReachedIn, 0)), course.Projected(months) >= target)
  }

  method CalculateGoalScenario(
    current: int, target: int, contribution: int, annualReturnBps: int, targetDate: Day, plan: Plan)
    returns (scenario: Scenario)
    ensures scenario == ScenarioOf(plan, current, target, contribution, annualReturnBps, targetDate)
  {
    var months := MonthsBetween(plan.start, targetDate);
    var projected, contributions := ProjectGoalValue(current, contribution, annualReturnBps, months, plan.Active);
    var growth := projected - current;
    growth := growth - contributions;
    var completion := GoalScenarioCompletion(current, target, contribution, annualReturnBps, plan.Active);
    scenario := Scenario(contribution, annualReturnBps, projected, contributions, growth,
                         DateOf(plan, completion), projected >= target);
  }

  /** The months of a horizon whose date is on or after a plan's first day and on or before its last. */
  function MonthsOfWindow(start: Day, planStart: Day, planEnd: Option<Day>, months: nat): set<nat> {
    set month: nat | 1 <= month <= months && planStart <= AddMonths(start, month)
                     && (planEnd == None || AddMonths(start, month) <= planEnd.value) :: month
  }

  lemma {:induction false} ContributedByDates(course: Course, plan: Plan, months: nat)
    requires course.schedule == plan.Active
    ensures course.Contributed(months)
         == course.contribution * |MonthsOfWindow(plan.start, plan.planStart, plan.planEnd, months)|
  {
    hide AddMonths;
    var window := MonthsOfWindow(plan.start, plan.planStart, plan.planEnd, months);
    if months == 0 {
      assert window == {};
    } else {
      ContributedByDates(course, plan, months - 1);
      var before := MonthsOfWindow(plan.start, plan.planStart, plan.planEnd, months - 1);
      assert window == if months in window then before + {months} else before;
      assert months !in before;
    }
  }

  /** A plan pays once for each month of the horizon that its window holds, both end days included. */
  lemma PlanPaysItsWindow(plan: Plan, current: int, target: int, contribution: int, bps: int, targetDate: Day)
    ensures
      var months := MonthsBetween(plan.start, targetDate);
      ScenarioOf(plan, current, target, contribution, bps, targetDate).newContributions
      == contribution * |MonthsOfWindow(plan.start, plan.planStart, plan.planEnd, months)|
  {
    ContributedByDates(CourseOf(plan, current, contribution, bps), plan, MonthsBetween(plan.start, targetDate));
  }

  /** A plan that has begun by the first month and has not ended by the last pays in each of them. */
  lemma {:induction false} PlanWithoutGaps(course: Course, plan: Plan, months: nat)
    requires course.schedule == plan.Active && plan.planStart <= AddMonths(plan.start, 1)
    requires plan.planEnd == None || AddMonths(plan.start, months) <= plan.planEnd.value
    ensures course.Contributed(months) == months * course.contribution
  {
    hide AddMonths;
    if months > 0 {
      AddMonthsStrict(plan.start, months - 1, months);
      PlanWithoutGaps(course, plan, months - 1);
      if months > 1 { AddMonthsStrict(plan.start, 1, months); }
      assert course.Paid(months) == course.contribution;
    }
  }

  /** After a plan has ended nothing is paid: the contributions stay, and a balance only has its return. */
  lemma {:induction false} PlanThatHasEnded(course: Course, plan: Plan, ended: nat, months: nat)
    requires course.schedule == plan.Active && 1 <= ended <= months + 1
    requires plan.planEnd != None && plan.planEnd.value < AddMonths(plan.start, ended)
    ensures course.Contributed(months) == course.Contributed(ended - 1)
    ensures months >= ended ==> course.Value(months) == course.growth(course.Value(months - 1))
  {
    hide AddMonths;
    if months >= ended {
      if months > ended { AddMonthsStrict(plan.start, ended, months); }
      PlanThatHasEnded(course, plan, ended, months - 1);
    }
  }

  /** Before a plan has begun nothing is paid either. */
  lemma {:induction false} PlanThatHasNotBegun(course: Course, plan: Plan, months: nat)
    requires course.schedule == plan.Active && AddMonths(plan.start, months) < plan.planStart
    ensures course.Contributed(months) == 0
    ensures months > 0 ==> course.Value(months) == course.growth(course.Value(months - 1))
  {
    hide AddMonths;
    if months > 0 {
      AddMonthsStrict(plan.start, months - 1, months);
      PlanThatHasNotBegun(course, plan, months - 1);
    }
  }

  lemma GrowthNeverNegative(plan: Plan, current: int, target: int, contribution: int, bps: int, targetDate: Day)
    requires bps >= 0 && current >= 0 && contribution >= 0
    ensures
      var s := ScenarioOf(plan, current, target, contribution, bps, targetDate);
      s.estimatedGrowth >= 0 && s.projectedAtTarget == current + s.newContributions + s.estimatedGrowth
  {
    MonthlyGrowthExpands(bps);
    ProjectedCovers(CourseOf(plan, current, contribution, bps), MonthsBetween(plan.start, targetDate));
  }

  lemma LowerReturnNeverProjectsMore(
    plan: Plan, current: int, target: int, contribution: int, lower: int, bps: int, targetDate: Day)
    requires 0 <= lower <= bps && current >= 0 && contribution >= 0
    ensures
      var low := ScenarioOf(plan, current, target, contribution, lower, targetDate);
      var saved := ScenarioOf(plan, current, target, contribution, bps, targetDate);
      low.projectedAtTarget <= saved.projectedAtTarget && (low.reachesTarget ==> saved.reachesTarget)
  {
    MonthlyGrowthExpands(lower);
    MonthlyGrowthExpands(bps);
    ScalingDominates(1.0 + lower as real / 120000.0, 1.0 + bps as real / 120000.0);
    MonotoneInRate(CourseOf(plan, current, contribution, lower), CourseOf(plan, current, contribution, bps),
                   MonthsBetween(plan.start, targetDate));
  }

  /** The return of the lower-return scenario. */
  function LowerReturn(annualReturnBps: int): int {
    if annualReturnBps < 200 then 0 else annualReturnBps - 200
  }

  ghost predicate LowerProjectsNoMore(
    plan: Plan, current: int, target: int, contribution: int, bps: int, targetDate: Day)
  {
    ScenarioOf(plan, current, target, contribution, LowerReturn(bps), targetDate).projectedAtTarget
    <= ScenarioOf(plan, current, target, contribution, bps, targetDate).projectedAtTarget
  }

  /**
   On an overdrawn balance the order reverses: over a month, a debt of 12000 at 2% and
   at the lower return of none.
   */
  lemma LowerReturnProjectsMoreWhenOverdrawn(plan: Plan, target: int)
    requires DayIndex(plan.start) == 0
    ensures
      var targetDate := MonthStart(MonthOf(plan.start) + 1);
      && ScenarioOf(plan, -12000, target, 0, 200, targetDate).projectedAtTarget == -12020
      && ScenarioOf(plan, -12000, target, 0, LowerReturn(200), targetDate).projectedAtTarget == -12000
  {
    MonthsToStart(plan.start, 1);
    var low, high := CourseOf(plan, -12000, 0, 0), CourseOf(plan, -12000, 0, 200);
    assert low.Value(0) == high.Value(0) == -12000.0;
    RoundReaches(low.Value(1), -12000);
    RoundReaches(high.Value(1), -12020);
  }

  /** The lower return is two points less, or none: over a month, on a debt of 120000, a unit for each basis point. */
  lemma LowerReturnIsTwoPointsLess(plan: Plan, target: int, bps: int)
    requires DayIndex(plan.start) == 0 && bps >= 0
    ensures
      var targetDate := MonthStart(MonthOf(plan.start) + 1);
      && ScenarioOf(plan, -120000, target, 0, bps, targetDate).projectedAtTarget == -120000 - bps
      && ScenarioOf(plan, -120000, target, 0, LowerReturn(bps), targetDate).projectedAtTarget
         == -120000 - if bps <= 200 then 0 else bps - 200
  {
    hide MonthStart, MonthOf;
    MonthsToStart(plan.start, 1);
    MonthOfADebt(plan, bps);
    MonthOfADebt(plan, LowerReturn(bps));
  }

  lemma MonthOfADebt(plan: Plan, bps: int)
    ensures CourseOf(plan, -120000, 0, bps).Projected(1) == -120000 - bps
  {
    hide Round;
    var course := CourseOf(plan, -120000, 0, bps);
    assert course.Value(0) == -120000.0;
    assert -120000.0 * (1.0 + bps as real / 120000.0) == (-120000 - bps) as real;
    RoundReaches(course.Value(1), -120000 - bps);
  }

  /** Any debt falls behind at the higher return, without payments, within 5000 years. */
  lemma DebtFallsBehind(plan: Plan, current: int, target: int, bps: int, targetDate: Day)
    requires current < 0 && bps > 0 && MonthsBetween(plan.start, targetDate) >= 60000
    ensures !LowerProjectsNoMore(plan, current, target, 0, bps, targetDate)
  {
    hide MonthsBetween, AddMonths, Round, Scaling, Course.Value, FirstMonth, Plan.Active;
    var months := MonthsBetween(plan.start, targetDate);
    var low, high := 1.0 + LowerReturn(bps) as real / 120000.0, 1.0 + bps as real / 120000.0;
    var lower, higher := CourseOf(plan, current, 0, LowerReturn(bps)), CourseOf(plan, current, 0, bps);
    DebtsDiverge(lower, higher, low, high, months);
    if bps < 200 {
      DebtWithoutReturn(lower, months);
      HalfAUnitApart(bps, months);
      RoundHalfApart(higher.Value(months), current);
      RoundReaches(lower.Value(months), current);
    } else {
      TwoUnitsApart(months);
      RoundApart(higher.Value(months), lower.Value(months));
    }
  }

  lemma {:induction false} DebtWithoutReturn(course: Course, months: nat)
    requires course.growth == Scaling(1.0) && course.contribution == 0
    ensures course.Value(months) == course.current as real
  {
    if months > 0 { DebtWithoutReturn(course, months - 1); }
  }

  lemma HalfAUnitApart(bps: int, months: nat)
    requires bps > 0 && months >= 60000
    ensures months as real * (bps as real / 120000.0) >= 0.5
  {
    MulMonotone(60000.0, months as real, bps as real / 120000.0);
  }

  lemma TwoUnitsApart(months: nat)
    requires months >= 60000
    ensures months as real * (200.0 / 120000.0) >= 2.0
  {
    MulMonotone(60000.0, months as real, 200.0 / 120000.0);
  }

  lemma RoundHalfApart(x: real, n: int)
    requires x <= n as real - 0.5 && n < 0
    ensures Round(x) < n
  {
  }

  lemma RoundApart(x: real, y: real)
    requires x <= y - 2.0
    ensures Round(x) < Round(y)
  {
  }

  /** Dates are written with four digits for the year. */
  predicate FourDigitYear(day: Day) {
    MonthOf(day) < 12 * 10000
  }

  /**
   The lower return never projects more, whatever the contribution and the target date,
   exactly when the balance is not negative or there is no return to lower; and dates of
   four-digit years show it for every plan that starts before the year 4999.
   */
  lemma LowerReturnNeverProjectsMoreExactlyWhen(plan: Plan, current: int, target: int, bps: int)
    requires bps >= 0
    ensures
      (forall contribution: nat, targetDate: Day ::
         LowerProjectsNoMore(plan, current, target, contribution, bps, targetDate))
      <==> current >= 0 || bps == 0
    ensures MonthOf(plan.start) < 12 * 4999 ==>
      ((forall contribution: nat, targetDate: Day | FourDigitYear(targetDate) ::
          LowerProjectsNoMore(plan, current, target, contribution, bps, targetDate))
       <==> current >= 0 || bps == 0)
  {
    hide LowerProjectsNoMore, MonthStart, MonthOf, MonthsBetween;
    if current >= 0 {
      forall contribution: nat, targetDate: Day
        ensures LowerProjectsNoMore(plan, current, target, contribution, bps, targetDate)
      {
        LowerProjectsNoMoreFromAssets(plan, current, target, contribution, bps, targetDate);
      }
    } else if bps > 0 {
      var far := MonthOf(plan.start) + 60001;
      MonthsToStart(plan.start, 60001);
      DebtFallsBehind(plan, current, target, bps, MonthStart(far));
      StartsInMonth(far);
    } else {
      forall contribution: nat, targetDate: Day
        ensures LowerProjectsNoMore(plan, current, target, contribution, bps, targetDate)
      {
        NoReturnToLower(plan, current, target, contribution, targetDate);
      }
    }
  }

  lemma StartsInMonth(month: nat)
    ensures MonthOf(MonthStart(month)) == month
  {
    hide MonthStart, MonthOf;
    DayOfMonth(month, 0);
  }

  lemma LowerProjectsNoMoreFromAssets(
    plan: Plan, current: int, target: int, contribution: int, bps: int, targetDate: Day)
    requires bps >= 0 && current >= 0 && contribution >= 0
    ensures LowerProjectsNoMore(plan, current, target, contribution, bps, targetDate)
  {
    LowerReturnNeverProjectsMore(plan, current, target, contribution, LowerReturn(bps), bps, targetDate);
  }

  lemma NoReturnToLower(plan: Plan, current: int, target: int, contribution: int, targetDate: Day)
    ensures LowerProjectsNoMore(plan, current, target, contribution, 0, targetDate)
  {
  }

  /** A scenario reaches its target exactly when its completion month is within the horizon. */
  lemma ReachesTargetExactlyWhenCompletedInTime(
    plan: Plan, current: int, target: int, contribution: int, bps: int, targetDate: Day)
    requires bps >= 0 && contribution >= 0 && target > 0
    requires MonthsBetween(plan.start, targetDate) <= COMPLETION_HORIZON
    ensures
      var found := FirstMonth(Aim(CourseOf(plan, current, contribution, bps), target).ReachedIn, 0);
      ScenarioOf(plan, current, target, contribution, bps, targetDate).reachesTarget
      <==> found.Some? && found.value <= MonthsBetween(plan.start, targetDate)
  {
    MonthlyGrowthExpands(bps);
    ReachedExactlyWhenCompletedInTime(
      Aim(CourseOf(plan, current, contribution, bps), target), MonthsBetween(plan.start, targetDate));
  }

  /** Reading the completion as a date: it is on or before the target date exactly when the target is reached. */
  ghost predicate DatesAgree(plan: Plan, current: int, target: int, contribution: int, bps: int, targetDate: Day) {
    var s := ScenarioOf(plan, current, target, contribution, bps, targetDate);
    s.reachesTarget <==> s.estimatedCompletion.Some? && s.estimatedCompletion.value <= targetDate
  }

  /** The date of the last whole month has run past the target date. */
  predicate HorizonOverflows(plan: Plan, targetDate: Day) {
    AddMonths(plan.start, MonthsBetween(plan.start, targetDate)) > targetDate
  }

  /** The last whole month changes no balance: it has no payment, and there is no return. */
  predicate HorizonIdle(plan: Plan, bps: int, targetDate: Day) {
    MonthsBetween(plan.start, targetDate) > 0 && !plan.Active(MonthsBetween(plan.start, targetDate)) && bps == 0
  }

  lemma CompletionDateAgrees(plan: Plan, current: int, target: int, contribution: int, bps: int, targetDate: Day)
    requires bps >= 0 && contribution >= 0 && target > 0
    requires MonthsBetween(plan.start, targetDate) <= COMPLETION_HORIZON
    requires !HorizonOverflows(plan, targetDate) || HorizonIdle(plan, bps, targetDate)
    ensures DatesAgree(plan, current, target, contribution, bps, targetDate)
  {
    hide AddMonths, MonthsBetween, MonthlyGrowth, Plan.Active, Round, FirstMonth;
    ReachesTargetExactlyWhenCompletedInTime(plan, current, target, contribution, bps, targetDate);
    var course := CourseOf(plan, current, contribution, bps);
    var found := FirstMonth(Aim(course, target).ReachedIn, 0);
    if found.Some? {
      if !HorizonOverflows(plan, targetDate) {
        DateWithinEnd(plan.start, targetDate, found.value);
      } else {
        IdleMonthCompletesNothing(course, target, MonthsBetween(plan.start, targetDate));
        DateBeforeEnd(plan.start, targetDate, found.value);
      }
    }
  }

  lemma DateWithinEnd(start: Day, end: Day, month: nat)
    requires AddMonths(start, MonthsBetween(start, end)) <= end
    ensures AddMonths(start, month) <= end <==> month <= MonthsBetween(start, end)
  {
    var months := MonthsBetween(start, end);
    HorizonIsPast(start, end);
    if month < months {
      AddMonthsStrict(start, month, months);
    } else if month > months + 1 {
      AddMonthsStrict(start, months + 1, month);
    }
  }

  /** An overflowing horizon is past the end, and every month before it within. */
  lemma DateBeforeEnd(start: Day, end: Day, month: nat)
    requires AddMonths(start, MonthsBetween(start, end)) > end
    ensures AddMonths(start, month) <= end <==> month < MonthsBetween(start, end)
  {
    var months := MonthsBetween(start, end);
    if month > months {
      AddMonthsStrict(start, months, month);
    } else if month < months {
      MonthBeforeIsWithinEnd(start, end);
      if month < months - 1 { AddMonthsStrict(start, month, months - 1); }
    }
  }

  lemma IdleMonthCompletesNothing(course: Course, target: int, months: nat)
    requires course.growth == MonthlyGrowth(0) && months > 0 && !course.schedule(months)
    ensures FirstMonth(Aim(course, target).ReachedIn, 0) != Some(months)
  {
    FirstMonthIsLeast(Aim(course, target).ReachedIn, 0);
    assert course.Value(months) == course.Value(months - 1);
    assert Aim(course, target).ReachedIn(months) == Aim(course, target).ReachedIn(months - 1);
  }

  lemma ProjectionGrows(course: Course, early: nat, late: nat)
    requires Expanding(course.growth) && course.current >= 0 && course.contribution >= 0 && early <= late
    ensures course.Projected(early) <= course.Projected(late)
  {
    ValueCovers(course, early);
    ValueGrows(course, early, late);
    RoundMonotone(course.Value(early), course.Value(late));
  }

  /**
   When the horizon overflows and is not idle, some amounts reach the target with a
   completion date after the target date.
   */
  lemma CompletionDateDisagrees(plan: Plan, bps: int, targetDate: Day)
    returns (current: int, target: int, contribution: int)
    requires bps >= 0 && MonthsBetween(plan.start, targetDate) <= COMPLETION_HORIZON
    requires HorizonOverflows(plan, targetDate) && !HorizonIdle(plan, bps, targetDate)
    ensures target > 0 && contribution >= 0 && current >= 0
    ensures
      var s := ScenarioOf(plan, current, target, contribution, bps, targetDate);
      s.reachesTarget && s.estimatedCompletion.Some? && s.estimatedCompletion.value > targetDate
  {
    var months := MonthsBetween(plan.start, targetDate);
    current, contribution := 240000, 2;
    MonthlyGrowthExpands(bps);
    var course := CourseOf(plan, current, contribution, bps);
    target := course.Projected(months);
    ProjectedCovers(course, months);
    LastMonthRises(course, bps, months);
    forall m: nat | m < months ensures !Aim(course, target).ReachedIn(m) {
      ProjectionGrows(course, m, months - 1);
    }
    FirstMonthIs(Aim(course, target).ReachedIn, months);
  }

  /** A balance of 240000 grows by at least two units in a month with a payment of two or any return. */
  lemma LastMonthRises(course: Course, bps: int, months: nat)
    requires course.growth == MonthlyGrowth(bps) && bps >= 0 && course.current == 240000 && course.contribution == 2
    requires months > 0 ==> course.schedule(months) || bps > 0
    ensures months > 0 ==> course.Projected(months - 1) < course.Projected(months)
  {
    hide Round, MonthlyGrowth;
    if months > 0 {
      MonthlyGrowthExpands(bps);
      ValueCovers(course, months - 1);
      var x := course.Value(months - 1);
      assert course.growth(x) >= x;
      if bps > 0 { ReturnOnPlenty(x, bps); }
      assert course.Value(months) >= x + 2.0;
      RoundApart(x, course.Value(months));
    }
  }

  lemma ReturnOnPlenty(x: real, bps: int)
    requires x >= 240000.0 && bps > 0
    ensures MonthlyGrowth(bps)(x) >= x + 2.0
  {
    MulMonotone(240000.0, x, bps as real / 120000.0);
    assert x * (1.0 + bps as real / 120000.0) == x + x * (bps as real / 120000.0);
  }

  /** Nothing changes a balance after the months that are searched: no payment, and no return. */
  ghost predicate PastSearchIdle(plan: Plan, bps: int, targetDate: Day) {
    bps == 0 && forall month: nat | COMPLETION_HORIZON < month <= MonthsBetween(plan.start, targetDate) ::
      !plan.Active(month)
  }

  lemma {:induction false} IdleKeepsValue(course: Course, early: nat, late: nat)
    requires course.growth == MonthlyGrowth(0) && early <= late
    requires forall month: nat | early < month <= late :: !course.schedule(month)
    ensures course.Value(late) == course.Value(early)
    decreases late - early
  {
    if early < late { IdleKeepsValue(course, early, late - 1); }
  }

  lemma FarDatesAgree(plan: Plan, current: int, target: int, contribution: int, targetDate: Day)
    requires contribution >= 0 && target > 0
    requires MonthsBetween(plan.start, targetDate) > COMPLETION_HORIZON && PastSearchIdle(plan, 0, targetDate)
    ensures DatesAgree(plan, current, target, contribution, 0, targetDate)
  {
    hide AddMonths, MonthsBetween, MonthlyGrowth, Plan.Active, Round, FirstMonth, Course.Value;
    var months := MonthsBetween(plan.start, targetDate);
    var course := CourseOf(plan, current, contribution, 0);
    var found := FirstMonth(Aim(course, target).ReachedIn, 0);
    IdleKeepsValue(course, COMPLETION_HORIZON, months);
    MonthlyGrowthExpands(0);
    ReachedExactlyWhenCompletedInTime(Aim(course, target), COMPLETION_HORIZON);
    if found.Some? {
      FirstMonthIsLeast(Aim(course, target).ReachedIn, 0);
      EarlierMonthIsWithinEnd(plan.start, targetDate, found.value);
    }
  }

  lemma EarlierMonthIsWithinEnd(start: Day, end: Day, month: nat)
    requires month < MonthsBetween(start, end)
    ensures AddMonths(start, month) <= end
  {
    hide AddMonths, MonthsBetween;
    if AddMonths(start, MonthsBetween(start, end)) <= end {
      DateWithinEnd(start, end, month);
    } else {
      DateBeforeEnd(start, end, month);
    }
  }

  /** Beyond the months that are searched a change that reaches the target leaves no completion date. */
  lemma FarDatesDisagree(plan: Plan, bps: int, targetDate: Day) returns (current: int, target: int, contribution: int)
    requires bps >= 0 && MonthsBetween(plan.start, targetDate) > COMPLETION_HORIZON
             && !PastSearchIdle(plan, bps, targetDate)
    ensures target > 0 && contribution >= 0 && current >= 0
    ensures
      var s := ScenarioOf(plan, current, target, contribution, bps, targetDate);
      s.reachesTarget && s.estimatedCompletion.None?
  {
    hide AddMonths, MonthsBetween, MonthlyGrowth, Plan.Active, FirstMonth;
    var months := MonthsBetween(plan.start, targetDate);
    current, contribution := 240000, 2;
    MonthlyGrowthExpands(bps);
    var course := CourseOf(plan, current, contribution, bps);
    target := course.Projected(months);
    ProjectedCovers(course, months);
    var month := months;
    if bps == 0 { month :| COMPLETION_HORIZON < month <= months && plan.Active(month); }
    LastMonthRises(course, bps, month);
    ProjectionGrows(course, month, months);
    forall m: nat | m <= COMPLETION_HORIZON ensures !Aim(course, target).ReachedIn(m) {
      ProjectionGrows(course, m, month - 1);
    }
    NoMonthIsFirst(Aim(course, target).ReachedIn);
  }

  /** When reading completions as dates is right for all amounts. */
  ghost predicate DatesCanBeRead(plan: Plan, bps: int, targetDate: Day) {
    if MonthsBetween(plan.start, targetDate) > COMPLETION_HORIZON then PastSearchIdle(plan, bps, targetDate)
    else !HorizonOverflows(plan, targetDate) || HorizonIdle(plan, bps, targetDate)
  }

  /**
   Verdict and completion date agree for all amounts exactly when the horizon's date has
   not run past the target date, or its month is idle; and, for a horizon beyond the
   months that are searched, when all months after those are.
   */
  lemma CompletionDatesAgreeExactlyWhen(plan: Plan, bps: int, targetDate: Day)
    requires bps >= 0
    ensures
      (forall current: int, target: int, contribution: nat | target > 0 ::
         DatesAgree(plan, current, target, contribution, bps, targetDate))
      <==> DatesCanBeRead(plan, bps, targetDate)
  {
    hide HorizonOverflows, HorizonIdle, PastSearchIdle, MonthsBetween, AddMonths, FirstMonth, Plan.Active,
      MonthlyGrowth;
    var far := MonthsBetween(plan.start, targetDate) > COMPLETION_HORIZON;
    if DatesCanBeRead(plan, bps, targetDate) {
      forall current: int, target: int, contribution: nat | target > 0
        ensures DatesAgree(plan, current, target, contribution, bps, targetDate)
      {
        if far {
          PastSearchHasNoReturn(plan, bps, targetDate);
          FarDatesAgree(plan, current, target, contribution, targetDate);
        } else {
          CompletionDateAgrees(plan, current, target, contribution, bps, targetDate);
        }
      }
    } else {
      var current, target, contribution;
      if far {
        current, target, contribution := FarDatesDisagree(plan, bps, targetDate);
      } else {
        current, target, contribution := CompletionDateDisagrees(plan, bps, targetDate);
      }
      assert !DatesAgree(plan, current, target, contribution, bps, targetDate);
    }
  }

  lemma PastSearchHasNoReturn(plan: Plan, bps: int, targetDate: Day)
    requires PastSearchIdle(plan, bps, targetDate)
    ensures bps == 0
  {
  }

  /** Every year has such dates: from 31 January to 1 March is one month, whose date is 2 or 3 March. */
  lemma HorizonDateOverflows(year: nat)
    ensures
      var january, march := MonthStart(12 * year) + 30, MonthStart(12 * year + 2);
      && MonthsBetween(january, march) == 1
      && AddMonths(january, 1) == march + if Leap(year) then 1 else 2
  {
    hide MonthStart, MonthOf, DayIndex, Leap;
    DayOfMonth(12 * year, 30);
    DayOfMonth(12 * year + 2, 0);
    MonthStartStep(12 * year + 1);
  }

  // ---- goalScenariosWithAssumptions -------------------------------------------------------------------------------

  datatype Scenarios = Scenarios(savedPlan: Scenario, requiredPace: Scenario, lowerReturn: Scenario)

  method GoalScenariosWithAssumptions(
    current: int, target: int, contribution: int, annualReturnBps: int, targetDate: Day, plan: Plan)
    returns (scenarios: Scenarios)
    requires annualReturnBps >= 0 && contribution >= 0 && target > 0
    ensures scenarios.savedPlan == ScenarioOf(plan, current, target, contribution, annualReturnBps, targetDate)
    ensures scenarios.requiredPace
         == ScenarioOf(EveryMonth(plan.start), current, target, scenarios.requiredPace.monthlyContribution,
                       annualReturnBps, targetDate)
    ensures scenarios.lowerReturn
         == ScenarioOf(plan, current, target, contribution, LowerReturn(annualReturnBps), targetDate)
    ensures current >= 0 ==> scenarios.lowerReturn.projectedAtTarget <= scenarios.savedPlan.projectedAtTarget
    ensures current >= 0 && MonthsBetween(plan.start, targetDate) > 0 ==> scenarios.requiredPace.reachesTarget
    ensures annualReturnBps <= 10000 && MonthsBetween(plan.start, targetDate) > 0 ==>
              (scenarios.requiredPace.reachesTarget
               <==> PaceSuffices(current, annualReturnBps, MonthsBetween(plan.start, targetDate)))
    ensures MonthsBetween(plan.start, targetDate) > 0 && scenarios.savedPlan.reachesTarget ==>
              scenarios.requiredPace.monthlyContribution <= contribution
  {
    var lowerReturnBps := annualReturnBps - 200;
    if lowerReturnBps < 0 {
      lowerReturnBps := 0;
    }
    var required := RequiredMonthlyContribution(current, target, annualReturnBps, plan.start, targetDate);
    var saved := CalculateGoalScenario(current, target, contribution, annualReturnBps, targetDate, plan);
    var pace := CalculateGoalScenario(current, target, required, annualReturnBps, targetDate, EveryMonth(plan.start));
    var lower := CalculateGoalScenario(current, target, contribution, lowerReturnBps, targetDate, plan);
    scenarios := Scenarios(saved, pace, lower);
    if current >= 0 {
      LowerReturnNeverProjectsMore(plan, current, target, contribution, lowerReturnBps, annualReturnBps, targetDate);
    }
    PaceOutcome(plan, current, target, contribution, annualReturnBps, MonthsBetween(plan.start, targetDate), required);
  }

  lemma PaceOutcome(plan: Plan, current: int, target: int, contribution: int, bps: int, months: nat, required: int)
    requires bps >= 0 && contribution >= 0 && target > 0
    requires months == 0 || current >= target ==> required == 0
    requires months > 0 && current < target ==>
               RequiredPace(CourseOf(EveryMonth(plan.start), current, required, bps), target, months)
    ensures months > 0 && current >= 0 ==>
              CourseOf(EveryMonth(plan.start), current, required, bps).Projected(months) >= target
    ensures months > 0 && bps <= 10000 ==>
              (CourseOf(EveryMonth(plan.start), current, required, bps).Projected(months) >= target
               <==> PaceSuffices(current, bps, months))
    ensures months > 0 && CourseOf(plan, current, contribution, bps).Projected(months) >= target ==>
              required <= contribution
  {
    var pace, saved := CourseOf(EveryMonth(plan.start), current, required, bps),
      CourseOf(plan, current, contribution, bps);
    EveryMonthActive(plan.start);
    MonthlyGrowthExpands(bps);
    if months == 0 {
    } else if current >= target {
      RoundReaches(current as real, current);
      ReachedStaysReached(pace, target, 0, months);
    } else {
      if current >= 0 {
        RequiredPaceReaches(pace, target, months);
        assert pace == pace.(contribution := required);
      } else if bps <= 10000 {
        RequiredPaceReachesExactlyWhen(pace, target, bps, months);
      }
      if saved.Projected(months) >= target {
        RequiredPaceIsLeastOverPlans(saved, pace, target, months);
      }
    }
  }

  // ---- goalProjection ---------------------------------------------------------------------------------------------

  datatype ProjectionPoint = ProjectionPoint(date: Day, projected: int, contributions: int, target: int)

  /** The projected amount of a chart point: the range error of an amount outside int64 is dropped, leaving zero. */
  function Shown(projected: int): int {
    if IsInt64(projected) then projected else 0
  }

  function PointOf(plan: Plan, current: int, target: int, contribution: int, bps: int, months: nat): ProjectionPoint {
    var course := CourseOf(plan, current, contribution, bps);
    ProjectionPoint(AddMonths(plan.start, months), Shown(course.Projected(months)),
                    current + course.Contributed(months), target)
  }

  method GoalProjectionPoint(current: int, contribution: int, annualReturnBps: int, months: nat, schedule: Schedule)
    returns (projected: int, contributions: int)
    ensures
      var course := Course(schedule, current, contribution, MonthlyGrowth(annualReturnBps));
      && projected == Shown(course.Projected(months)) && contributions == current + course.Contributed(months)
      && (projected == course.Projected(months) || (projected == 0 && !IsInt64(course.Projected(months))))
  {
    var course := Course(schedule, current, contribution, MonthlyGrowth(annualReturnBps));
    var value := FromInt(current);
    contributions := current;
    var factor := GrowthFactor(annualReturnBps);
    for month := 1 to months + 1
      invariant value.Value() == course.Value(month - 1)
      invariant contributions == current + course.Contributed(month - 1)
    {
      value := NextMonth(value, factor, course, month);
      if schedule(month) {
        contributions := contributions + contribution;
      }
    }
    var rounded := RoundedRatInt64(value);
    projected := if rounded.Ok? then rounded.value else 0;
  }

  /** The months visited from `month` in strides, up to the horizon. */
  function Strides(month: nat, months: nat, step: nat): seq<nat>
    requires step >= 1
    decreases months - month
  {
    if month > months then [] else [month] + Strides(month + step, months, step)
  }

  /** The sampled months: the strides from now, and the horizon when they miss it. */
  function Samples(months: nat, step: nat): seq<nat>
    requires step >= 1
  {
    var regular := Strides(0, months, step);
    if regular[|regular| - 1] == months then regular else regular + [months]
  }

  lemma {:induction false} StridesAscend(month: nat, months: nat, step: nat)
    requires step >= 1
    ensures
      var strides := Strides(month, months, step);
      && (month <= months ==> |strides| > 0 && strides[0] == month)
      && (forall i | 0 <= i < |strides| :: month <= strides[i] <= months)
      && (forall i, j | 0 <= i < j < |strides| :: strides[i] < strides[j])
    decreases months - month
  {
    if month <= months {
      StridesAscend(month + step, months, step);
      var rest := Strides(month + step, months, step);
      var strides := Strides(month, months, step);
      forall i | 0 < i < |strides| ensures strides[i] == rest[i - 1] {}
    }
  }

  lemma {:induction false} StridesCount(month: nat, months: nat, step: nat, bound: nat)
    requires step >= 1 && months < month + bound * step
    ensures |Strides(month, months, step)| <= bound
    decreases bound
  {
    assert bound == 0 ==> bound * step == 0;
    if month <= months {
      assert bound * step == (bound - 1) * step + step;
      StridesCount(month + step, months, step, bound - 1);
    }
  }

  /** The least stride in which 24 reach the horizon. */
  function Step(months: nat): (step: nat)
    ensures step >= 1 && months <= 24 * step
    ensures step == 1 || 24 * (step - 1) < months
  {
    var step := (months + 23) / 24;
    if step < 1 then 1 else step
  }

  /** The chart has at most 26 points, in strictly increasing time, from today to the horizon itself. */
  lemma SamplesSpanTheHorizon(months: nat, step: nat)
    requires step >= 1 && months <= 24 * step
    ensures
      var samples := Samples(months, step);
      && 1 <= |samples| <= 26
      && samples[0] == 0 && samples[|samples| - 1] == months
      && forall i, j | 0 <= i < j < |samples| :: samples[i] < samples[j]
  {
    hide Strides;
    StridesAscend(0, months, step);
    StridesCount(0, months, step, 25);
  }

  lemma {:induction false} StridesAreRegular(month: nat, months: nat, step: nat)
    requires step >= 1
    ensures
      var strides := Strides(month, months, step);
      && (forall i | 0 <= i < |strides| :: strides[i] == month + i * step)
      && (month <= months ==> strides != [] && months < strides[|strides| - 1] + step)
    decreases months - month
  {
    if month <= months {
      StridesAreRegular(month + step, months, step);
      var rest := Strides(month + step, months, step);
      forall i | 0 < i < |rest| + 1 ensures Strides(month, months, step)[i] == month + i * step {
        assert rest[i - 1] == month + step + (i - 1) * step == month + i * step;
      }
    }
  }

  /** Neighbouring points are a stride apart, and no more at the horizon. */
  lemma SamplesAreStridesApart(months: nat, step: nat)
    requires step >= 1
    ensures
      var samples := Samples(months, step);
      && (forall i | 0 <= i < |samples| - 2 :: samples[i + 1] == samples[i] + step)
      && (|samples| >= 2 ==> samples[|samples| - 1] <= samples[|samples| - 2] + step)
  {
    hide Strides;
    StridesAreRegular(0, months, step);
    var regular, samples := Strides(0, months, step), Samples(months, step);
    StridesAscend(0, months, step);
    forall i | 0 <= i < |samples| - 2 ensures samples[i + 1] == samples[i] + step {
      assert (i + 1) * step == i * step + step;
      assert samples[i] == regular[i] && samples[i + 1] == regular[i + 1];
    }
    if |samples| >= 2 && samples == regular {
      assert (|samples| - 1) * step == (|samples| - 2) * step + step;
    }
  }

  /** Different months from the same day are different dates. */
  lemma DateDeterminesMonth(start: Day, one: nat, other: nat)
    ensures AddMonths(start, one) == AddMonths(start, other) <==> one == other
  {
    if one < other { AddMonthsStrict(start, one, other); } else if other < one { AddMonthsStrict(start, other, one); }
  }

  ghost predicate PointsAt(
    points: seq<ProjectionPoint>, samples: seq<nat>, plan: Plan, current: int, target: int, contribution: int, bps: int)
  {
    |points| == |samples|
    && forall i | 0 <= i < |points| :: points[i] == PointOf(plan, current, target, contribution, bps, samples[i])
  }

  method PointIn(current: int, target: int, contribution: int, annualReturnBps: int, month: nat, plan: Plan)
    returns (point: ProjectionPoint)
    ensures point == PointOf(plan, current, target, contribution, annualReturnBps, month)
  {
    var projected, contributions := GoalProjectionPoint(current, contribution, annualReturnBps, month, plan.Active);
    point := ProjectionPoint(AddMonths(plan.start, month), projected, contributions, target);
  }

  method StridePoints(
    current: int, target: int, contribution: int, annualReturnBps: int, months: nat, step: nat, plan: Plan)
    returns (points: seq<ProjectionPoint>)
    requires step >= 1
    ensures PointsAt(points, Strides(0, months, step), plan, current, target, contribution, annualReturnBps)
  {
    hide PointOf;
    points := [];
    var month: int := 0;
    ghost var visited: seq<nat> := [];
    while month <= months
      invariant month >= 0
      invariant Strides(0, months, step) == visited + Strides(month, months, step)
      invariant PointsAt(points, visited, plan, current, target, contribution, annualReturnBps)
      decreases months - month
    {
      var point := PointIn(current, target, contribution, annualReturnBps, month, plan);
      points, visited := points + [point], visited + [month];
      month := month + step;
    }
    assert visited + [] == visited;
  }

  method GoalProjection(
    current: int, target: int, contribution: int, annualReturnBps: int, targetDate: Day, plan: Plan)
    returns (points: seq<ProjectionPoint>)
    ensures targetDate <= plan.start ==> points == []
    ensures targetDate > plan.start ==>
              var months := MonthsBetween(plan.start, targetDate);
              PointsAt(points, Samples(months, Step(months)), plan, current, target, contribution, annualReturnBps)
  {
    if targetDate <= plan.start {
      return [];
    }
    var months := MonthsBetween(plan.start, targetDate);
    var step := Step(months);
    points := StridePoints(current, target, contribution, annualReturnBps, months, step, plan);
    StridesAscend(0, months, step);
    ghost var regular := Strides(0, months, step);
    DateDeterminesMonth(plan.start, regular[|regular| - 1], months);
    assert points[|points| - 1].date == AddMonths(plan.start, regular[|regular| - 1]);
    if |points| == 0 || points[|points| - 1].date != AddMonths(plan.start, months) {
      var point := PointIn(current, target, contribution, annualReturnBps, months, plan);
      points := points + [point];
    }
  }

  /** The chart ends where the saved plan's scenario does, exactly when that projection is representable. */
  lemma ChartEndsAtScenario(plan: Plan, current: int, target: int, contribution: int, bps: int, targetDate: Day)
    ensures
      var months := MonthsBetween(plan.start, targetDate);
      var samples := Samples(months, Step(months));
      var last := PointOf(plan, current, target, contribution, bps, samples[|samples| - 1]);
      var saved := ScenarioOf(plan, current, target, contribution, bps, targetDate);
      && last.contributions == current + saved.newContributions
      && (last.projected == saved.projectedAtTarget <==> IsInt64(saved.projectedAtTarget))
  {
    var months := MonthsBetween(plan.start, targetDate);
    SamplesSpanTheHorizon(months, Step(months));
  }
}
