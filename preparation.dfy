/// Preparation-time distributor (server/src/utils/distributionCalculations.js,
/// lines 4-104): spreads one non-exam coursework item's preparation budget
/// over the weeks of a semester according to a study style.
module Preparation {
  import opened Common
  import opened Helpers
  import opened Workload

  /// `releasedWeekPrior` as the start week reads it: 'N/A' counts as 2 and
  /// an absent value as 0.
  function ReleasedWeeks(r: Released): int {
    match r
    case Weeks(n) => n
    case NotApplicable => 2
    case Absent => 0
  }

  /// The first week that receives preparation time: the release lead before
  /// the deadline, but never before week 1.
  function StartWeek(c: Coursework): (w: int)
    ensures w >= 1
    ensures w >= c.deadlineWeek - ReleasedWeeks(c.releasedWeekPrior)
    ensures w == 1 || w == c.deadlineWeek - ReleasedWeeks(c.releasedWeekPrior)
  {
    var w := c.deadlineWeek - ReleasedWeeks(c.releasedWeekPrior);
    if w < 1 then 1 else w
  }

  /// The hours each week gets under `earlyStarter`, before rounding.
  function EarlyStarterShare(c: Coursework): real {
    SafeDivide(c.preparationTime, (c.deadlineWeek - StartWeek(c) + 1) as real)
  }

  /// The weekly increase under `steady`, solved from the arithmetic-series
  /// identity with the release lead (not the clamped span) as the series
  /// length. With `releasedWeekPrior` absent the source divides by undefined;
  /// no week ever uses the increment then (see SteadyWithoutLeadIsOneWeek).
  function SteadyIncrement(c: Coursework): real {
    var k := ReleasedWeeks(c.releasedWeekPrior) as real;
    SafeDivide(2.0 * c.preparationTime - 2.0 * k - 2.0, k * k + k)
  }

  /// The steady value of week `w` before rounding: 1 in the start week, then
  /// one increment more each week.
  function SteadyUnrounded(c: Coursework, w: int): real {
    1.0 + (w - StartWeek(c)) as real * SteadyIncrement(c)
  }

  /// The hours week `w` receives under a known study style.
  function WeekShare(c: Coursework, style: string, w: int): real {
    var start := StartWeek(c);
    if style == "earlyStarter" then
      if start <= w <= c.deadlineWeek then RoundToNearestHalf(EarlyStarterShare(c)) else 0.0
    else if style == "steady" then
      if w == start then 1.0
      else if start < w <= c.deadlineWeek then RoundToNearestHalf(SteadyUnrounded(c, w))
      else 0.0
    else
      if w == c.deadlineWeek then RoundToNearestHalf(c.preparationTime) else 0.0
  }

  /// What `calculatePreparationDistributions` returns or throws.
  function PreparationHours(cw: Option<Coursework>, style: string, semester: string)
    : (r: Result<seq<WeekHours>, EngineError>)
    ensures cw.None? ==> r == Err(CourseworkUndefined)
    ensures cw.Some? && style !in StudyStyles ==> r == Err(UnknownStudyStyle(style))
    ensures cw.Some? && style == "earlyStarter" ==> r.Ok?
    ensures cw.Some? && style == "steady" ==>
      (r.Err? <==> StartWeek(cw.value) > TotalWeeks(semester))
    ensures cw.Some? && style == "justInTime" ==>
      (r.Err? <==> !(1 <= cw.value.deadlineWeek <= TotalWeeks(semester)))
    ensures r.Ok? ==> ConsecutiveWeeks(r.value, 1, TotalWeeks(semester))
  {
    if cw.None? then Err(CourseworkUndefined)
    else
      var c, n := cw.value, TotalWeeks(semester);
      if style == "steady" && StartWeek(c) > n then Err(InvalidStartWeek(StartWeek(c)))
      else if style == "justInTime" && !(0 < c.deadlineWeek <= n) then Err(InvalidDeadlineWeek(c.deadlineWeek))
      else if style in StudyStyles then
        Ok(seq(n, i => WeekHours(i + 1, WeekShare(c, style, i + 1))))
      else Err(UnknownStudyStyle(style))
  }

  /// Every week of a preparation distribution holds a whole number of half
  /// hours.
  lemma PreparationHalfHours(cw: Option<Coursework>, style: string, semester: string)
    ensures var r := PreparationHours(cw, style, semester);
      r.Ok? ==> HalfHours(r.value)
  {
    var r := PreparationHours(cw, style, semester);
    if r.Ok? {
      forall i | 0 <= i < |r.value| ensures IsHalfMultiple(r.value[i].hours) {
        var w := WeekShare(cw.value, style, i + 1);
        assert r.value[i].hours == w;
        assert IsHalfMultiple(0.0) && IsHalfMultiple(1.0);
      }
    }
  }

  /// The `distributeTime` closure: adds the rounded weekly share to every
  /// week of [startWeek, endWeek] that lies inside the array.
  method DistributeTime(workload: array<real>, startWeek: int, endWeek: int, timePerWeek: real)
    modifies workload
    ensures forall i :: 0 <= i < workload.Length ==>
      workload[i] == old(workload[i]) + if startWeek <= i + 1 <= endWeek then RoundToNearestHalf(timePerWeek) else 0.0
  {
    var week := startWeek;
    while week <= endWeek
      invariant startWeek <= week <= if startWeek <= endWeek then endWeek + 1 else startWeek
      invariant forall i :: 0 <= i < workload.Length ==>
        workload[i] == old(workload[i]) + if startWeek <= i + 1 < week then RoundToNearestHalf(timePerWeek) else 0.0
    {
      if 0 < week <= workload.Length {
        workload[week - 1] := workload[week - 1] + RoundToNearestHalf(timePerWeek);
      }
      week := week + 1;
    }
  }

  /// The `steady` branch: 1 hour in the start week, then a running total
  /// grown by the increment each week up to the deadline.
  method DistributeSteadily(workload: array<real>, c: Coursework)
    requires 1 <= StartWeek(c) <= workload.Length
    requires forall i :: 0 <= i < workload.Length ==> workload[i] == 0.0
    modifies workload
    ensures forall i :: 0 <= i < workload.Length ==>
      workload[i] == if i + 1 == StartWeek(c) then 1.0
                     else if StartWeek(c) < i + 1 <= c.deadlineWeek then RoundToNearestHalf(SteadyUnrounded(c, i + 1))
                     else 0.0
  {
    var n := workload.Length;
    var start := StartWeek(c);
    var increment := SteadyIncrement(c);
    var cumulative := 1.0;
    workload[start - 1] := workload[start - 1] + 1.0;
    var week := start + 1;
    while week <= c.deadlineWeek
      invariant start + 1 <= week <= if start < c.deadlineWeek then c.deadlineWeek + 1 else start + 1
      invariant week - 1 <= n ==> cumulative == 1.0 + (week - 1 - start) as real * increment
      invariant forall i :: 0 <= i < n ==>
        workload[i] == if i + 1 == start then 1.0
                       else if start < i + 1 < week then RoundToNearestHalf(SteadyUnrounded(c, i + 1))
                       else 0.0
    {
      if 0 < week <= n {
        assert (week - start) as real * increment == (week - 1 - start) as real * increment + increment;
        cumulative := cumulative + increment;
        assert cumulative == SteadyUnrounded(c, week);
        workload[week - 1] := workload[week - 1] + RoundToNearestHalf(cumulative);
      }
      week := week + 1;
    }
  }

  /// `calculatePreparationDistributions`: fills a zeroed week array in place.
  method CalculatePreparationDistributions(cw: Option<Coursework>, style: string, semester: string)
    returns (r: Result<seq<WeekHours>, EngineError>)
    ensures r == PreparationHours(cw, style, semester)
  {
    if cw.None? {
      return Err(CourseworkUndefined);
    }
    var c := cw.value;
    var n := TotalWeeks(semester);
    var workload := new real[n](_ => 0.0);
    var start := c.deadlineWeek - ReleasedWeeks(c.releasedWeekPrior);
    if start < 1 {
      start := 1;
    }
    var total := c.preparationTime;
    if style == "earlyStarter" {
      var perWeek := SafeDivide(total, (c.deadlineWeek - start + 1) as real);
      DistributeTime(workload, start, c.deadlineWeek, perWeek);
      assert forall i :: 0 <= i < n ==> workload[i] == WeekShare(c, style, i + 1);
    } else if style == "steady" {
      if !(0 < start <= n) {
        return Err(InvalidStartWeek(start));
      }
      DistributeSteadily(workload, c);
      assert forall i :: 0 <= i < n ==> workload[i] == WeekShare(c, style, i + 1);
    } else if style == "justInTime" {
      if !(0 < c.deadlineWeek <= n) {
        return Err(InvalidDeadlineWeek(c.deadlineWeek));
      }
      workload[c.deadlineWeek - 1] := workload[c.deadlineWeek - 1] + RoundToNearestHalf(total);
      assert forall i :: 0 <= i < n ==> workload[i] == WeekShare(c, style, i + 1);
    } else {
      return Err(UnknownStudyStyle(style));
    }
    var hours := workload[..];
    r := Ok(seq(n, i requires 0 <= i < n => WeekHours(i + 1, hours[i])));
    assert style in StudyStyles;
    assert r.value == PreparationHours(cw, style, semester).value;
  }

  /// `calculatePreparationTimeDistributions`: the three study styles in
  /// order; the first style that throws decides the error.
  function PreparationTimeDistributions(cw: Option<Coursework>, semester: string)
    : (r: Result<seq<TaggedDistribution>, EngineError>)
    ensures r.Ok? <==> forall i :: 0 <= i < 3 ==> PreparationHours(cw, StudyStyles[i], semester).Ok?
    ensures r.Ok? ==> |r.value| == 3 && forall i :: 0 <= i < 3 ==>
      r.value[i] == TaggedDistribution(StudyStyles[i], PreparationHours(cw, StudyStyles[i], semester).value)
    ensures r.Err? ==>
      exists i :: 0 <= i < 3 && PreparationHours(cw, StudyStyles[i], semester) == Err(r.error) && (forall j :: 0 <= j < i ==> PreparationHours(cw, StudyStyles[j], semester).Ok?)
  {
    var early := PreparationHours(cw, StudyStyles[0], semester);
    var steady := PreparationHours(cw, StudyStyles[1], semester);
    var late := PreparationHours(cw, StudyStyles[2], semester);
    if early.Err? then Err(early.error)
    else if steady.Err? then Err(steady.error)
    else if late.Err? then Err(late.error)
    else Ok([TaggedDistribution("earlyStarter", early.value),
             TaggedDistribution("steady", steady.value),
             TaggedDistribution("justInTime", late.value)])
  }

  // ----- Properties of the three shapes -----

  /// `earlyStarter`: every week of [start, deadline] inside the semester gets
  /// the same rounded share and every other week 0.
  lemma EarlyStarterWeeks(c: Coursework, semester: string)
    ensures var d := PreparationHours(Some(c), "earlyStarter", semester).value;
      forall i :: 0 <= i < |d| ==>
        d[i].hours == if StartWeek(c) <= i + 1 <= c.deadlineWeek then RoundToNearestHalf(EarlyStarterShare(c)) else 0.0
  {
    var d := PreparationHours(Some(c), "earlyStarter", semester).value;
    assert d == seq(TotalWeeks(semester), i => WeekHours(i + 1, WeekShare(c, "earlyStarter", i + 1))) by {
      assert "earlyStarter" in StudyStyles;
    }
  }

  /// The weeks of [start, deadline] that lie inside weeks 1..n, as the
  /// 0-based index range [lo, hi) of the week array.
  function EarlyStarterLow(c: Coursework, n: nat): nat {
    if StartWeek(c) - 1 < n then StartWeek(c) - 1 else n
  }

  function EarlyStarterHigh(c: Coursework, n: nat): (hi: nat)
    ensures EarlyStarterLow(c, n) <= hi <= n
  {
    var lo := EarlyStarterLow(c, n);
    if c.deadlineWeek < lo then lo else if c.deadlineWeek < n then c.deadlineWeek else n
  }

  /// The `earlyStarter` total is the rounded share times the number of
  /// weeks of [start, deadline] that lie inside the semester.
  lemma EarlyStarterSpread(c: Coursework, semester: string)
    ensures var d := PreparationHours(Some(c), "earlyStarter", semester).value;
      var weeks := EarlyStarterHigh(c, |d|) - EarlyStarterLow(c, |d|);
      TotalHours(d) == weeks as real * RoundToNearestHalf(EarlyStarterShare(c))
  {
    EarlyStarterWeeks(c, semester);
    BlockTotal(c, PreparationHours(Some(c), "earlyStarter", semester).value, RoundToNearestHalf(EarlyStarterShare(c)));
  }

  /// A week array holding `v` exactly in the weeks [start, deadline] adds up
  /// to `v` times the number of those weeks it has.
  lemma BlockTotal(c: Coursework, d: seq<WeekHours>, v: real)
    requires forall i :: 0 <= i < |d| ==> d[i].hours == if StartWeek(c) <= i + 1 <= c.deadlineWeek then v else 0.0
    ensures TotalHours(d) == (EarlyStarterHigh(c, |d|) - EarlyStarterLow(c, |d|)) as real * v
  {
    var lo, hi := EarlyStarterLow(c, |d|), EarlyStarterHigh(c, |d|);
    forall i | 0 <= i < |d|
      ensures d[i].hours == if lo <= i < hi then v else 0.0
    {
    }
    TotalHoursOfBlock(d, lo, hi, v);
  }

  /// When the whole span [start, deadline] lies inside the semester, the
  /// `earlyStarter` total is within a quarter hour per week of the budget.
  lemma EarlyStarterTotalNearBudget(c: Coursework, semester: string)
    requires StartWeek(c) <= c.deadlineWeek <= TotalWeeks(semester)
    ensures var span := (c.deadlineWeek - StartWeek(c) + 1) as real;
      var total := TotalHours(PreparationHours(Some(c), "earlyStarter", semester).value);
      c.preparationTime - 0.25 * span < total <= c.preparationTime + 0.25 * span
  {
    var d := PreparationHours(Some(c), "earlyStarter", semester).value;
    var span := (c.deadlineWeek - StartWeek(c) + 1) as real;
    var v := RoundToNearestHalf(EarlyStarterShare(c));
    EarlyStarterSpread(c, semester);
    assert EarlyStarterHigh(c, |d|) - EarlyStarterLow(c, |d|) == c.deadlineWeek - StartWeek(c) + 1;
    assert TotalHours(d) == span * v;
    assert EarlyStarterShare(c) == c.preparationTime / span;
    ScaledShareNearBudget(c.preparationTime, span, v);
  }

  lemma ScaledShareNearBudget(budget: real, span: real, v: real)
    requires span > 0.0
    requires budget / span - 0.25 < v <= budget / span + 0.25
    ensures budget - 0.25 * span < span * v
    ensures span * v <= budget + 0.25 * span
  {
    var share := budget / span;
    assert span * share == budget;
    NearProduct(budget, span, share, v);
  }

  lemma NearProduct(budget: real, span: real, share: real, v: real)
    requires span > 0.0 && span * share == budget
    requires share - 0.25 < v <= share + 0.25
    ensures budget - 0.25 * span < span * v
    ensures span * v <= budget + 0.25 * span
  {
    var d := v - share;
    SplitProduct(span, v, share);
    assert span * d == span * v - budget;
    MultiplyPreservesOrder(span, d, 0.25);
    assert span * v - budget <= 0.25 * span;
    assert -0.25 < d;
    MultiplyPreservesOrder(span, -0.25, d);
    assert span * -0.25 < span * d;
    assert span * -0.25 == -0.25 * span;
    assert -0.25 * span < span * v - budget;
  }

  lemma SplitProduct(k: real, a: real, b: real)
    ensures k * (a - b) == k * a - k * b
  {
  }

  lemma MultiplyPreservesOrder(k: real, x: real, y: real)
    requires k > 0.0 && x <= y
    ensures k * x <= k * y
    ensures x < y ==> k * x < k * y
  { }

  /// `steady`: the start week holds exactly 1 hour, each later week up to the
  /// deadline the rounded series value, and every other week 0.
  lemma SteadyShape(c: Coursework, semester: string)
    requires StartWeek(c) <= TotalWeeks(semester)
    ensures var d := PreparationHours(Some(c), "steady", semester).value;
      && d[StartWeek(c) - 1].hours == 1.0
      && forall i :: 0 <= i < |d| && i + 1 != StartWeek(c) ==>
           d[i].hours == if StartWeek(c) < i + 1 <= c.deadlineWeek then RoundToNearestHalf(SteadyUnrounded(c, i + 1)) else 0.0
  {
  }

  /// The sum of the first `count` unrounded steady values.
  function SteadySeries(c: Coursework, count: nat): real {
    if count == 0 then 0.0 else SteadySeries(c, count - 1) + SteadyUnrounded(c, StartWeek(c) + count - 1)
  }

  lemma {:induction false} SteadySeriesClosedForm(c: Coursework, count: nat)
    ensures SteadySeries(c, count) == count as real + SteadyIncrement(c) * (count as real * (count as real - 1.0) / 2.0)
  {
    if count > 0 {
      SteadySeriesClosedForm(c, count - 1);
      var k := (count - 1) as real;
      var inc := SteadyIncrement(c);
      assert SteadyUnrounded(c, StartWeek(c) + count - 1) == 1.0 + k * inc;
      TriangleStep(k);
      Distribute(inc, k * (k - 1.0) / 2.0, k);
    }
  }

  /// One more term of the triangular numbers.
  lemma TriangleStep(k: real)
    ensures k * (k - 1.0) / 2.0 + k == (k + 1.0) * k / 2.0
  {
  }

  lemma Distribute(x: real, a: real, b: real)
    ensures x * (a + b) == x * a + x * b
  {
  }

  /// The steady increment is chosen so that the unrounded series over
  /// `releasedWeekPrior + 1` weeks adds up to the preparation budget.
  lemma SteadySeriesMeetsBudget(c: Coursework)
    requires ReleasedWeeks(c.releasedWeekPrior) >= 1
    ensures SteadySeries(c, ReleasedWeeks(c.releasedWeekPrior) + 1) == c.preparationTime
  {
    var r := ReleasedWeeks(c.releasedWeekPrior);
    var k := r as real;
    var inc := SteadyIncrement(c);
    SteadySeriesClosedForm(c, r + 1);
    assert (r + 1) as real == k + 1.0;
    assert SteadySeries(c, r + 1) == k + 1.0 + inc * ((k + 1.0) * k / 2.0);
    SeriesSum(c.preparationTime, k, inc);
  }

  /// The arithmetic behind SteadySeriesMeetsBudget, over plain numbers.
  lemma SeriesSum(budget: real, k: real, inc: real)
    requires k >= 1.0
    requires inc == (2.0 * budget - 2.0 * k - 2.0) / (k * k + k)
    ensures k + 1.0 + inc * ((k + 1.0) * k / 2.0) == budget
  {
    var q := k * k + k;
    assert (k + 1.0) * k == q;
    assert q > 0.0;
    assert inc * q == 2.0 * budget - 2.0 * k - 2.0;
    assert inc * (q / 2.0) == (inc * q) / 2.0;
  }

  /// The series length comes from `releasedWeekPrior`, not from the clamped
  /// span: with a deadline in week 2 and a lead of 3 weeks the start is
  /// clamped to week 1, only 2 weeks are filled, and 10 hours of budget
  /// become 3 hours in total.
  lemma SteadyClampedSpanMissesBudget()
    ensures var c := Coursework("cw", "essay", 0.5, 10.0, 0.0, 2, Weeks(3));
      var d := PreparationHours(Some(c), "steady", "first").value;
      && StartWeek(c) == 1
      && d[0].hours == 1.0 && d[1].hours == 2.0
      && TotalHours(d) == 3.0
  {
    var c := Coursework("cw", "essay", 0.5, 10.0, 0.0, 2, Weeks(3));
    var d := PreparationHours(Some(c), "steady", "first").value;
    assert SteadyIncrement(c) == 1.0;
    assert RoundToNearestHalf(2.0) == 2.0;
    TotalHoursZeroTail(d, 2);
    assert d[..2][..1] == [d[0]] && [d[0]][..0] == [];
    assert TotalHours(d[..2]) == TotalHours([d[0]]) + d[1].hours;
    assert TotalHours([d[0]]) == d[0].hours;
  }

  /// With `releasedWeekPrior` absent the start week is the deadline week, so
  /// the steady shape is 1 hour in that week and nothing else.
  lemma SteadyWithoutLeadIsOneWeek(c: Coursework, semester: string)
    requires c.releasedWeekPrior == Absent && StartWeek(c) <= TotalWeeks(semester)
    ensures var d := PreparationHours(Some(c), "steady", semester).value;
      forall i :: 0 <= i < |d| ==> d[i].hours == if i + 1 == StartWeek(c) then 1.0 else 0.0
  {
  }

  /// `justInTime`: the whole rounded budget in the deadline week, 0 elsewhere.
  lemma JustInTimeAtDeadline(c: Coursework, semester: string)
    requires 1 <= c.deadlineWeek <= TotalWeeks(semester)
    ensures var d := PreparationHours(Some(c), "justInTime", semester).value;
      && (forall i :: 0 <= i < |d| ==> d[i].hours == if i + 1 == c.deadlineWeek then RoundToNearestHalf(c.preparationTime) else 0.0)
      && TotalHours(d) == RoundToNearestHalf(c.preparationTime)
  {
    var d := PreparationHours(Some(c), "justInTime", semester).value;
    TotalHoursOfBlock(d, c.deadlineWeek - 1, c.deadlineWeek, RoundToNearestHalf(c.preparationTime));
  }

  /// A 10-hour item due in week 5 and released 2 weeks before gets 3.5 hours
  /// in each of weeks 3, 4 and 5 under `earlyStarter` in the first semester.
  lemma EarlyStarterScenario()
    ensures var d := PreparationHours(Some(Coursework("cw", "report", 0.2, 10.0, 0.0, 5, Weeks(2))), "earlyStarter", "first").value;
      |d| == 15 && forall i :: 0 <= i < 15 ==> d[i].hours == if 2 <= i <= 4 then 3.5 else 0.0
  {
    var c := Coursework("cw", "report", 0.2, 10.0, 0.0, 5, Weeks(2));
    assert EarlyStarterShare(c) == 10.0 / 3.0;
    assert RoundToNearestHalf(10.0 / 3.0) == 3.5;
  }
}
