/// Exam revision of the time an exam's private study leaves over
/// (server/src/utils/distributionCalculations.js, lines 213-275): the
/// remaining hours go into the last three weeks of the semester according
/// to a study style.
module RemainingPreparation {
  import opened Common
  import opened Helpers
  import opened Workload

  /// The first week of the revision window: 31 for 'whole session', 16 for
  /// 'second', otherwise 13 (the semester name is compared lower-cased).
  function WindowStart(semester: string): int {
    var s := Lower(semester);
    if s == "whole session" then 31 else if s == "second" then 16 else 13
  }

  /// The last week of the revision window: 33, 18 or 15.
  function WindowEnd(semester: string): int {
    var s := Lower(semester);
    if s == "whole session" then 33 else if s == "second" then 18 else 15
  }

  /// The hours to place: the remaining time when positive, otherwise 4.
  function Budget(remainingTime: real): (b: real)
    ensures b > 0.0
  {
    if remainingTime > 0.0 then remainingTime else 4.0
  }

  /// The `steady` increment: `safeDivide(2 * budget - 2, n * (n + 1) / 2)`
  /// for the three-week window.
  function SteadyStep(budget: real): real {
    SafeDivide(2.0 * budget - 2.0, (3 * (3 + 1)) as real / 2.0)
  }

  /// The hours entry `i` of the window receives under `style`.
  function WindowShare(style: string, budget: real, i: nat): real
    requires style in StudyStyles && i < 3
  {
    if style == "earlyStarter" then RoundToNearestHalf(SafeDivide(budget, 3.0))
    else if style == "steady" then
      (if i == 0 then 1.0 else RoundToNearestHalf(1.0 + i as real * SteadyStep(budget)))
    else if i == 2 then RoundToNearestHalf(budget)
    else 0.0
  }

  /// What `calculateRemainingPreparationDistributions` returns or throws.
  function RemainingDistribution(remainingTime: real, style: string, semester: string)
    : (r: Result<seq<WeekHours>, EngineError>)
    ensures r.Ok? <==> style in StudyStyles
    ensures r.Err? ==> r.error == UnknownStudyStyle(style)
    ensures r.Ok? ==> ConsecutiveWeeks(r.value, WindowStart(semester), 3)
    ensures r.Ok? ==> HalfHours(r.value)
  {
    if style !in StudyStyles then Err(UnknownStudyStyle(style))
    else
      var d := seq(3, i requires 0 <= i < 3 => WeekHours(WindowStart(semester) + i, WindowShare(style, Budget(remainingTime), i)));
      assert IsHalfMultiple(0.0) && IsHalfMultiple(1.0);
      Ok(d)
  }

  /// `distributeTime`: adds the rounded weekly share to every week of
  /// [start, end], the array's entry 0 being week `first`.
  method DistributeTime(hours: array<real>, first: int, start: int, end: int, timePerWeek: real)
    requires first <= start && end - first < hours.Length
    modifies hours
    ensures forall i :: 0 <= i < hours.Length ==>
      hours[i] == old(hours[i]) + if start - first <= i <= end - first then RoundToNearestHalf(timePerWeek) else 0.0
  {
    var week := start;
    while week <= end
      invariant start <= week <= if end < start then start else end + 1
      invariant forall i :: 0 <= i < hours.Length ==>
        hours[i] == old(hours[i]) + if start - first <= i < week - first then RoundToNearestHalf(timePerWeek) else 0.0
    {
      hours[week - first] := hours[week - first] + RoundToNearestHalf(timePerWeek);
      week := week + 1;
    }
  }

  /// `calculateRemainingPreparationDistributions`: a zeroed three-week array
  /// filled by the style's rule.
  method CalculateRemainingPreparationDistributions(remainingTime: real, style: string, semester: string)
    returns (r: Result<seq<WeekHours>, EngineError>)
    ensures r == RemainingDistribution(remainingTime, style, semester)
  {
    var startWeek := WindowStart(semester);
    var endWeek := WindowEnd(semester);
    var totalWeeks := endWeek - startWeek + 1;
    var hours := new real[totalWeeks](i => 0.0);
    var budget := if remainingTime > 0.0 then remainingTime else 4.0;
    assert totalWeeks == 3 && budget == Budget(remainingTime);
    if style == "earlyStarter" {
      var timePerWeek := SafeDivide(budget, (endWeek - startWeek + 1) as real);
      DistributeTime(hours, startWeek, startWeek, endWeek, timePerWeek);
    } else if style == "steady" {
      var weeks := endWeek - startWeek + 1;
      var increment := SafeDivide(2.0 * budget - 2.0, (weeks * (weeks + 1)) as real / 2.0);
      assert increment == SteadyStep(budget);
      var cumulative := 1.0;
      hours[0] := hours[0] + 1.0;
      var week := startWeek + 1;
      while week <= endWeek
        invariant startWeek + 1 <= week <= endWeek + 1
        invariant cumulative == 1.0 + (week - startWeek - 1) as real * increment
        invariant hours[0] == 1.0
        invariant forall i :: 1 <= i < 3 ==>
          hours[i] == if i < week - startWeek then WindowShare(style, budget, i) else 0.0
      {
        cumulative := cumulative + increment;
        hours[week - startWeek] := hours[week - startWeek] + RoundToNearestHalf(cumulative);
        week := week + 1;
      }
    } else if style == "justInTime" {
      hours[endWeek - startWeek] := hours[endWeek - startWeek] + RoundToNearestHalf(budget);
    } else {
      return Err(UnknownStudyStyle(style));
    }
    assert style in StudyStyles;
    assert forall i :: 0 <= i < 3 ==> hours[i] == WindowShare(style, budget, i);
    var h := hours[..];
    var d := seq(totalWeeks, i requires 0 <= i < totalWeeks => WeekHours(startWeek + i, h[i]));
    assert d == RemainingDistribution(remainingTime, style, semester).value;
    r := Ok(d);
  }

  /// The total of a three-week distribution.
  lemma TotalOfThree(d: seq<WeekHours>)
    requires |d| == 3
    ensures TotalHours(d) == d[0].hours + d[1].hours + d[2].hours
  {
    assert d[..2][..1][..0] == [];
    assert TotalHours(d[..1]) == d[0].hours;
    assert d[..2][..1] == d[..1];
    assert TotalHours(d[..2]) == d[0].hours + d[1].hours;
  }

  /// The window is the last three weeks of the semester.
  lemma WindowIsSemesterEnd(remainingTime: real, style: string, semester: string)
    requires style in StudyStyles
    ensures var d := RemainingDistribution(remainingTime, style, semester).value;
      d[0].week == TotalWeeks(semester) - 2 && d[2].week == TotalWeeks(semester)
  {
  }

  /// A remaining time of zero or less is treated as four hours.
  lemma NonPositiveRemainingActsAsFour(remainingTime: real, style: string, semester: string)
    requires remainingTime <= 0.0
    ensures RemainingDistribution(remainingTime, style, semester) == RemainingDistribution(4.0, style, semester)
  {
    assert Budget(remainingTime) == Budget(4.0);
  }

  /// `earlyStarter` spreads the budget evenly: the rounded weekly shares add
  /// up to within three quarters of an hour of it.
  lemma EarlyStarterNearBudget(remainingTime: real, semester: string)
    ensures var d := RemainingDistribution(remainingTime, "earlyStarter", semester).value;
      var b := Budget(remainingTime);
      && d[0].hours == d[1].hours == d[2].hours
      && b - 0.75 < TotalHours(d) <= b + 0.75
  {
    var d := RemainingDistribution(remainingTime, "earlyStarter", semester).value;
    assert "earlyStarter" in StudyStyles;
    TotalOfThree(d);
  }

  /// `justInTime` puts the whole budget, rounded, into the last week.
  lemma JustInTimeLastWeek(remainingTime: real, semester: string)
    ensures var d := RemainingDistribution(remainingTime, "justInTime", semester).value;
      var b := Budget(remainingTime);
      && d[0].hours == 0.0 && d[1].hours == 0.0
      && d[2].hours == RoundToNearestHalf(b)
      && b - 0.25 < TotalHours(d) <= b + 0.25
  {
    var d := RemainingDistribution(remainingTime, "justInTime", semester).value;
    assert "justInTime" in StudyStyles;
    TotalOfThree(d);
  }

  /// `steady` starts at one hour and grows by the increment; before
  /// rounding its weeks add up to two hours more than the budget, because
  /// the increment divides by 1 + 2 + 3 while only 0 + 1 + 2 increments are
  /// added.
  lemma SteadyOvershootsBudget(remainingTime: real, semester: string)
    ensures var d := RemainingDistribution(remainingTime, "steady", semester).value;
      var b := Budget(remainingTime);
      var step := SteadyStep(b);
      && d[0].hours == 1.0
      && d[1].hours == RoundToNearestHalf(1.0 + step)
      && d[2].hours == RoundToNearestHalf(1.0 + 2.0 * step)
      && 1.0 + (1.0 + step) + (1.0 + 2.0 * step) == b + 2.0
      && b + 1.5 < TotalHours(d) <= b + 2.5
  {
    var d := RemainingDistribution(remainingTime, "steady", semester).value;
    var b := Budget(remainingTime);
    assert "steady" in StudyStyles;
    assert SteadyStep(b) == (2.0 * b - 2.0) / 6.0;
    TotalOfThree(d);
  }
}
