/// Private-study distributor (server/src/utils/distributionCalculations.js,
/// lines 106-211): for an exam, turns the module's teaching schedule into
/// weekly private-study hours at a fixed ratio to contact time, once per
/// ratio 0, 0.5, 1 and 2.
module PrivateStudy {
  import opened Common
  import opened Helpers
  import opened Workload

  /// The `isReadingWeek` closure. For a whole-session module the object form
  /// maps weeks after 15 into the second semester's own numbering.
  predicate IsReadingWeek(rw: ReadingWeeks, semester: string, week: int) {
    match rw
    case WeekList(weeks) => week in weeks
    case PerSemester(sem1, sem2) =>
      if Lower(semester) == "whole session" then
        if week <= 15 then Includes(sem1, week) else Includes(sem2, week - 15)
      else
        Includes(sem1, week) || Includes(sem2, week)
    case Malformed => false
  }

  /// Contact hours scaled by the ratio and rounded to a half hour.
  function Scaled(hours: real, ratio: real): real {
    RoundToNearestHalf(hours * ratio)
  }

  /// The private-study hours that entry `i` of one activity's distribution
  /// adds: in a reading week the previous entry's contact hours stand in
  /// (the first entry uses its own), scaled by the ratio and rounded.
  function StudyHours(d: seq<WeekHours>, i: nat, ratio: real, rw: ReadingWeeks, semester: string): real
    requires i < |d|
  {
    var previous := if i > 0 then d[i - 1].hours else d[i].hours;
    var effective := if IsReadingWeek(rw, semester, d[i].week) then previous else d[i].hours;
    Scaled(effective, ratio)
  }

  /// What the first `n` entries of one activity's distribution add, entry
  /// by entry, as `{ week, hours }` pairs.
  function ContributionsUpTo(d: seq<WeekHours>, n: nat, ratio: real, rw: ReadingWeeks, semester: string)
    : (r: seq<WeekHours>)
    requires n <= |d|
    ensures |r| == n
    ensures forall i :: 0 <= i < n ==> r[i].week == d[i].week
  {
    if n == 0 then []
    else ContributionsUpTo(d, n - 1, ratio, rw, semester) + [WeekHours(d[n - 1].week, StudyHours(d, n - 1, ratio, rw, semester))]
  }

  /// What one whole activity adds.
  function ActivityContributions(d: seq<WeekHours>, ratio: real, rw: ReadingWeeks, semester: string)
    : (r: seq<WeekHours>)
    ensures |r| == |d|
    ensures forall i :: 0 <= i < |d| ==> r[i].week == d[i].week
  {
    ContributionsUpTo(d, |d|, ratio, rw, semester)
  }

  /// Entry `i` of an activity contributes StudyHours of that entry in its
  /// own week.
  lemma {:induction false} ContributionAt(d: seq<WeekHours>, n: nat, i: nat, ratio: real, rw: ReadingWeeks, semester: string)
    requires i < n <= |d|
    ensures ContributionsUpTo(d, n, ratio, rw, semester)[i] == WeekHours(d[i].week, StudyHours(d, i, ratio, rw, semester))
    decreases n
  {
    if i < n - 1 {
      ContributionAt(d, n - 1, i, ratio, rw, semester);
    }
  }

  /// Every contribution of the schedule, in the order the source visits
  /// them (activity by activity, entry by entry).
  function Contributions(schedule: seq<Activity>, ratio: real, rw: ReadingWeeks, semester: string)
    : seq<WeekHours>
  {
    ContributionsOf(schedule, |schedule|, ratio, rw, semester)
  }

  /// The contributions of the first `a` activities.
  function ContributionsOf(schedule: seq<Activity>, a: nat, ratio: real, rw: ReadingWeeks, semester: string)
    : seq<WeekHours>
    requires a <= |schedule|
  {
    if a == 0 then []
    else ContributionsOf(schedule, a - 1, ratio, rw, semester) + ActivityTail(schedule[a - 1], ratio, rw, semester)
  }

  /// What one value of `teachingSchedule` adds: nothing without a
  /// distribution array.
  function ActivityTail(activity: Activity, ratio: real, rw: ReadingWeeks, semester: string)
    : (r: seq<WeekHours>)
    ensures activity.distribution.None? ==> r == []
    ensures activity.distribution.Some? ==> |r| == |activity.distribution.value|
    ensures activity.distribution.Some? ==>
      forall i :: 0 <= i < |r| ==> r[i].week == activity.distribution.value[i].week
  {
    match activity.distribution
    case None => []
    case Some(d) => ActivityContributions(d, ratio, rw, semester)
  }

  /// The hours of the contributions that fall in week `w`.
  function WeekTotal(cs: seq<WeekHours>, w: int): real {
    if cs == [] then 0.0
    else WeekTotal(cs[..|cs| - 1], w) + if cs[|cs| - 1].week == w then cs[|cs| - 1].hours else 0.0
  }

  /// Every contribution lands in a week of the array (`workloadData[week - 1]`
  /// exists).
  predicate InWeeks(cs: seq<WeekHours>, totalWeeks: nat)
    decreases |cs|
  {
    cs == [] || (InWeeks(cs[..|cs| - 1], totalWeeks) && 1 <= cs[|cs| - 1].week <= totalWeeks)
  }

  /// InWeeks, entry by entry.
  lemma {:induction false} InWeeksAt(cs: seq<WeekHours>, totalWeeks: nat)
    ensures InWeeks(cs, totalWeeks) <==> forall k :: 0 <= k < |cs| ==> 1 <= cs[k].week <= totalWeeks
    decreases |cs|
  {
    if cs != [] {
      var cs' := cs[..|cs| - 1];
      InWeeksAt(cs', totalWeeks);
      assert forall k :: 0 <= k < |cs'| ==> cs'[k] == cs[k];
    }
  }


  /// Every entry of the activity's distribution names a week 1..totalWeeks.
  predicate ActivityInWeeks(activity: Activity, totalWeeks: nat) {
    activity.distribution.Some? ==> InWeeks(activity.distribution.value, totalWeeks)
  }

  /// Every entry of every activity distribution names a week 1..totalWeeks.
  predicate ScheduleInWeeks(schedule: seq<Activity>, totalWeeks: nat) {
    PrefixInWeeks(schedule, |schedule|, totalWeeks)
  }

  predicate PrefixInWeeks(schedule: seq<Activity>, a: nat, totalWeeks: nat)
    requires a <= |schedule|
  {
    a == 0 || (PrefixInWeeks(schedule, a - 1, totalWeeks) && ActivityInWeeks(schedule[a - 1], totalWeeks))
  }

  lemma {:induction false} InWeeksAppend(p: seq<WeekHours>, q: seq<WeekHours>, totalWeeks: nat)
    ensures InWeeks(p + q, totalWeeks) <==> InWeeks(p, totalWeeks) && InWeeks(q, totalWeeks)
    decreases |q|
  {
    if q == [] {
      assert p + q == p;
    } else {
      var q' := q[..|q| - 1];
      InWeeksAppend(p, q', totalWeeks);
      assert (p + q)[..|p + q| - 1] == p + q';
      assert (p + q)[|p + q| - 1] == q[|q| - 1];
    }
  }


  /// The contributions land in the week array exactly when the schedule's
  /// own week numbers do; the ratio and the reading weeks play no part.
  lemma ContributionsInWeeks(schedule: seq<Activity>, ratio: real, rw: ReadingWeeks,
                             semester: string, totalWeeks: nat)
    ensures InWeeks(Contributions(schedule, ratio, rw, semester), totalWeeks) <==> ScheduleInWeeks(schedule, totalWeeks)
  {
    PrefixContributionsInWeeks(schedule, |schedule|, ratio, rw, semester, totalWeeks);
  }

  lemma {:induction false} PrefixContributionsInWeeks(schedule: seq<Activity>, a: nat, ratio: real, rw: ReadingWeeks,
                                                      semester: string, totalWeeks: nat)
    requires a <= |schedule|
    ensures InWeeks(ContributionsOf(schedule, a, ratio, rw, semester), totalWeeks) <==> PrefixInWeeks(schedule, a, totalWeeks)
    decreases a
  {
    if a > 0 {
      var p := ContributionsOf(schedule, a - 1, ratio, rw, semester);
      var q := ActivityTail(schedule[a - 1], ratio, rw, semester);
      assert ContributionsOf(schedule, a, ratio, rw, semester) == p + q;
      PrefixContributionsInWeeks(schedule, a - 1, ratio, rw, semester, totalWeeks);
      InWeeksAppend(p, q, totalWeeks);
      TailInWeeks(schedule[a - 1], ratio, rw, semester, totalWeeks);
    }
  }

  /// A prefix with a stray week spoils every longer prefix.
  lemma {:induction false} PrefixFails(schedule: seq<Activity>, a: nat, b: nat, totalWeeks: nat)
    requires a <= b <= |schedule| && !PrefixInWeeks(schedule, a, totalWeeks)
    ensures !PrefixInWeeks(schedule, b, totalWeeks)
    decreases b
  {
    if a < b {
      PrefixFails(schedule, a, b - 1, totalWeeks);
    }
  }

  /// One activity's contributions land in the week array exactly when its
  /// own week numbers do.
  lemma TailInWeeks(activity: Activity, ratio: real, rw: ReadingWeeks, semester: string, totalWeeks: nat)
    ensures InWeeks(ActivityTail(activity, ratio, rw, semester), totalWeeks) <==> ActivityInWeeks(activity, totalWeeks)
  {
    var t := ActivityTail(activity, ratio, rw, semester);
    if activity.distribution.Some? {
      var d := activity.distribution.value;
      InWeeksAt(t, totalWeeks);
      InWeeksAt(d, totalWeeks);
      assert forall k :: 0 <= k < |t| ==> t[k].week == d[k].week;
    }
  }

  /// The week array after every contribution has been added: entry `i`
  /// is week `i + 1` holding that week's total.
  function Spread(cs: seq<WeekHours>, totalWeeks: nat): (r: seq<WeekHours>)
    ensures ConsecutiveWeeks(r, 1, totalWeeks)
  {
    seq(totalWeeks, i requires 0 <= i < totalWeeks => WeekHours(i + 1, WeekTotal(cs, i + 1)))
  }

  /// `{ distribution, remainingTime, totalAllocatedTime }`.
  datatype Allocation = Allocation(distribution: seq<WeekHours>, remainingTime: real, totalAllocatedTime: real)

  /// What `calculatePrivateStudyDistribution` returns or throws: an entry
  /// naming a week outside 1..totalWeeks reads `.hours` of undefined.
  function PrivateStudyAllocation(schedule: seq<Activity>, privateStudyTime: real, ratio: real,
                                  totalWeeks: nat, rw: ReadingWeeks, semester: string)
    : (r: Result<Allocation, EngineError>)
    ensures r.Err? <==> !ScheduleInWeeks(schedule, totalWeeks)
    ensures r.Err? ==> r.error == PropertyOfUndefined
    ensures r.Ok? ==> ConsecutiveWeeks(r.value.distribution, 1, totalWeeks)
    ensures r.Ok? ==> r.value.totalAllocatedTime == TotalHours(r.value.distribution)
    ensures r.Ok? ==> r.value.remainingTime >= 0.0
    ensures r.Ok? ==> r.value.remainingTime == Max(privateStudyTime - r.value.totalAllocatedTime, 0.0)
  {
    if !ScheduleInWeeks(schedule, totalWeeks) then Err(PropertyOfUndefined)
    else
      var cs := Contributions(schedule, ratio, rw, semester);
      ContributionsInWeeks(schedule, ratio, rw, semester, totalWeeks);
      DenseTotal(cs, totalWeeks);
      Ok(Allocation(Spread(cs, totalWeeks), Max(privateStudyTime - TotalHours(cs), 0.0), TotalHours(cs)))
  }

  /// Spreading the contributions over their weeks keeps their total.
  lemma {:induction false} DenseTotal(cs: seq<WeekHours>, totalWeeks: nat)
    requires InWeeks(cs, totalWeeks)
    ensures TotalHours(Spread(cs, totalWeeks)) == TotalHours(cs)
    decreases |cs|
  {
    var dense := Spread(cs, totalWeeks);
    if cs == [] {
      TotalHoursOfBlock(dense, 0, 0, 0.0);
    } else {
      var cs' := cs[..|cs| - 1];
      var c := cs[|cs| - 1];
      var before := Spread(cs', totalWeeks);
      DenseTotal(cs', totalWeeks);
      TotalHoursBump(before, dense, c.week - 1, c.hours);
    }
  }

  /// Appending one contribution raises its own week's total and the
  /// overall total by its hours.
  lemma WeekTotalSnoc(cs: seq<WeekHours>, c: WeekHours)
    ensures forall w :: WeekTotal(cs + [c], w) == WeekTotal(cs, w) + if c.week == w then c.hours else 0.0
    ensures TotalHours(cs + [c]) == TotalHours(cs) + c.hours
  {
    assert (cs + [c])[..|cs|] == cs;
  }

  /// The state of `workloadData` and `totalAllocatedTime` once the
  /// contributions `acc` have been added.
  predicate Accumulated(week: seq<real>, total: real, acc: seq<WeekHours>) {
    && (forall i :: 0 <= i < |week| ==> week[i] == WeekTotal(acc, i + 1))
    && total == TotalHours(acc)
  }

  /// Adding contribution `c` to its week and to the total accumulates it.
  lemma AddStep(week: seq<real>, total: real, acc: seq<WeekHours>, c: WeekHours)
    requires Accumulated(week, total, acc) && 1 <= c.week <= |week|
    ensures Accumulated(week[c.week - 1 := week[c.week - 1] + c.hours], total + c.hours, acc + [c])
  {
    WeekTotalSnoc(acc, c);
  }

  /// Adding entry `j` of an activity's distribution accumulates its
  /// contribution.
  lemma AddEntry(week: seq<real>, total: real, done: seq<WeekHours>, d: seq<WeekHours>, j: nat,
                 ratio: real, rw: ReadingWeeks, semester: string)
    requires j < |d| && 1 <= d[j].week <= |week|
    requires Accumulated(week, total, done + ActivityContributions(d, ratio, rw, semester)[..j])
    ensures var h := StudyHours(d, j, ratio, rw, semester);
      Accumulated(week[d[j].week - 1 := week[d[j].week - 1] + h], total + h,
                  done + ActivityContributions(d, ratio, rw, semester)[..j + 1])
  {
    var added := ActivityContributions(d, ratio, rw, semester);
    ContributionAt(d, |d|, j, ratio, rw, semester);
    AddStep(week, total, done + added[..j], added[j]);
    assert added[..j + 1] == added[..j] + [added[j]];
    assert (done + added[..j]) + [added[j]] == done + added[..j + 1];
  }

  /// The inner `forEach` over one activity's distribution: adds each
  /// contribution to its week and to the running total, and stops (the
  /// source throws) at the first entry outside the week array. An activity
  /// without a distribution array adds nothing.
  method AddActivity(workload: array<real>, total: real, activity: Activity, ratio: real,
                     rw: ReadingWeeks, semester: string, ghost done: seq<WeekHours>)
    returns (ok: bool, newTotal: real)
    requires Accumulated(workload[..], total, done)
    modifies workload
    ensures ok <==> ActivityInWeeks(activity, workload.Length)
    ensures ok ==> Accumulated(workload[..], newTotal, done + ActivityTail(activity, ratio, rw, semester))
  {
    newTotal := total;
    if activity.distribution.None? {
      assert done + [] == done;
      return true, newTotal;
    }
    var d := activity.distribution.value;
    ghost var added := ActivityContributions(d, ratio, rw, semester);
    assert done + added[..0] == done;
    var j := 0;
    while j < |d|
      invariant 0 <= j <= |d|
      invariant forall k :: 0 <= k < j ==> 1 <= d[k].week <= workload.Length
      invariant Accumulated(workload[..], newTotal, done + added[..j])
    {
      var weekNumber := d[j].week;
      if !(1 <= weekNumber <= workload.Length) {
        InWeeksAt(d, workload.Length);
        return false, newTotal;
      }
      var studyHours := StudyHours(d, j, ratio, rw, semester);
      AddEntry(workload[..], newTotal, done, d, j, ratio, rw, semester);
      workload[weekNumber - 1] := workload[weekNumber - 1] + studyHours;
      newTotal := newTotal + studyHours;
      j := j + 1;
    }
    assert added[..|d|] == added;
    InWeeksAt(d, workload.Length);
    ok := true;
  }

  /// Once the whole schedule has been added, the week array and the total
  /// are the allocation the call returns.
  lemma AllocationFromArray(schedule: seq<Activity>, hours: seq<real>, total: real, privateStudyTime: real,
                            ratio: real, rw: ReadingWeeks, semester: string)
    requires ScheduleInWeeks(schedule, |hours|)
    requires Accumulated(hours, total, Contributions(schedule, ratio, rw, semester))
    ensures PrivateStudyAllocation(schedule, privateStudyTime, ratio, |hours|, rw, semester)
      == Ok(Allocation(seq(|hours|, i requires 0 <= i < |hours| => WeekHours(i + 1, hours[i])),
                       Max(privateStudyTime - total, 0.0), total))
  {
    var cs := Contributions(schedule, ratio, rw, semester);
    assert seq(|hours|, i requires 0 <= i < |hours| => WeekHours(i + 1, hours[i])) == Spread(cs, |hours|);
  }

  /// The outer `forEach` over the teaching schedule: adds every activity
  /// in turn, and stops at the first that throws.
  method AddSchedule(workload: array<real>, schedule: seq<Activity>, ratio: real, rw: ReadingWeeks, semester: string)
    returns (ok: bool, total: real)
    requires Accumulated(workload[..], 0.0, [])
    modifies workload
    ensures ok <==> ScheduleInWeeks(schedule, workload.Length)
    ensures ok ==> Accumulated(workload[..], total, Contributions(schedule, ratio, rw, semester))
  {
    total := 0.0;
    var a := 0;
    while a < |schedule|
      invariant 0 <= a <= |schedule|
      invariant PrefixInWeeks(schedule, a, workload.Length)
      invariant Accumulated(workload[..], total, ContributionsOf(schedule, a, ratio, rw, semester))
    {
      assert ContributionsOf(schedule, a + 1, ratio, rw, semester) ==
        ContributionsOf(schedule, a, ratio, rw, semester) + ActivityTail(schedule[a], ratio, rw, semester);
      var added;
      added, total := AddActivity(workload, total, schedule[a], ratio, rw, semester,
                                  ContributionsOf(schedule, a, ratio, rw, semester));
      if !added {
        PrefixFails(schedule, a + 1, |schedule|, workload.Length);
        return false, total;
      }
      a := a + 1;
    }
    ok := true;
  }

  /// `calculatePrivateStudyDistribution`: a zeroed array of weekly hours,
  /// filled activity by activity.
  method CalculatePrivateStudyDistribution(schedule: seq<Activity>, privateStudyTime: real, ratio: real,
                                           totalWeeks: nat, rw: ReadingWeeks, semester: string)
    returns (r: Result<Allocation, EngineError>)
    ensures r == PrivateStudyAllocation(schedule, privateStudyTime, ratio, totalWeeks, rw, semester)
  {
    var workload := new real[totalWeeks](i => 0.0);
    assert Accumulated(workload[..], 0.0, []);
    var ok, total := AddSchedule(workload, schedule, ratio, rw, semester);
    if !ok {
      return Err(PropertyOfUndefined);
    }
    var hours := workload[..];
    AllocationFromArray(schedule, hours, total, privateStudyTime, ratio, rw, semester);
    r := Ok(Allocation(seq(totalWeeks, i requires 0 <= i < totalWeeks => WeekHours(i + 1, hours[i])),
                       Max(privateStudyTime - total, 0.0), total));
  }

  // ----- The four ratio variants -----

  /// The private-study ratios, in the order of the variants.
  const Ratios: seq<real> := [0.0, 0.5, 1.0, 2.0]

  /// `ratio.toString()` for each of Ratios.
  const RatioTexts: seq<string> := ["0", "0.5", "1", "2"]

  /// `String.prototype.replace` with a one-character pattern: only the first
  /// occurrence is replaced.
  function ReplaceFirst(s: string, from: char, to: char): (r: string)
    ensures |r| == |s|
    ensures forall i :: 0 <= i < |s| ==> r[i] == if s[i] == from && from !in s[..i] then to else s[i]
  {
    if s == [] then []
    else if s[0] == from then [to] + s[1..]
    else
      var rest := ReplaceFirst(s[1..], from, to);
      assert forall i :: 1 <= i <= |s| ==> s[..i] == [s[0]] + s[1..][..i - 1];
      [s[0]] + rest
  }

  /// The `type` of the variant for Ratios[k].
  function RatioTag(k: nat): string
    requires k < 4
  {
    "ratio" + ReplaceFirst(RatioTexts[k], '.', '_')
  }

  /// The variant for Ratios[k]: the ratio-2 allocation that overshoots the
  /// private-study budget keeps a 4-hour buffer instead of 0.
  function Variant(k: nat, privateStudyTime: real, a: Allocation): PrivateStudyVariant
    requires k < 4
  {
    var remaining := if Ratios[k] == 2.0 && a.totalAllocatedTime > privateStudyTime then 4.0 else a.remainingTime;
    PrivateStudyVariant(RatioTag(k), a.distribution, remaining)
  }

  /// The four variant tags.
  lemma RatioTags()
    ensures RatioTag(0) == "ratio0" && RatioTag(1) == "ratio0_5" && RatioTag(2) == "ratio1" && RatioTag(3) == "ratio2"
  {
    assert RatioTexts[1][..0] == [] && RatioTexts[1][..1] == "0" && RatioTexts[1][..2] == "0.";
    assert ReplaceFirst(RatioTexts[1], '.', '_') == "0_5";
  }

  /// `calculatePrivateStudyDistributions`: one variant per ratio, or the
  /// error of the first ratio whose calculation throws.
  function PrivateStudyDistributions(schedule: seq<Activity>, c: Coursework, semester: string, rw: ReadingWeeks)
    : (r: Result<seq<PrivateStudyVariant>, EngineError>)
    ensures c.kind != "exam" ==> r == Err(NotExamCoursework)
    ensures c.kind == "exam" ==> (r.Err? <==> !ScheduleInWeeks(schedule, TotalWeeks(semester)))
    ensures r.Err? && c.kind == "exam" ==> r.error == PropertyOfUndefined
    ensures r.Ok? ==> |r.value| == 4 && forall k :: 0 <= k < 4 ==> r.value[k].tag == RatioTag(k)
    // Variant k is the allocation at ratio 0, 0.5, 1 or 2 (Ratios[k]).
    ensures r.Ok? ==> forall k :: 0 <= k < 4 ==>
      var a := PrivateStudyAllocation(schedule, c.privateStudyTime, Ratios[k], TotalWeeks(semester), rw, semester);
      && a.Ok?
      && r.value[k].distribution == a.value.distribution
      && r.value[k].remainingTime
         == if k == 3 && a.value.totalAllocatedTime > c.privateStudyTime then 4.0 else a.value.remainingTime
  {
    if c.kind != "exam" then Err(NotExamCoursework)
    else
      var n := TotalWeeks(semester);
      var first := PrivateStudyAllocation(schedule, c.privateStudyTime, Ratios[0], n, rw, semester);
      if first.Err? then Err(first.error)
      else
        Ok(seq(4, k requires 0 <= k < 4 =>
          Variant(k, c.privateStudyTime, PrivateStudyAllocation(schedule, c.privateStudyTime, Ratios[k], n, rw, semester).value)))
  }

  /// Every variant covers weeks 1..N and keeps a non-negative remaining
  /// time: what is left of the budget, except that the ratio-2 variant
  /// that overshoots the budget keeps a 4-hour buffer.
  lemma PrivateStudyVariantsShape(schedule: seq<Activity>, c: Coursework, semester: string, rw: ReadingWeeks)
    ensures var r := PrivateStudyDistributions(schedule, c, semester, rw);
      r.Ok? ==>
        && (forall k :: 0 <= k < 4 ==> ConsecutiveWeeks(r.value[k].distribution, 1, TotalWeeks(semester)))
        && (forall k :: 0 <= k < 4 ==> r.value[k].remainingTime >= 0.0)
        && (forall k :: 0 <= k < 3 ==>
              r.value[k].remainingTime == Max(c.privateStudyTime - TotalHours(r.value[k].distribution), 0.0))
        && r.value[3].remainingTime == (if TotalHours(r.value[3].distribution) > c.privateStudyTime then 4.0
                                        else c.privateStudyTime - TotalHours(r.value[3].distribution))
  {
    if PrivateStudyDistributions(schedule, c, semester, rw).Ok? {
      forall k | 0 <= k < 4 {
        VariantShapeAt(schedule, c, semester, rw, k);
      }
    }
  }

  /// PrivateStudyVariantsShape for the variant of Ratios[k].
  lemma VariantShapeAt(schedule: seq<Activity>, c: Coursework, semester: string, rw: ReadingWeeks, k: nat)
    requires k < 4 && PrivateStudyDistributions(schedule, c, semester, rw).Ok?
    ensures var v := PrivateStudyDistributions(schedule, c, semester, rw).value[k];
      var p := c.privateStudyTime;
      && ConsecutiveWeeks(v.distribution, 1, TotalWeeks(semester))
      && v.remainingTime >= 0.0
      && (k < 3 ==> v.remainingTime == Max(p - TotalHours(v.distribution), 0.0))
      && (k == 3 ==> v.remainingTime == if TotalHours(v.distribution) > p then 4.0 else p - TotalHours(v.distribution))
  {
    var v := PrivateStudyDistributions(schedule, c, semester, rw).value[k];
    var p := c.privateStudyTime;
    var a := PrivateStudyAllocation(schedule, p, Ratios[k], TotalWeeks(semester), rw, semester);
    assert a.Ok? && v.distribution == a.value.distribution;
    assert v.remainingTime == if k == 3 && a.value.totalAllocatedTime > p then 4.0 else a.value.remainingTime;
  }

  /// Rounding zero hours gives zero hours.
  lemma RoundZero()
    ensures RoundToNearestHalf(0.0) == 0.0
  {
    var r := RoundToNearestHalf(0.0);
    var f := (2.0 * r).Floor;
    assert f as real == 2.0 * r;
    assert -1 < f <= 0;
  }

  /// Contributions that are all zero give every week a zero total.
  lemma {:induction false} ZeroWeekTotal(cs: seq<WeekHours>, w: int)
    requires forall k :: 0 <= k < |cs| ==> cs[k].hours == 0.0
    ensures WeekTotal(cs, w) == 0.0
    decreases |cs|
  {
    if cs != [] {
      ZeroWeekTotal(cs[..|cs| - 1], w);
    }
  }

  /// At ratio 0 nothing is allocated: every week holds 0 and the whole
  /// private-study budget (if positive) remains.
  lemma ZeroRatioAllocatesNothing(schedule: seq<Activity>, privateStudyTime: real, totalWeeks: nat,
                                  rw: ReadingWeeks, semester: string)
    requires ScheduleInWeeks(schedule, totalWeeks)
    ensures var r := PrivateStudyAllocation(schedule, privateStudyTime, 0.0, totalWeeks, rw, semester);
      && r.Ok?
      && (forall i :: 0 <= i < totalWeeks ==> r.value.distribution[i].hours == 0.0)
      && r.value.totalAllocatedTime == 0.0
      && r.value.remainingTime == Max(privateStudyTime, 0.0)
  {
    var cs := Contributions(schedule, 0.0, rw, semester);
    ZeroContributions(schedule, rw, semester);
    forall w | 1 <= w <= totalWeeks ensures WeekTotal(cs, w) == 0.0 {
      ZeroWeekTotal(cs, w);
    }
    TotalHoursOfBlock(Spread(cs, totalWeeks), 0, 0, 0.0);
  }

  /// At ratio 0 every entry of one activity contributes 0 hours.
  lemma ZeroActivity(activity: Activity, rw: ReadingWeeks, semester: string)
    ensures forall k :: 0 <= k < |ActivityTail(activity, 0.0, rw, semester)| ==>
      ActivityTail(activity, 0.0, rw, semester)[k].hours == 0.0
  {
    if activity.distribution.Some? {
      var d := activity.distribution.value;
      forall k | 0 <= k < |d| ensures ActivityContributions(d, 0.0, rw, semester)[k].hours == 0.0 {
        ContributionAt(d, |d|, k, 0.0, rw, semester);
        var h := if k > 0 then d[k - 1].hours else d[k].hours;
        assert h * 0.0 == 0.0 && d[k].hours * 0.0 == 0.0;
        RoundZero();
      }
    }
  }

  /// At ratio 0 every contribution is 0 hours.
  lemma ZeroContributions(schedule: seq<Activity>, rw: ReadingWeeks, semester: string)
    ensures forall k :: 0 <= k < |Contributions(schedule, 0.0, rw, semester)| ==>
      Contributions(schedule, 0.0, rw, semester)[k].hours == 0.0
  {
    ZeroPrefix(schedule, |schedule|, rw, semester);
  }

  lemma {:induction false} ZeroPrefix(schedule: seq<Activity>, a: nat, rw: ReadingWeeks, semester: string)
    requires a <= |schedule|
    ensures forall k :: 0 <= k < |ContributionsOf(schedule, a, 0.0, rw, semester)| ==>
      ContributionsOf(schedule, a, 0.0, rw, semester)[k].hours == 0.0
    decreases a
  {
    if a > 0 {
      ZeroPrefix(schedule, a - 1, rw, semester);
      ZeroActivity(schedule[a - 1], rw, semester);
      var p: seq<WeekHours> := ContributionsOf(schedule, a - 1, 0.0, rw, semester);
      var q: seq<WeekHours> := ActivityTail(schedule[a - 1], 0.0, rw, semester);
      forall k | 0 <= k < |p + q| ensures (p + q)[k].hours == 0.0 {
        if k >= |p| {
          assert (p + q)[k] == q[k - |p|];
        }
      }
    }
  }

  /// Reading weeks carry contact time forward: an entry in a reading week
  /// that follows an entry outside one contributes exactly what that
  /// previous entry does; the first entry always counts its own hours.
  lemma ReadingWeekCarriesForward(d: seq<WeekHours>, i: nat, ratio: real, rw: ReadingWeeks, semester: string)
    requires i < |d|
    ensures var r := ActivityContributions(d, ratio, rw, semester);
      && (0 < i && IsReadingWeek(rw, semester, d[i].week) && !IsReadingWeek(rw, semester, d[i - 1].week) ==>
            r[i].hours == r[i - 1].hours)
      && (0 < |d| ==> r[0].hours == Scaled(d[0].hours, ratio))
  {
    var r := ActivityContributions(d, ratio, rw, semester);
    ContributionAt(d, |d|, 0, ratio, rw, semester);
    ContributionAt(d, |d|, i, ratio, rw, semester);
    if 0 < i {
      ContributionAt(d, |d|, i - 1, ratio, rw, semester);
    }
    assert r[0].hours == StudyHours(d, 0, ratio, rw, semester) == Scaled(d[0].hours, ratio);
    if 0 < i && IsReadingWeek(rw, semester, d[i].week) && !IsReadingWeek(rw, semester, d[i - 1].week) {
      assert r[i].hours == StudyHours(d, i, ratio, rw, semester) == Scaled(d[i - 1].hours, ratio);
      assert r[i - 1].hours == StudyHours(d, i - 1, ratio, rw, semester) == Scaled(d[i - 1].hours, ratio);
    }
  }
}
