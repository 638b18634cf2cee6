/// The values the distribution engine (server/src/utils/distributionCalculations.js)
/// reads and writes: weekly hour series, coursework items, teaching
/// activities and the tagged variants stored against a module.
module Workload {
  import opened Common
  import opened Helpers

  /// One entry `{ week, hours }` of a weekly distribution.
  datatype WeekHours = WeekHours(week: int, hours: real)

  /// `releasedWeekPrior`: a number of weeks, the text 'N/A', or absent.
  datatype Released = Weeks(count: int) | NotApplicable | Absent

  /// A coursework item as the engine reads it; `kind` is its `type` field
  /// ('exam' or anything else).
  datatype Coursework = Coursework(
    title: string,
    kind: string,
    weight: real,
    preparationTime: real,
    privateStudyTime: real,
    deadlineWeek: int,
    releasedWeekPrior: Released)

  /// One value of `teachingSchedule`; an activity without a distribution
  /// array contributes nothing.
  datatype Activity = Activity(hours: real, distribution: Option<seq<WeekHours>>)

  /// A preparation-time variant `{ type, distribution }`.
  datatype TaggedDistribution = TaggedDistribution(tag: string, distribution: seq<WeekHours>)

  /// A private-study variant `{ type, distribution, remainingTime }`.
  datatype PrivateStudyVariant = PrivateStudyVariant(tag: string, distribution: seq<WeekHours>, remainingTime: real)

  /// What the engine throws.
  datatype EngineError =
    | CourseworkUndefined           // 'Coursework is undefined'
    | InvalidStartWeek(week: int)   // 'Invalid actual start week: ...'
    | InvalidDeadlineWeek(week: int) // 'Invalid deadline week: ...'
    | UnknownStudyStyle(style: string)
    | NotExamCoursework             // private study asked for non-exam coursework
    | PropertyOfUndefined           // a TypeError: a property read on undefined
    | DataAggregationFailed         // 'Data aggregation failed'

  /// The study styles, in the order every variant list uses.
  const StudyStyles: seq<string> := ["earlyStarter", "steady", "justInTime"]

  /// The number of weeks of a semester as the engine reads its name
  /// (lower-cased): 33 for 'whole session', 18 for 'second', otherwise 15.
  function TotalWeeks(semester: string): (n: nat)
    ensures n == 15 || n == 18 || n == 33
  {
    var s := Lower(semester);
    if s == "whole session" then 33 else if s == "second" then 18 else 15
  }

  /// The sum of the hours of a distribution, added up from the front.
  function TotalHours(d: seq<WeekHours>): real {
    if d == [] then 0.0 else TotalHours(d[..|d| - 1]) + d[|d| - 1].hours
  }

  /// `d` has `n` entries numbered `first`, `first + 1`, ... in order.
  predicate ConsecutiveWeeks(d: seq<WeekHours>, first: int, n: nat) {
    |d| == n && forall i :: 0 <= i < n ==> d[i].week == first + i
  }

  /// Every entry of `d` is a whole number of half hours.
  predicate HalfHours(d: seq<WeekHours>) {
    forall i :: 0 <= i < |d| ==> IsHalfMultiple(d[i].hours)
  }

  lemma {:induction false} TotalHoursAppend(a: seq<WeekHours>, b: seq<WeekHours>)
    ensures TotalHours(a + b) == TotalHours(a) + TotalHours(b)
    decreases |b|
  {
    if b != [] {
      var b' := b[..|b| - 1];
      assert (a + b)[..|a + b| - 1] == a + b';
      TotalHoursAppend(a, b');
    } else {
      assert a + b == a;
    }
  }

  /// A distribution holding `v` on the indices `lo .. hi - 1` and 0 elsewhere
  /// adds up to `(hi - lo) * v`.
  lemma {:induction false} TotalHoursOfBlock(d: seq<WeekHours>, lo: nat, hi: nat, v: real)
    requires lo <= hi <= |d|
    requires forall i :: 0 <= i < |d| ==> d[i].hours == if lo <= i < hi then v else 0.0
    ensures TotalHours(d) == (hi - lo) as real * v
    decreases |d|
  {
    if d != [] {
      var d' := d[..|d| - 1];
      if hi == |d| && lo < hi {
        TotalHoursOfBlock(d', lo, hi - 1, v);
      } else if hi == |d| {
        TotalHoursOfBlock(d', 0, 0, v);
      } else {
        TotalHoursOfBlock(d', lo, hi, v);
      }
    }
  }

  /// Entries past index `k` that hold no hours do not change the total.
  lemma {:induction false} TotalHoursZeroTail(d: seq<WeekHours>, k: nat)
    requires k <= |d|
    requires forall i :: k <= i < |d| ==> d[i].hours == 0.0
    ensures TotalHours(d) == TotalHours(d[..k])
    decreases |d|
  {
    if |d| > k {
      var d' := d[..|d| - 1];
      assert d'[..k] == d[..k];
      TotalHoursZeroTail(d', k);
    } else {
      assert d[..k] == d;
    }
  }

  /// Raising entry `k` by `h` (and nothing else) raises the total by `h`.
  lemma {:induction false} TotalHoursBump(d: seq<WeekHours>, e: seq<WeekHours>, k: nat, h: real)
    requires |d| == |e|
    requires forall i :: 0 <= i < |d| ==> e[i].hours == d[i].hours + if i == k then h else 0.0
    ensures TotalHours(e) == TotalHours(d) + if k < |d| then h else 0.0
    decreases |d|
  {
    if d != [] {
      TotalHoursBump(d[..|d| - 1], e[..|e| - 1], k, h);
    }
  }
}
