/// The client-side helpers of the module-creation form's teaching schedule:
/// the grid of contact hours (one table per semester, one row per
/// activity, one cell per week), its conversion to and from the saved
/// per-activity distributions, reading-week zeroing and cell edits.
module TeachingSchedule {
  import opened Common
  import opened ClientNumbers

  /// `number[][][]`: tables, rows, weekly cells.
  type Grid = seq<seq<seq<JsNumber>>>

  /// One `{ week, hours }` item of a saved distribution.
  datatype Entry = Entry(week: int, hours: JsNumber)

  /// One activity of `TeachingScheduleSaveData`. An activity object that is
  /// absent altogether reads like one whose distribution is absent.
  datatype SavedActivity = SavedActivity(hours: JsNumber, distribution: Option<seq<Entry>>)

  datatype ScheduleError =
    | TemplateUndefined      // `templateData[0][0].length` read on a missing table or row
    | InvalidTemplateType    // 'Invalid template type'

  /// The rows of a table, in order.
  const ActivityKeys: seq<string> :=
    ["lectures", "tutorials", "labs", "seminars", "fieldworkPlacement", "other"]

  const FirstSemesterWeeks := 15
  const SecondSemesterWeeks := 18
  const WholeSessionWeeks := 33

  // ---------------------------------------------------------------------
  // getSemesterHeading

  /// The table heading for a semester name: `First` and `Second` have fixed
  /// headings, any other name is capitalised (`charAt(0).toUpperCase()`).
  function SemesterHeading(semester: string): (r: string)
    ensures |r| == |semester| + 9
    ensures r[|semester|..] == " Semester"
  {
    if semester == "First" then "First Semester"
    else if semester == "Second" then "Second Semester"
    else (if |semester| == 0 then "" else [UpperChar(semester[0])] + semester[1..]) + " Semester"
  }

  /// Every branch agrees with upper-casing the first letter: the two fixed
  /// headings are what the general rule gives anyway.
  lemma HeadingCapitalisesFirstLetter(semester: string)
    ensures var r := SemesterHeading(semester);
      forall i :: 0 <= i < |semester| ==>
        r[i] == if i == 0 then UpperChar(semester[0]) else semester[i]
  {
    var r := SemesterHeading(semester);
    if semester == "First" {
      assert r == "First Semester";
    } else if semester == "Second" {
      assert r == "Second Semester";
    }
  }

  // ---------------------------------------------------------------------
  // Distributions

  /// The first week of table `tableIndex`: the second table starts at week 16.
  function StartWeek(tableIndex: nat): int {
    if tableIndex == 0 then 1 else 16
  }

  predicate Consecutive(d: seq<Entry>, start: int) {
    forall i :: 0 <= i < |d| ==> d[i].week == start + i
  }

  /// `row.map((hours, weekIndex) => ({ week: startWeek + weekIndex, hours }))`.
  function RowEntries(row: seq<JsNumber>, startWeek: int): (d: seq<Entry>)
    ensures |d| == |row| && Consecutive(d, startWeek)
    ensures forall i :: 0 <= i < |d| ==> d[i].hours == row[i]
  {
    seq(|row|, i requires 0 <= i < |row| => Entry(startWeek + i, row[i]))
  }

  /// `reduce((total, dist) => total + dist.hours, 0)`.
  function EntriesTotal(d: seq<Entry>): JsNumber {
    if |d| == 0 then Finite(0.0) else JsAdd(EntriesTotal(d[..|d| - 1]), d[|d| - 1].hours)
  }

  lemma {:induction false} EntriesTotalAppend(a: seq<Entry>, b: seq<Entry>)
    ensures EntriesTotal(a + b) == JsAdd(EntriesTotal(a), EntriesTotal(b))
  {
    if |b| == 0 {
      assert a + b == a;
    } else {
      assert (a + b)[..|a + b| - 1] == a + b[..|b| - 1];
      EntriesTotalAppend(a, b[..|b| - 1]);
    }
  }

  /// The hours of the last entry for `week`, or 0: what a slot holds after
  /// the entries were written into it in order, each overwriting the last.
  function LastHours(d: seq<Entry>, week: int): JsNumber {
    if |d| == 0 then Finite(0.0)
    else if d[|d| - 1].week == week then d[|d| - 1].hours
    else LastHours(d[..|d| - 1], week)
  }

  lemma {:induction false} LastHoursOfConsecutive(d: seq<Entry>, start: int, week: int)
    requires Consecutive(d, start)
    ensures LastHours(d, week) ==
      if start <= week < start + |d| then d[week - start].hours else Finite(0.0)
  {
    if |d| > 0 && d[|d| - 1].week != week {
      LastHoursOfConsecutive(d[..|d| - 1], start, week);
    }
  }

  // ---------------------------------------------------------------------
  // transformTemplateDataToSaveData

  /// The hours of activity `k` after the first `n` tables.
  function ActivityHours(grid: Grid, k: nat, n: nat): JsNumber
    requires n <= |grid|
  {
    if n == 0 then Finite(0.0)
    else if k < |grid[n - 1]| then
      JsAdd(ActivityHours(grid, k, n - 1), EntriesTotal(RowEntries(grid[n - 1][k], StartWeek(n - 1))))
    else ActivityHours(grid, k, n - 1)
  }

  /// The distribution of activity `k` after the first `n` tables: absent
  /// until a table has row `k`, then the row entries of every table in turn.
  function Collected(grid: Grid, k: nat, n: nat): Option<seq<Entry>>
    requires n <= |grid|
  {
    if n == 0 then None
    else if k < |grid[n - 1]| then
      Some(Collected(grid, k, n - 1).GetOr([]) + RowEntries(grid[n - 1][k], StartWeek(n - 1)))
    else Collected(grid, k, n - 1)
  }

  /// Weeks 1..`totalWeeks`, each holding the last entry written for it, or 0.
  function Padded(d: seq<Entry>, totalWeeks: nat): (r: seq<Entry>)
    ensures |r| == totalWeeks && Consecutive(r, 1)
  {
    seq(totalWeeks, i requires 0 <= i < totalWeeks => Entry(i + 1, LastHours(d, i + 1)))
  }

  /// Padding is the identity on a distribution that already covers weeks
  /// 1..`totalWeeks` exactly.
  lemma PaddedKeepsFullDistribution(d: seq<Entry>)
    requires Consecutive(d, 1)
    ensures Padded(d, |d|) == d
  {
    forall i | 0 <= i < |d|
      ensures Padded(d, |d|)[i] == d[i]
    {
      LastHoursOfConsecutive(d, 1, i + 1);
    }
  }

  predicate ReadableTemplate(grid: Grid) {
    |grid| == 2 || (|grid| > 0 && |grid[0]| > 0)
  }

  function TotalWeeks(grid: Grid): nat
    requires ReadableTemplate(grid)
  {
    if |grid| == 2 then WholeSessionWeeks else |grid[0][0]|
  }

  function SavedOf(grid: Grid, k: nat, totalWeeks: nat): SavedActivity {
    var collected := Collected(grid, k, |grid|);
    SavedActivity(ActivityHours(grid, k, |grid|),
                  if collected.Some? then Some(Padded(collected.value, totalWeeks)) else None)
  }

  /// What `transformTemplateDataToSaveData` returns, activity by activity
  /// in the order of `ActivityKeys`.
  function SaveData(grid: Grid): (r: Result<seq<SavedActivity>, ScheduleError>)
    ensures r.Err? <==> !ReadableTemplate(grid)
    ensures r.Ok? ==> |r.value| == |ActivityKeys|
  {
    if !ReadableTemplate(grid) then Err(TemplateUndefined)
    else Ok(seq(6, k requires 0 <= k < 6 => SavedOf(grid, k, TotalWeeks(grid))))
  }

  /// `fullDistribution.findIndex((fd) => fd.week === week)`.
  function FindWeek(s: seq<Entry>, week: int): (r: int)
    ensures -1 <= r < |s|
    ensures r >= 0 ==> s[r].week == week && forall i :: 0 <= i < r ==> s[i].week != week
    ensures r == -1 ==> forall i :: 0 <= i < |s| ==> s[i].week != week
  {
    if |s| == 0 then -1
    else if s[0].week == week then 0
    else
      var r := FindWeek(s[1..], week);
      if r == -1 then -1 else r + 1
  }

  /// Adds one table's rows to the running hours and distributions; rows
  /// past the sixth have no activity key and are skipped.
  method AccumulateTable(grid: Grid, s: nat, hours: seq<JsNumber>, dists: seq<Option<seq<Entry>>>)
    returns (hours': seq<JsNumber>, dists': seq<Option<seq<Entry>>>)
    requires s < |grid| && |hours| == 6 && |dists| == 6
    requires forall k :: 0 <= k < 6 ==> hours[k] == ActivityHours(grid, k, s)
    requires forall k :: 0 <= k < 6 ==> dists[k] == Collected(grid, k, s)
    ensures |hours'| == 6 && |dists'| == 6
    ensures forall k :: 0 <= k < 6 ==> hours'[k] == ActivityHours(grid, k, s + 1)
    ensures forall k :: 0 <= k < 6 ==> dists'[k] == Collected(grid, k, s + 1)
  {
    hours', dists' := hours, dists;
    var startWeek := StartWeek(s);
    for r := 0 to |grid[s]|
      invariant |hours'| == 6 && |dists'| == 6
      invariant forall k :: 0 <= k < 6 && k < r ==> hours'[k] == ActivityHours(grid, k, s + 1)
      invariant forall k :: r <= k < 6 ==> hours'[k] == hours[k]
      invariant forall k :: 0 <= k < 6 && k < r ==> dists'[k] == Collected(grid, k, s + 1)
      invariant forall k :: r <= k < 6 ==> dists'[k] == dists[k]
    {
      if r < 6 {
        var distribution := RowEntries(grid[s][r], startWeek);
        hours' := hours'[r := JsAdd(hours'[r], EntriesTotal(distribution))];
        var previous := if dists'[r].Some? then dists'[r].value else [];
        dists' := dists'[r := Some(previous + distribution)];
      }
    }
  }

  /// Writes each entry over the zero-filled slot of its week, ignoring
  /// entries whose week is outside 1..`totalWeeks`.
  method PadDistribution(d: seq<Entry>, totalWeeks: nat) returns (full: seq<Entry>)
    ensures full == Padded(d, totalWeeks)
  {
    var slots := new Entry[totalWeeks](i => Entry(i + 1, Finite(0.0)));
    for j := 0 to |d|
      invariant forall i :: 0 <= i < totalWeeks ==> slots[i] == Entry(i + 1, LastHours(d[..j], i + 1))
    {
      assert d[..j + 1][..j] == d[..j];
      var index := FindWeek(slots[..], d[j].week);
      assert 1 <= d[j].week <= totalWeeks ==> slots[d[j].week - 1].week == d[j].week;
      if index != -1 {
        slots[index] := d[j];
      }
    }
    assert d[..|d|] == d;
    full := slots[..];
  }

  /// The first pass: every table's rows added into the six activities,
  /// each starting from `{ hours: 0 }` with no distribution.
  method CollectTables(grid: Grid) returns (hours: seq<JsNumber>, dists: seq<Option<seq<Entry>>>)
    ensures |hours| == 6 && |dists| == 6
    ensures forall k :: 0 <= k < 6 ==> hours[k] == ActivityHours(grid, k, |grid|)
    ensures forall k :: 0 <= k < 6 ==> dists[k] == Collected(grid, k, |grid|)
  {
    hours := seq(6, _ => Finite(0.0));
    dists := seq(6, _ => None);
    for s := 0 to |grid|
      invariant |hours| == 6 && |dists| == 6
      invariant forall k :: 0 <= k < 6 ==> hours[k] == ActivityHours(grid, k, s)
      invariant forall k :: 0 <= k < 6 ==> dists[k] == Collected(grid, k, s)
    {
      hours, dists := AccumulateTable(grid, s, hours, dists);
    }
  }

  /// The second pass: each distribution present is padded to `totalWeeks`.
  method PadActivities(hours: seq<JsNumber>, dists: seq<Option<seq<Entry>>>, totalWeeks: nat)
    returns (saved: seq<SavedActivity>)
    requires |hours| == 6 && |dists| == 6
    ensures |saved| == 6
    ensures forall k :: 0 <= k < 6 ==> saved[k].hours == hours[k]
    ensures forall k :: 0 <= k < 6 ==> saved[k].distribution.Some? == dists[k].Some?
    ensures forall k :: 0 <= k < 6 && dists[k].Some? ==>
      saved[k].distribution.value == Padded(dists[k].value, totalWeeks)
  {
    saved := [];
    for k := 0 to 6
      invariant |saved| == k
      invariant forall j :: 0 <= j < k ==> saved[j].hours == hours[j]
      invariant forall j :: 0 <= j < k ==> saved[j].distribution.Some? == dists[j].Some?
      invariant forall j :: 0 <= j < k && dists[j].Some? ==>
        saved[j].distribution.value == Padded(dists[j].value, totalWeeks)
    {
      var distribution := dists[k];
      if distribution.Some? {
        var full := PadDistribution(distribution.value, totalWeeks);
        distribution := Some(full);
      }
      saved := saved + [SavedActivity(hours[k], distribution)];
    }
  }

  method TransformTemplateDataToSaveData(grid: Grid) returns (r: Result<seq<SavedActivity>, ScheduleError>)
    ensures r == SaveData(grid)
  {
    if !ReadableTemplate(grid) {
      return Err(TemplateUndefined);
    }
    var totalWeeks := if |grid| == 2 then WholeSessionWeeks else |grid[0][0]|;
    var hours, dists := CollectTables(grid);
    var saved := PadActivities(hours, dists, totalWeeks);
    assert forall k :: 0 <= k < 6 ==> saved[k] == SavedOf(grid, k, totalWeeks);
    assert saved == seq(6, k requires 0 <= k < 6 => SavedOf(grid, k, TotalWeeks(grid)));
    return Ok(saved);
  }

  // ---------------------------------------------------------------------
  // Shape of the saved data

  /// Each saved distribution lists weeks 1..`TotalWeeks` in order, and an
  /// activity has one exactly when some table has its row.
  lemma SavedDistributionsCoverAllWeeks(grid: Grid, k: nat)
    requires ReadableTemplate(grid) && k < 6
    ensures var a := SaveData(grid).value[k];
      (a.distribution.Some? <==> exists s :: 0 <= s < |grid| && k < |grid[s]|)
      && (a.distribution.Some? ==>
            |a.distribution.value| == TotalWeeks(grid) && Consecutive(a.distribution.value, 1))
  {
    CollectedPresence(grid, k, |grid|);
  }

  lemma {:induction false} CollectedPresence(grid: Grid, k: nat, n: nat)
    requires n <= |grid|
    ensures Collected(grid, k, n).Some? <==> exists s :: 0 <= s < n && k < |grid[s]|
  {
    if n > 0 {
      CollectedPresence(grid, k, n - 1);
    }
  }

  /// A 'first' template: six rows of 15 weeks.
  predicate FirstTemplate(grid: Grid) {
    |grid| == 1 && |grid[0]| == 6
    && forall k :: 0 <= k < 6 ==> |grid[0][k]| == FirstSemesterWeeks
  }

  /// A 'whole session' template: six rows of 15 weeks, then six of 18.
  predicate WholeSessionTemplate(grid: Grid) {
    |grid| == 2 && |grid[0]| == 6 && |grid[1]| == 6
    && (forall k :: 0 <= k < 6 ==> |grid[0][k]| == FirstSemesterWeeks)
    && (forall k :: 0 <= k < 6 ==> |grid[1][k]| == SecondSemesterWeeks)
  }

  /// For the two templates that fill weeks 1..TotalWeeks, the distribution
  /// saved for an activity is its rows' cells in week order.
  lemma SavedDistributionOfTemplate(grid: Grid, k: nat)
    requires FirstTemplate(grid) || WholeSessionTemplate(grid)
    requires k < 6
    ensures var c := Collected(grid, k, |grid|);
      c.Some? && Consecutive(c.value, 1) && |c.value| == TotalWeeks(grid)
      && SaveData(grid).value[k].distribution == c
      && c.value == if |grid| == 1 then RowEntries(grid[0][k], 1)
                    else RowEntries(grid[0][k], 1) + RowEntries(grid[1][k], 16)
  {
    var first := RowEntries(grid[0][k], 1);
    assert Collected(grid, k, 1) == Some(first) by {
      assert [] + first == first;
    }
    if |grid| == 2 {
      var second := RowEntries(grid[1][k], 16);
      var c := first + second;
      assert Collected(grid, k, 2) == Some(c);
      assert Consecutive(c, 1) by {
        forall i | 0 <= i < |c| ensures c[i].week == 1 + i {
          if i >= |first| {
            assert c[i] == second[i - |first|];
          }
        }
      }
      PaddedKeepsFullDistribution(c);
    } else {
      PaddedKeepsFullDistribution(first);
    }
  }

  /// For the two full templates the saved hours of an activity are the sum
  /// of its saved distribution (`NaN` when a cell is `NaN`).
  lemma SavedHoursAreDistributionTotal(grid: Grid, k: nat)
    requires FirstTemplate(grid) || WholeSessionTemplate(grid)
    requires k < 6
    ensures var a := SaveData(grid).value[k];
      a.distribution.Some? && a.hours == EntriesTotal(a.distribution.value)
  {
    SavedDistributionOfTemplate(grid, k);
    var first := RowEntries(grid[0][k], 1);
    assert ActivityHours(grid, k, 1) == JsAdd(Finite(0.0), EntriesTotal(first));
    if |grid| == 2 {
      EntriesTotalAppend(first, RowEntries(grid[1][k], 16));
    }
  }

  // ---------------------------------------------------------------------
  // transformEditingDataToTemplateData

  /// `distribution.filter(...)` on the week of each item.
  function Keep(d: seq<Entry>, p: int -> bool): seq<Entry> {
    if |d| == 0 then []
    else Keep(d[..|d| - 1], p) + (if p(d[|d| - 1].week) then [d[|d| - 1]] else [])
  }

  lemma {:induction false} KeptItems(d: seq<Entry>, p: int -> bool)
    ensures forall e :: e in Keep(d, p) <==> e in d && p(e.week)
  {
    if |d| > 0 {
      KeptItems(d[..|d| - 1], p);
      assert d == d[..|d| - 1] + [d[|d| - 1]];
    }
  }

  lemma {:induction false} LastHoursOfKept(d: seq<Entry>, p: int -> bool, week: int)
    ensures LastHours(Keep(d, p), week) == if p(week) then LastHours(d, week) else Finite(0.0)
  {
    if |d| > 0 {
      LastHoursOfKept(d[..|d| - 1], p, week);
      var front := Keep(d[..|d| - 1], p);
      if p(d[|d| - 1].week) {
        assert (front + [d[|d| - 1]])[..|front|] == front;
      } else {
        assert front + [] == front;
      }
    }
  }

  /// `splitDistribution`: the items up to `firstWeeks`, and the items of
  /// the `secondWeeks` weeks after those.
  function SplitDistribution(d: seq<Entry>, firstWeeks: int, secondWeeks: int): (seq<Entry>, seq<Entry>) {
    (Keep(d, w => w <= firstWeeks), Keep(d, w => firstWeeks < w <= firstWeeks + secondWeeks))
  }

  /// The two halves hold exactly the items of their weeks.
  lemma SplitDistributionItems(d: seq<Entry>, firstWeeks: int, secondWeeks: int)
    ensures var (first, second) := SplitDistribution(d, firstWeeks, secondWeeks);
      (forall e :: e in first <==> e in d && e.week <= firstWeeks)
      && (forall e :: e in second <==> e in d && firstWeeks < e.week <= firstWeeks + secondWeeks)
  {
    KeptItems(d, w => w <= firstWeeks);
    KeptItems(d, w => firstWeeks < w <= firstWeeks + secondWeeks);
  }

  /// The row `createWeekArray` builds: slot `i` holds the hours of the last
  /// item for week `startWeek + i`, or 0.
  function WeekArray(d: seq<Entry>, weeks: nat, startWeek: int): (r: seq<JsNumber>)
    ensures |r| == weeks
  {
    seq(weeks, i requires 0 <= i < weeks => LastHours(d, startWeek + i))
  }

  method CreateWeekArray(d: seq<Entry>, weeks: nat, startWeek: int) returns (r: seq<JsNumber>)
    ensures r == WeekArray(d, weeks, startWeek)
  {
    var weekArray := new JsNumber[weeks](_ => Finite(0.0));
    for j := 0 to |d|
      invariant forall i :: 0 <= i < weeks ==> weekArray[i] == LastHours(d[..j], startWeek + i)
    {
      assert d[..j + 1][..j] == d[..j];
      var index := d[j].week - startWeek;
      if 0 <= index < weeks {
        weekArray[index] := d[j].hours;
      }
    }
    assert d[..|d|] == d;
    r := weekArray[..];
  }

  predicate TableShape(table: seq<seq<JsNumber>>, weeks: nat) {
    |table| == 6 && forall k :: 0 <= k < 6 ==> |table[k]| == weeks
  }

  function SemesterData(parts: seq<seq<Entry>>, weeks: nat, startWeek: int): (table: seq<seq<JsNumber>>)
    requires |parts| == 6
    ensures TableShape(table, weeks)
  {
    seq(6, k requires 0 <= k < 6 => WeekArray(parts[k], weeks, startWeek))
  }

  method CreateSemesterData(parts: seq<seq<Entry>>, weeks: nat, startWeek: int) returns (table: seq<seq<JsNumber>>)
    requires |parts| == 6
    ensures table == SemesterData(parts, weeks, startWeek)
  {
    var lectures := CreateWeekArray(parts[0], weeks, startWeek);
    var tutorials := CreateWeekArray(parts[1], weeks, startWeek);
    var labs := CreateWeekArray(parts[2], weeks, startWeek);
    var seminars := CreateWeekArray(parts[3], weeks, startWeek);
    var fieldwork := CreateWeekArray(parts[4], weeks, startWeek);
    var other := CreateWeekArray(parts[5], weeks, startWeek);
    table := [lectures, tutorials, labs, seminars, fieldwork, other];
  }

  function FirstParts(save: seq<SavedActivity>): (parts: seq<seq<Entry>>)
    requires |save| == 6
    ensures |parts| == 6
  {
    seq(6, k requires 0 <= k < 6 =>
      SplitDistribution(save[k].distribution.GetOr([]), FirstSemesterWeeks, SecondSemesterWeeks).0)
  }

  function SecondParts(save: seq<SavedActivity>): (parts: seq<seq<Entry>>)
    requires |save| == 6
    ensures |parts| == 6
  {
    seq(6, k requires 0 <= k < 6 =>
      SplitDistribution(save[k].distribution.GetOr([]), FirstSemesterWeeks, SecondSemesterWeeks).1)
  }

  /// What `transformEditingDataToTemplateData` returns.
  function TemplateData(save: seq<SavedActivity>, templateType: string): (r: Result<Grid, ScheduleError>)
    requires |save| == 6
    ensures r.Err? <==> templateType !in {"first", "second", "whole session"}
    ensures templateType == "first" ==> r.Ok? && |r.value| == 1 && TableShape(r.value[0], 15)
    ensures templateType == "second" ==> r.Ok? && |r.value| == 1 && TableShape(r.value[0], 18)
    ensures templateType == "whole session" ==>
      r.Ok? && |r.value| == 2 && TableShape(r.value[0], 15) && TableShape(r.value[1], 18)
  {
    var first := SemesterData(FirstParts(save), FirstSemesterWeeks, 1);
    var second := SemesterData(SecondParts(save), SecondSemesterWeeks, FirstSemesterWeeks + 1);
    if templateType == "first" then Ok([first])
    else if templateType == "second" then Ok([second])
    else if templateType == "whole session" then Ok([first, second])
    else Err(InvalidTemplateType)
  }

  method TransformEditingDataToTemplateData(save: seq<SavedActivity>, templateType: string)
    returns (r: Result<Grid, ScheduleError>)
    requires |save| == 6
    ensures r == TemplateData(save, templateType)
  {
    var firstParts := FirstParts(save);
    var secondParts := SecondParts(save);
    if templateType == "first" {
      var first := CreateSemesterData(firstParts, FirstSemesterWeeks, 1);
      r := Ok([first]);
    } else if templateType == "second" {
      var second := CreateSemesterData(secondParts, SecondSemesterWeeks, FirstSemesterWeeks + 1);
      r := Ok([second]);
    } else if templateType == "whole session" {
      var first := CreateSemesterData(firstParts, FirstSemesterWeeks, 1);
      var second := CreateSemesterData(secondParts, SecondSemesterWeeks, FirstSemesterWeeks + 1);
      r := Ok([first, second]);
    } else {
      r := Err(InvalidTemplateType);
    }
  }

  // ---------------------------------------------------------------------
  // Round trips

  /// What the first half of a distribution listing weeks 1, 2, ... in
  /// order holds for `week`.
  lemma ReadFirstHalf(d: seq<Entry>, week: int)
    requires Consecutive(d, 1)
    ensures LastHours(SplitDistribution(d, FirstSemesterWeeks, SecondSemesterWeeks).0, week) ==
      if 1 <= week <= |d| && week <= FirstSemesterWeeks then d[week - 1].hours else Finite(0.0)
  {
    LastHoursOfKept(d, w => w <= FirstSemesterWeeks, week);
    LastHoursOfConsecutive(d, 1, week);
  }

  /// What the second half of such a distribution holds for `week`.
  lemma ReadSecondHalf(d: seq<Entry>, week: int)
    requires Consecutive(d, 1)
    ensures LastHours(SplitDistribution(d, FirstSemesterWeeks, SecondSemesterWeeks).1, week) ==
      if 1 <= week <= |d| && FirstSemesterWeeks < week <= WholeSessionWeeks then d[week - 1].hours
      else Finite(0.0)
  {
    LastHoursOfKept(d, w => FirstSemesterWeeks < w <= FirstSemesterWeeks + SecondSemesterWeeks, week);
    LastHoursOfConsecutive(d, 1, week);
  }

  /// A 'first' template survives saving and reading back.
  lemma FirstTemplateRoundTrip(grid: Grid)
    requires FirstTemplate(grid)
    ensures SaveData(grid).Ok?
    ensures TemplateData(SaveData(grid).value, "first") == Ok(grid)
  {
    var save := SaveData(grid).value;
    var parts := FirstParts(save);
    var table := SemesterData(parts, 15, 1);
    forall k | 0 <= k < 6
      ensures table[k] == grid[0][k]
    {
      SavedDistributionOfTemplate(grid, k);
      var d := save[k].distribution.value;
      forall i | 0 <= i < 15
        ensures table[k][i] == grid[0][k][i]
      {
        assert table[k][i] == LastHours(parts[k], 1 + i);
        ReadFirstHalf(d, 1 + i);
      }
    }
    assert table == grid[0];
    assert [table] == grid;
  }

  /// A 'whole session' template survives saving and reading back.
  lemma WholeSessionTemplateRoundTrip(grid: Grid)
    requires WholeSessionTemplate(grid)
    ensures SaveData(grid).Ok?
    ensures TemplateData(SaveData(grid).value, "whole session") == Ok(grid)
  {
    var save := SaveData(grid).value;
    var firstParts := FirstParts(save);
    var secondParts := SecondParts(save);
    var first := SemesterData(firstParts, 15, 1);
    var second := SemesterData(secondParts, 18, 16);
    forall k | 0 <= k < 6
      ensures first[k] == grid[0][k] && second[k] == grid[1][k]
    {
      SavedDistributionOfTemplate(grid, k);
      var d := save[k].distribution.value;
      var rows := RowEntries(grid[0][k], 1) + RowEntries(grid[1][k], 16);
      forall i | 0 <= i < 15
        ensures first[k][i] == grid[0][k][i]
      {
        assert first[k][i] == LastHours(firstParts[k], 1 + i);
        ReadFirstHalf(d, 1 + i);
        assert rows[i] == RowEntries(grid[0][k], 1)[i];
      }
      forall i | 0 <= i < 18
        ensures second[k][i] == grid[1][k][i]
      {
        assert second[k][i] == LastHours(secondParts[k], 16 + i);
        ReadSecondHalf(d, 16 + i);
        assert rows[15 + i] == RowEntries(grid[1][k], 16)[i];
      }
    }
    assert first == grid[0] && second == grid[1];
    assert [first, second] == grid;
  }

  /// A 'second' template does not survive: it is saved under weeks 1..18,
  /// but read back from weeks 16..33, so weeks 16..18 move to the first
  /// three columns and every other column reads 0.
  lemma SecondTemplateReadsShiftedWeeks(grid: Grid, k: nat, i: nat)
    requires |grid| == 1 && TableShape(grid[0], SecondSemesterWeeks)
    requires k < 6 && i < 18
    ensures SaveData(grid).Ok?
    ensures var r := TemplateData(SaveData(grid).value, "second");
      r.value[0][k][i] == if i < 3 then grid[0][k][15 + i] else Finite(0.0)
  {
    var save := SaveData(grid).value;
    var first := RowEntries(grid[0][k], 1);
    assert Collected(grid, k, 1) == Some(first) by {
      assert [] + first == first;
    }
    PaddedKeepsFullDistribution(first);
    assert TemplateData(save, "second").value[0][k][i] == LastHours(SecondParts(save)[k], 16 + i);
    ReadSecondHalf(first, 16 + i);
  }

  // ---------------------------------------------------------------------
  // updateTemplateDataForReadingWeek

  /// The reading weeks that apply to table `tableIndex`: a plain list
  /// applies to every table, `sem1` to the first and `sem2` to all others;
  /// anything else (or an absent member) gives none.
  function WeeksFor(readingWeeks: ReadingWeeks, tableIndex: nat): seq<int> {
    match readingWeeks
    case WeekList(weeks) => weeks
    case PerSemester(sem1, sem2) => (if tableIndex == 0 then sem1 else sem2).GetOr([])
    case Malformed => []
  }

  predicate SameShape(a: Grid, b: Grid) {
    |a| == |b|
    && (forall s :: 0 <= s < |a| ==> |a[s]| == |b[s]|)
    && (forall s, k :: 0 <= s < |a| && 0 <= k < |a[s]| ==> |a[s][k]| == |b[s][k]|)
  }

  function ZeroReadingWeeks(row: seq<JsNumber>, weeks: seq<int>): (r: seq<JsNumber>)
    ensures |r| == |row|
  {
    seq(|row|, i requires 0 <= i < |row| => if i + 1 in weeks then Finite(0.0) else row[i])
  }

  /// Cell `i` of every row of table `s` becomes 0 when week `i + 1` is a
  /// reading week of that table.
  function UpdateForReadingWeek(grid: Grid, readingWeeks: ReadingWeeks): (r: Grid)
    ensures SameShape(r, grid)
  {
    seq(|grid|, s requires 0 <= s < |grid| =>
      seq(|grid[s]|, k requires 0 <= k < |grid[s]| => ZeroReadingWeeks(grid[s][k], WeeksFor(readingWeeks, s))))
  }

  /// A cell reads 0 after the update exactly when it is in a reading week
  /// or already held 0; every other cell keeps its value.
  lemma ReadingWeekCells(grid: Grid, readingWeeks: ReadingWeeks, s: nat, k: nat, i: nat)
    requires s < |grid| && k < |grid[s]| && i < |grid[s][k]|
    ensures var c := UpdateForReadingWeek(grid, readingWeeks)[s][k][i];
      (i + 1 in WeeksFor(readingWeeks, s) ==> c == Finite(0.0))
      && (i + 1 !in WeeksFor(readingWeeks, s) ==> c == grid[s][k][i])
  {
  }

  /// Zeroing the reading weeks twice is zeroing them once.
  lemma {:induction false} ReadingWeekIdempotent(grid: Grid, readingWeeks: ReadingWeeks)
    ensures UpdateForReadingWeek(UpdateForReadingWeek(grid, readingWeeks), readingWeeks)
         == UpdateForReadingWeek(grid, readingWeeks)
  {
    var once := UpdateForReadingWeek(grid, readingWeeks);
    var twice := UpdateForReadingWeek(once, readingWeeks);
    forall s | 0 <= s < |grid|
      ensures twice[s] == once[s]
    {
      forall k | 0 <= k < |grid[s]|
        ensures twice[s][k] == once[s][k]
      {
        assert twice[s][k] == ZeroReadingWeeks(once[s][k], WeeksFor(readingWeeks, s));
      }
    }
  }

  // ---------------------------------------------------------------------
  // handleInputChange

  /// The edit as written: the "copy" is of the outer array only, so the
  /// cell is written into the row array that the previous state shares.
  /// `updated` is what reaches `setTemplateData`, or `None` when the setter
  /// is not called.
  method HandleInputChange(tableIndex: nat, rowIndex: nat, colIndex: nat, value: string,
                           templateData: array<array<array<JsNumber>>>, isReadingWeek: bool)
    returns (updated: Option<array<array<array<JsNumber>>>>)
    requires tableIndex < templateData.Length
    requires rowIndex < templateData[tableIndex].Length
    requires colIndex < templateData[tableIndex][rowIndex].Length
    modifies templateData[tableIndex][rowIndex]
    ensures isReadingWeek ==>
      updated.Some? && templateData[tableIndex][rowIndex][..]
                       == old(templateData[tableIndex][rowIndex][..])[colIndex := Finite(0.0)]
    ensures !isReadingWeek && value == "" ==>
      updated.Some? && templateData[tableIndex][rowIndex][..]
                       == old(templateData[tableIndex][rowIndex][..])[colIndex := NaN]
    ensures !isReadingWeek && value != "" && ParseInt(value).None? ==>
      updated.None? && templateData[tableIndex][rowIndex][..] == old(templateData[tableIndex][rowIndex][..])
    ensures !isReadingWeek && value != "" && ParseInt(value).Some? ==>
      updated.Some? && templateData[tableIndex][rowIndex][..]
                       == old(templateData[tableIndex][rowIndex][..])[colIndex := Finite(ParseInt(value).value as real)]
    ensures updated.Some? ==> fresh(updated.value) && updated.value[..] == templateData[..]
  {
    var copy := new array<array<JsNumber>>[templateData.Length](i requires 0 <= i < templateData.Length
                                                                 reads templateData => templateData[i]);
    var row := copy[tableIndex][rowIndex];
    if isReadingWeek {
      row[colIndex] := Finite(0.0);
      return Some(copy);
    }
    if value == "" {
      row[colIndex] := NaN;
      return Some(copy);
    }
    var parsed := ParseInt(value);
    if parsed.None? {
      return None;
    }
    row[colIndex] := Finite(parsed.value as real);
    return Some(copy);
  }

  /// The edit as the comment on it intends ("a deep copy ... to ensure
  /// immutability"): the table and row on the edited path are copied too,
  /// so the previous state is left exactly as it was.
  method HandleInputChangeCopying(tableIndex: nat, rowIndex: nat, colIndex: nat, value: string,
                                  templateData: array<array<array<JsNumber>>>, isReadingWeek: bool)
    returns (updated: Option<array<array<array<JsNumber>>>>)
    requires tableIndex < templateData.Length
    requires rowIndex < templateData[tableIndex].Length
    requires colIndex < templateData[tableIndex][rowIndex].Length
    ensures updated.None? <==> !isReadingWeek && value != "" && ParseInt(value).None?
    ensures updated.Some? ==>
      var cell := if isReadingWeek then Finite(0.0)
                  else if value == "" then NaN
                  else Finite(ParseInt(value).value as real);
      var data := updated.value;
      fresh(data) && data.Length == templateData.Length && fresh(data[tableIndex])
      && (forall t :: 0 <= t < data.Length && t != tableIndex ==> data[t] == templateData[t])
      && data[tableIndex].Length == templateData[tableIndex].Length && fresh(data[tableIndex][rowIndex])
      && (forall r :: 0 <= r < data[tableIndex].Length && r != rowIndex ==>
            data[tableIndex][r] == templateData[tableIndex][r])
      && data[tableIndex][rowIndex][..] == templateData[tableIndex][rowIndex][..][colIndex := cell]
  {
    var cell: JsNumber;
    if isReadingWeek {
      cell := Finite(0.0);
    } else if value == "" {
      cell := NaN;
    } else {
      var parsed := ParseInt(value);
      if parsed.None? {
        return None;
      }
      cell := Finite(parsed.value as real);
    }
    var table := templateData[tableIndex];
    var oldRow := table[rowIndex];
    var row := new JsNumber[oldRow.Length](i requires 0 <= i < oldRow.Length reads oldRow => oldRow[i]);
    row[colIndex] := cell;
    var newTable := new array<JsNumber>[table.Length](i requires 0 <= i < table.Length reads table =>
                                                          if i == rowIndex then row else table[i]);
    var data := new array<array<JsNumber>>[templateData.Length](i requires 0 <= i < templateData.Length
                                                                  reads templateData =>
                                                                  if i == tableIndex then newTable else templateData[i]);
    return Some(data);
  }

  /// An edit made through `HandleInputChange` is visible in the state it
  /// was meant to copy: the earlier grid's cell changes from 1 to 5.
  method SharedRowExhibit() returns (before: JsNumber, after: JsNumber)
    ensures before == Finite(1.0) && after == Finite(5.0)
  {
    var row := new JsNumber[1](_ => Finite(1.0));
    var table := new array<JsNumber>[1](_ => row);
    var previous := new array<array<JsNumber>>[1](_ => table);
    before := previous[0][0][0];
    ParseIntReadsNatText(5, "");
    assert NatText(5) + "" == "5";
    var _ := HandleInputChange(0, 0, 0, "5", previous, false);
    after := previous[0][0][0];
  }
}
