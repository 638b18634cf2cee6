/// `calculateAggregatedData` (server/src/utils/distributionCalculations.js,
/// lines 338-455): the weekly hours of a set of stored modules, added up per
/// module code and laid out as one row per week of the requested semester
/// with one column per requested module code.
module Aggregator {
  import opened Common
  import opened Workload
  import opened Orchestrator

  /// A coursework item as stored against a module: its `type` and the
  /// preparation variants the engine produced for it.
  datatype StoredCoursework = StoredCoursework(kind: string, preparationTimeDistributions: seq<TaggedDistribution>)

  /// A stored module, as far as the aggregation reads it.
  datatype ModuleRecord = ModuleRecord(
    moduleCode: string,
    semester: string,
    teachingSchedule: seq<Activity>,
    courseworkList: seq<StoredCoursework>,
    privateStudyDistributions: seq<PrivateStudyVariant>)

  /// The request: the module codes (columns), the study style, the ratio
  /// text and the semester.
  datatype Query = Query(moduleCodes: seq<string>, studyStyle: string, ratio: string, semester: string)

  /// A property of an output row: the `week` label or a module's hours.
  datatype Cell = Label(text: string) | Hours(value: real)

  /// `adjustWeek`: where an entry of a module of `moduleSemester` lands in a
  /// request for `semester`, if anywhere. Names are compared exactly.
  function AdjustWeek(moduleSemester: string, semester: string, week: int): Option<int> {
    if moduleSemester == "whole session" then
      if semester == "second" && week > 15 then Some(week - 15)
      else if semester == "first" && week <= 15 then Some(week)
      else None
    else if moduleSemester == semester then Some(week)
    else None
  }

  /// Two entries of one module never share a week of the request unless
  /// they share a week of the module.
  lemma AdjustWeekInjective(moduleSemester: string, semester: string, w1: int, w2: int)
    requires AdjustWeek(moduleSemester, semester, w1).Some?
    requires AdjustWeek(moduleSemester, semester, w1) == AdjustWeek(moduleSemester, semester, w2)
    ensures w1 == w2
  {
  }

  /// A whole-session module is split at week 15: weeks 1-15 feed 'first'
  /// as they are, weeks 16-33 feed 'second' as weeks 1-18, and no other
  /// request (not even 'whole session') sees any of its weeks.
  lemma WholeSessionSplit(semester: string, week: int)
    ensures semester == "first" ==>
      AdjustWeek("whole session", semester, week) == if week <= 15 then Some(week) else None
    ensures semester == "second" ==>
      AdjustWeek("whole session", semester, week) == if week > 15 then Some(week - 15) else None
    ensures semester != "first" && semester != "second" ==> AdjustWeek("whole session", semester, week) == None
  {
  }

  /// The `type` a lookup compares: of a preparation variant, of a
  /// private-study variant.
  function DistributionTag(d: TaggedDistribution): string { d.tag }

  function VariantTag(v: PrivateStudyVariant): string { v.tag }

  function PreparationTags(list: seq<TaggedDistribution>): seq<string> {
    seq(|list|, i requires 0 <= i < |list| => list[i].tag)
  }

  function VariantTags(list: seq<PrivateStudyVariant>): seq<string> {
    seq(|list|, i requires 0 <= i < |list| => list[i].tag)
  }

  /// The tag an exam's variant is looked up by: `${studyStyle}_ratio${ratio}`.
  function ExamLabel(studyStyle: string, ratio: string): string {
    studyStyle + "_ratio" + ratio
  }

  /// The tag a coursework item's variant is looked up by.
  function WantedTag(c: StoredCoursework, studyStyle: string, ratio: string): string {
    if c.kind == "exam" then ExamLabel(studyStyle, ratio) else studyStyle
  }

  /// Step 2 for one coursework item: the entries of the first variant
  /// carrying the wanted tag, or none.
  function PreparationEntries(c: StoredCoursework, studyStyle: string, ratio: string): seq<WeekHours> {
    match FindFirst(c.preparationTimeDistributions, DistributionTag, WantedTag(c, studyStyle, ratio))
    case None => []
    case Some(i) => c.preparationTimeDistributions[i].distribution
  }

  /// Step 3: the entries of the first private-study variant whose tag is
  /// the ratio text itself, or none.
  function PrivateStudyEntries(m: ModuleRecord, ratio: string): seq<WeekHours> {
    match FindFirst(m.privateStudyDistributions, VariantTag, ratio)
    case None => []
    case Some(i) => m.privateStudyDistributions[i].distribution
  }

  /// The hours of an entry that land in week `w` of the request.
  function Share(moduleSemester: string, semester: string, e: WeekHours, w: int): real {
    if AdjustWeek(moduleSemester, semester, e.week) == Some(w) then e.hours else 0.0
  }

  /// The hours the first `n` entries of `d` put into week `w`.
  function EntryHours(d: seq<WeekHours>, n: nat, moduleSemester: string, semester: string, w: int): real
    requires n <= |d|
  {
    if n == 0 then 0.0 else EntryHours(d, n - 1, moduleSemester, semester, w) + Share(moduleSemester, semester, d[n - 1], w)
  }

  /// Step 1: the hours the first `n` activities put into week `w`; an
  /// activity without a distribution puts none.
  function TeachingHours(schedule: seq<Activity>, n: nat, moduleSemester: string, semester: string, w: int): real
    requires n <= |schedule|
  {
    if n == 0 then 0.0
    else
      var d := schedule[n - 1].distribution.GetOr([]);
      TeachingHours(schedule, n - 1, moduleSemester, semester, w) + EntryHours(d, |d|, moduleSemester, semester, w)
  }

  /// Step 2: the hours the variants found for the first `n` coursework
  /// items put into week `w`.
  function CourseworkHours(list: seq<StoredCoursework>, n: nat, moduleSemester: string, q: Query, w: int): real
    requires n <= |list|
  {
    if n == 0 then 0.0
    else
      var d := PreparationEntries(list[n - 1], q.studyStyle, q.ratio);
      CourseworkHours(list, n - 1, moduleSemester, q, w) + EntryHours(d, |d|, moduleSemester, q.semester, w)
  }

  /// Steps 1 to 3: a module's hours in week `w` of the request.
  function ModuleHours(m: ModuleRecord, q: Query, w: int): real {
    var d := PrivateStudyEntries(m, q.ratio);
    TeachingHours(m.teachingSchedule, |m.teachingSchedule|, m.semester, q.semester, w)
      + CourseworkHours(m.courseworkList, |m.courseworkList|, m.semester, q, w)
      + EntryHours(d, |d|, m.semester, q.semester, w)
  }

  /// The hours in week `w` of all the modules among the first `n` whose
  /// code is `code`: modules sharing a code share one bucket.
  function CodeHours(modules: seq<ModuleRecord>, n: nat, code: string, q: Query, w: int): real
    requires n <= |modules|
  {
    if n == 0 then 0.0
    else CodeHours(modules, n - 1, code, q, w) + if modules[n - 1].moduleCode == code then ModuleHours(modules[n - 1], q, w) else 0.0
  }

  /// Some module among the first `n` has `code`.
  predicate HasModule(modules: seq<ModuleRecord>, n: nat, code: string)
    requires n <= |modules|
  {
    exists i :: 0 <= i < n && modules[i].moduleCode == code
  }

  lemma {:induction false} NoModuleNoHours(modules: seq<ModuleRecord>, n: nat, code: string, q: Query, w: int)
    requires n <= |modules| && !HasModule(modules, n, code)
    ensures CodeHours(modules, n, code, q, w) == 0.0
  {
    if n > 0 {
      assert !HasModule(modules, n - 1, code);
      NoModuleNoHours(modules, n - 1, code, q, w);
    }
  }

  /// The number of weeks of the output: 18 for exactly 'second', else 15.
  function MaxWeek(semester: string): nat {
    if semester == "second" then 18 else 15
  }

  function WeekLabel(week: nat): string {
    "Week " + NatText(week)
  }

  /// The row of `week` after the first `n` requested codes are filled in
  /// with their hours (0 where nothing landed); a code equal to "week"
  /// overwrites the label.
  function RowOf(modules: seq<ModuleRecord>, q: Query, week: nat, n: nat): map<string, Cell>
    requires n <= |q.moduleCodes|
  {
    if n == 0 then map["week" := Label(WeekLabel(week))]
    else RowOf(modules, q, week, n - 1)[q.moduleCodes[n - 1] := Hours(CodeHours(modules, |modules|, q.moduleCodes[n - 1], q, week))]
  }

  /// The rows of weeks 1 to `k`.
  function RowsUpTo(modules: seq<ModuleRecord>, q: Query, k: nat): seq<map<string, Cell>> {
    if k == 0 then [] else RowsUpTo(modules, q, k - 1) + [RowOf(modules, q, k, |q.moduleCodes|)]
  }

  /// What `calculateAggregatedData` returns or throws for the modules the
  /// query found: reading the bucket of a requested code no module has
  /// throws, which is reported as 'Data aggregation failed'.
  function AggregatedData(modules: seq<ModuleRecord>, q: Query): Result<seq<map<string, Cell>>, EngineError> {
    if forall c :: c in q.moduleCodes ==> HasModule(modules, |modules|, c) then Ok(RowsUpTo(modules, q, MaxWeek(q.semester)))
    else Err(DataAggregationFailed)
  }

  lemma {:induction false} RowsUpToAt(modules: seq<ModuleRecord>, q: Query, k: nat, i: nat)
    ensures |RowsUpTo(modules, q, k)| == k
    ensures i < k ==> RowsUpTo(modules, q, k)[i] == RowOf(modules, q, i + 1, |q.moduleCodes|)
  {
    if k > 0 {
      RowsUpToAt(modules, q, k - 1, i);
    }
  }

  /// A row holds the label under "week" unless a requested code is "week",
  /// and the hours of every requested code.
  lemma {:induction false} RowContents(modules: seq<ModuleRecord>, q: Query, week: nat, n: nat, k: string)
    requires n <= |q.moduleCodes|
    ensures k in RowOf(modules, q, week, n) <==> k == "week" || k in q.moduleCodes[..n]
    ensures k in q.moduleCodes[..n] ==> RowOf(modules, q, week, n)[k] == Hours(CodeHours(modules, |modules|, k, q, week))
    ensures k == "week" && k !in q.moduleCodes[..n] ==> RowOf(modules, q, week, n)[k] == Label(WeekLabel(week))
  {
    if n > 0 {
      assert q.moduleCodes[..n] == q.moduleCodes[..n - 1] + [q.moduleCodes[n - 1]];
      RowContents(modules, q, week, n - 1, k);
    }
  }

  /// The result of the aggregation: it fails exactly when a requested code
  /// has no module; otherwise it has one row per week of the requested
  /// semester, whose keys are "week" and the requested codes, whose label
  /// survives unless a code is "week", and whose cell for each code is the
  /// sum over that code's modules of the hours landing in that week.
  lemma AggregatedDataMeaning(modules: seq<ModuleRecord>, q: Query, w: nat, code: string)
    ensures var r := AggregatedData(modules, q);
      && (r.Err? <==> exists c :: c in q.moduleCodes && !HasModule(modules, |modules|, c))
      && (r.Err? ==> r.error == DataAggregationFailed)
      && (r.Ok? ==> |r.value| == MaxWeek(q.semester))
    ensures var r := AggregatedData(modules, q);
      r.Ok? && 1 <= w <= |r.value| && code in q.moduleCodes ==>
        code in r.value[w - 1] && r.value[w - 1][code] == Hours(CodeHours(modules, |modules|, code, q, w))
    ensures var r := AggregatedData(modules, q);
      r.Ok? && 1 <= w <= |r.value| && "week" !in q.moduleCodes ==>
        "week" in r.value[w - 1] && r.value[w - 1]["week"] == Label(WeekLabel(w))
    ensures var r := AggregatedData(modules, q);
      r.Ok? && 1 <= w <= |r.value| ==> forall k :: k in r.value[w - 1] <==> k == "week" || k in q.moduleCodes
  {
    var codes := q.moduleCodes;
    var r := AggregatedData(modules, q);
    RowsUpToAt(modules, q, MaxWeek(q.semester), 0);
    if r.Ok? && 1 <= w <= |r.value| {
      RowsUpToAt(modules, q, MaxWeek(q.semester), w - 1);
      assert codes[..|codes|] == codes;
      assert r.value[w - 1] == RowOf(modules, q, w, |codes|);
      RowContents(modules, q, w, |codes|, code);
      RowContents(modules, q, w, |codes|, "week");
      forall k
        ensures k in r.value[w - 1] <==> k == "week" || k in codes
      {
        RowContents(modules, q, w, |codes|, k);
      }
    }
  }

  // The imperative aggregation: `aggregatedData` maps each module code to a
  // bucket of hours keyed by adjusted week.

  /// `bucket[week] || 0`.
  function At(bucket: map<int, real>, week: int): real {
    if week in bucket then bucket[week] else 0.0
  }

  /// Adds the entries of `d` into `bucket` as the `forEach` of each step
  /// does: a missing (or zero) week is first set to 0, then increased.
  method AddEntriesInto(bucket: map<int, real>, moduleSemester: string, semester: string, d: seq<WeekHours>)
    returns (b: map<int, real>)
    ensures forall w :: At(b, w) == At(bucket, w) + EntryHours(d, |d|, moduleSemester, semester, w)
  {
    b := bucket;
    for i := 0 to |d|
      invariant forall w :: At(b, w) == At(bucket, w) + EntryHours(d, i, moduleSemester, semester, w)
    {
      var adjusted := AdjustWeek(moduleSemester, semester, d[i].week);
      if adjusted.Some? {
        var week := adjusted.value;
        if week !in b || b[week] == 0.0 {
          b := b[week := 0.0];
        }
        b := b[week := b[week] + d[i].hours];
      }
    }
  }

  /// Step 1: every activity that has a distribution.
  method AddTeaching(bucket: map<int, real>, moduleSemester: string, semester: string, schedule: seq<Activity>)
    returns (b: map<int, real>)
    ensures forall w :: At(b, w) == At(bucket, w) + TeachingHours(schedule, |schedule|, moduleSemester, semester, w)
  {
    b := bucket;
    for i := 0 to |schedule|
      invariant forall w :: At(b, w) == At(bucket, w) + TeachingHours(schedule, i, moduleSemester, semester, w)
    {
      if schedule[i].distribution.Some? {
        b := AddEntriesInto(b, moduleSemester, semester, schedule[i].distribution.value);
      }
    }
  }

  /// Step 2 for one coursework item: look its variant up and add it.
  method AddPreparation(bucket: map<int, real>, moduleSemester: string, q: Query, c: StoredCoursework)
    returns (b: map<int, real>)
    ensures var d := PreparationEntries(c, q.studyStyle, q.ratio);
      forall w :: At(b, w) == At(bucket, w) + EntryHours(d, |d|, moduleSemester, q.semester, w)
  {
    var tag := if c.kind == "exam" then q.studyStyle + "_ratio" + q.ratio else q.studyStyle;
    var found := FindFirst(c.preparationTimeDistributions, DistributionTag, tag);
    b := AddEntriesInto(bucket, moduleSemester, q.semester, if found.Some? then c.preparationTimeDistributions[found.value].distribution else []);
  }

  /// Step 2: every coursework item.
  method AddCoursework(bucket: map<int, real>, moduleSemester: string, q: Query, list: seq<StoredCoursework>)
    returns (b: map<int, real>)
    ensures forall w :: At(b, w) == At(bucket, w) + CourseworkHours(list, |list|, moduleSemester, q, w)
  {
    b := bucket;
    for j := 0 to |list|
      invariant forall w :: At(b, w) == At(bucket, w) + CourseworkHours(list, j, moduleSemester, q, w)
    {
      b := AddPreparation(b, moduleSemester, q, list[j]);
    }
  }

  /// The body of `modules.forEach` for one module: steps 1 to 3 into its
  /// code's bucket.
  method AggregateModule(bucket: map<int, real>, m: ModuleRecord, q: Query) returns (b: map<int, real>)
    ensures forall w :: At(b, w) == At(bucket, w) + ModuleHours(m, q, w)
  {
    b := AddTeaching(bucket, m.semester, q.semester, m.teachingSchedule);
    b := AddCoursework(b, m.semester, q, m.courseworkList);
    var found := FindFirst(m.privateStudyDistributions, VariantTag, q.ratio);
    b := AddEntriesInto(b, m.semester, q.semester, if found.Some? then m.privateStudyDistributions[found.value].distribution else []);
  }

  /// `aggregatedData` holds the buckets of the first `n` modules: one per
  /// code seen, each with that code's hours per week.
  ghost predicate Aggregates(agg: map<string, map<int, real>>, modules: seq<ModuleRecord>, n: nat, q: Query)
    requires n <= |modules|
  {
    && (forall code :: code in agg <==> HasModule(modules, n, code))
    && (forall code, w :: code in agg ==> At(agg[code], w) == CodeHours(modules, n, code, q, w))
  }

  /// `modules.forEach`: the `aggregatedData` dictionary; a code's bucket
  /// starts empty the first time the code is met.
  method BuildAggregate(modules: seq<ModuleRecord>, q: Query) returns (agg: map<string, map<int, real>>)
    ensures Aggregates(agg, modules, |modules|, q)
  {
    agg := map[];
    for n := 0 to |modules|
      invariant Aggregates(agg, modules, n, q)
    {
      agg := AbsorbModule(agg, modules, n, q);
    }
  }

  /// One step of `modules.forEach`.
  method AbsorbModule(agg: map<string, map<int, real>>, modules: seq<ModuleRecord>, n: nat, q: Query)
    returns (agg': map<string, map<int, real>>)
    requires n < |modules| && Aggregates(agg, modules, n, q)
    ensures Aggregates(agg', modules, n + 1, q)
  {
    var m := modules[n];
    var bucket: map<int, real> := map[];
    if m.moduleCode in agg {
      bucket := agg[m.moduleCode];
    } else {
      forall w
        ensures CodeHours(modules, n, m.moduleCode, q, w) == 0.0
      {
        NoModuleNoHours(modules, n, m.moduleCode, q, w);
      }
    }
    var b := AggregateModule(bucket, m, q);
    agg' := agg[m.moduleCode := b];
    forall code
      ensures code in agg' <==> HasModule(modules, n + 1, code)
    {
      if HasModule(modules, n + 1, code) && code != m.moduleCode {
        var i :| 0 <= i < n + 1 && modules[i].moduleCode == code;
        assert i < n;
      }
      if code in agg {
        var i :| 0 <= i < n && modules[i].moduleCode == code;
        assert i < n + 1;
      }
      if code == m.moduleCode {
        assert modules[n].moduleCode == code;
      }
    }
    forall code, w | code in agg'
      ensures At(agg'[code], w) == CodeHours(modules, n + 1, code, q, w)
    {
      if code == m.moduleCode {
        assert At(b, w) == At(bucket, w) + ModuleHours(m, q, w);
      } else {
        assert agg'[code] == agg[code];
      }
    }
  }

  /// The row object of one week: the label, then each requested code's
  /// hours; `ok` is false where reading a missing code's bucket throws.
  method BuildRow(agg: map<string, map<int, real>>, modules: seq<ModuleRecord>, q: Query, week: nat)
    returns (ok: bool, row: map<string, Cell>)
    requires Aggregates(agg, modules, |modules|, q)
    ensures ok <==> forall c :: c in q.moduleCodes ==> HasModule(modules, |modules|, c)
    ensures ok ==> row == RowOf(modules, q, week, |q.moduleCodes|)
  {
    row := map["week" := Label(WeekLabel(week))];
    for j := 0 to |q.moduleCodes|
      invariant forall i :: 0 <= i < j ==> q.moduleCodes[i] in agg
      invariant row == RowOf(modules, q, week, j)
    {
      var code := q.moduleCodes[j];
      if code !in agg {
        return false, row;
      }
      row := row[code := Hours(At(agg[code], week))];
    }
    ok := true;
  }

  /// `calculateAggregatedData` over the modules the query returned.
  method CalculateAggregatedData(modules: seq<ModuleRecord>, q: Query) returns (r: Result<seq<map<string, Cell>>, EngineError>)
    ensures r == AggregatedData(modules, q)
  {
    var agg := BuildAggregate(modules, q);
    var maxWeek := if q.semester == "second" then 18 else 15;
    var rows: seq<map<string, Cell>> := [];
    for week := 1 to maxWeek + 1
      invariant week > 1 ==> forall c :: c in q.moduleCodes ==> HasModule(modules, |modules|, c)
      invariant rows == RowsUpTo(modules, q, week - 1)
    {
      var ok, row := BuildRow(agg, modules, q, week);
      if !ok {
        return Err(DataAggregationFailed);
      }
      rows := rows + [row];
    }
    assert maxWeek == MaxWeek(q.semester);
    r := Ok(rows);
  }

  // The lookups, pinned as written.

  /// The ratio texts whose exam label names a revision variant.
  const BareRatios: seq<string> := ["0", "0_5", "1", "2"]

  lemma RatioTagsAreBare(k: nat)
    requires k < 4
    ensures RatioTagList[k] == "ratio" + BareRatios[k]
  {
  }

  /// The exam label of a study style names the revision variant of
  /// style `s` and ratio `k` exactly when it is that style and the ratio
  /// text is the bare ratio (the revision tag with "ratio" in front).
  lemma ExamLabelMatches(studyStyle: string, ratio: string, s: nat, k: nat)
    requires studyStyle in StudyStyles && s < 3 && k < 4
    ensures ExamLabel(studyStyle, ratio) == RevisionTags[4 * s + k] <==> studyStyle == StudyStyles[s] && ratio == BareRatios[k]
  {
    var style := StudyStyles[s];
    RevisionTagSpelled(s, k, RatioTagList[k]);
    RatioTagsAreBare(k);
    var prefix := style + "_ratio";
    assert RevisionTags[4 * s + k] == prefix + BareRatios[k];
    if ExamLabel(studyStyle, ratio) == RevisionTags[4 * s + k] {
      assert studyStyle[0] == RevisionTags[4 * s + k][0] == style[0];
      assert studyStyle == style;
      assert ratio == (prefix + ratio)[|prefix|..] == (prefix + BareRatios[k])[|prefix|..] == BareRatios[k];
    }
  }

  /// On the tags an exam's revision variants carry, the exam lookup finds
  /// one exactly when the ratio text is a bare ratio.
  lemma ExamLookupOnRevisionTags(studyStyle: string, ratio: string)
    requires studyStyle in StudyStyles
    ensures ExamLabel(studyStyle, ratio) in RevisionTags <==> ratio in BareRatios
  {
    if ExamLabel(studyStyle, ratio) in RevisionTags {
      var j :| 0 <= j < 12 && RevisionTags[j] == ExamLabel(studyStyle, ratio);
      ExamLabelMatches(studyStyle, ratio, j / 4, j % 4);
    }
    if ratio in BareRatios {
      var s :| 0 <= s < 3 && StudyStyles[s] == studyStyle;
      var k :| 0 <= k < 4 && BareRatios[k] == ratio;
      ExamLabelMatches(studyStyle, ratio, s, k);
    }
  }

  /// The ratio text "0.5" finds no revision variant: the stored tag spells
  /// it "0_5".
  lemma DecimalRatioMissesRevisionTags(studyStyle: string)
    requires studyStyle in StudyStyles
    ensures ExamLabel(studyStyle, "0.5") !in RevisionTags
  {
    ExamLookupOnRevisionTags(studyStyle, "0.5");
    assert "0.5" != BareRatios[1];
  }

  /// A lookup that finds a variant finds one of the listed tags.
  lemma FoundTagListed(c: StoredCoursework, m: ModuleRecord, preparationTag: string, ratio: string)
    ensures FindFirst(c.preparationTimeDistributions, DistributionTag, preparationTag).Some? ==>
      preparationTag in PreparationTags(c.preparationTimeDistributions)
    ensures FindFirst(m.privateStudyDistributions, VariantTag, ratio).Some? ==>
      ratio in VariantTags(m.privateStudyDistributions)
  {
    var f := FindFirst(c.preparationTimeDistributions, DistributionTag, preparationTag);
    if f.Some? {
      assert PreparationTags(c.preparationTimeDistributions)[f.value] == preparationTag;
    }
    var g := FindFirst(m.privateStudyDistributions, VariantTag, ratio);
    if g.Some? {
      assert VariantTags(m.privateStudyDistributions)[g.value] == ratio;
    }
  }

  /// With the variants the engine stores (an exam's twelve revision tags,
  /// a module's four ratio tags), no ratio text lets both an exam's
  /// preparation and the module's private study contribute.
  lemma ExamAndPrivateStudyExclusive(c: StoredCoursework, m: ModuleRecord, studyStyle: string, ratio: string)
    requires c.kind == "exam" && studyStyle in StudyStyles
    requires PreparationTags(c.preparationTimeDistributions) == RevisionTags
    requires VariantTags(m.privateStudyDistributions) == RatioTagList
    ensures PreparationEntries(c, studyStyle, ratio) == [] || PrivateStudyEntries(m, ratio) == []
    ensures PreparationEntries(c, studyStyle, "0.5") == [] && PrivateStudyEntries(m, "0.5") == []
  {
    ExamLookupOnRevisionTags(studyStyle, ratio);
    DecimalRatioMissesRevisionTags(studyStyle);
    FoundTagListed(c, m, ExamLabel(studyStyle, ratio), ratio);
    FoundTagListed(c, m, ExamLabel(studyStyle, "0.5"), "0.5");
    if ratio in BareRatios {
      var k :| 0 <= k < 4 && BareRatios[k] == ratio;
      assert |ratio| <= 3;
      assert ratio !in RatioTagList;
    }
    assert "0.5" !in RatioTagList;
  }

  lemma {:induction false} NoWeekNoEntryHours(d: seq<WeekHours>, n: nat, moduleSemester: string, semester: string, w: int)
    requires n <= |d|
    requires forall week :: AdjustWeek(moduleSemester, semester, week).None?
    ensures EntryHours(d, n, moduleSemester, semester, w) == 0.0
  {
    if n > 0 {
      NoWeekNoEntryHours(d, n - 1, moduleSemester, semester, w);
    }
  }

  /// A module whose weeks map nowhere in the request (one of another
  /// semester, or a whole-session module asked for anything but 'first' or
  /// 'second') contributes nothing to any week.
  lemma OtherSemesterContributesNothing(m: ModuleRecord, q: Query, w: int)
    requires if m.semester == "whole session" then q.semester != "first" && q.semester != "second" else m.semester != q.semester
    ensures ModuleHours(m, q, w) == 0.0
  {
    assert forall week :: AdjustWeek(m.semester, q.semester, week).None?;
    TeachingNothing(m.teachingSchedule, |m.teachingSchedule|, m.semester, q.semester, w);
    CourseworkNothing(m.courseworkList, |m.courseworkList|, m.semester, q, w);
    var d := PrivateStudyEntries(m, q.ratio);
    NoWeekNoEntryHours(d, |d|, m.semester, q.semester, w);
  }

  lemma {:induction false} TeachingNothing(schedule: seq<Activity>, n: nat, moduleSemester: string, semester: string, w: int)
    requires n <= |schedule|
    requires forall week :: AdjustWeek(moduleSemester, semester, week).None?
    ensures TeachingHours(schedule, n, moduleSemester, semester, w) == 0.0
  {
    if n > 0 {
      var d := schedule[n - 1].distribution.GetOr([]);
      TeachingNothing(schedule, n - 1, moduleSemester, semester, w);
      NoWeekNoEntryHours(d, |d|, moduleSemester, semester, w);
    }
  }

  lemma {:induction false} CourseworkNothing(list: seq<StoredCoursework>, n: nat, moduleSemester: string, q: Query, w: int)
    requires n <= |list|
    requires forall week :: AdjustWeek(moduleSemester, q.semester, week).None?
    ensures CourseworkHours(list, n, moduleSemester, q, w) == 0.0
  {
    if n > 0 {
      var d := PreparationEntries(list[n - 1], q.studyStyle, q.ratio);
      CourseworkNothing(list, n - 1, moduleSemester, q, w);
      NoWeekNoEntryHours(d, |d|, moduleSemester, q.semester, w);
    }
  }
}
