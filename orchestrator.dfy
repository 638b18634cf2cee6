/// The per-module calculation (server/src/utils/distributionCalculations.js,
/// lines 277-336): non-exam coursework gets its three preparation variants;
/// an exam gets its deadline moved to the last week of the semester, its four
/// private-study variants, and a revision variant for every study style and
/// every private-study variant.
module Orchestrator {
  import opened Common
  import opened Helpers
  import opened Workload
  import opened Preparation
  import opened PrivateStudy
  import opened RemainingPreparation

  /// `{ privateStudyDistributions, preparationTimeDistributions }`.
  datatype CompleteResult = CompleteResult(
    privateStudyDistributions: seq<PrivateStudyVariant>,
    preparationTimeDistributions: seq<TaggedDistribution>)

  /// The coursework as the exam path reads it: its deadline set to the last
  /// week of the semester.
  function ExamCoursework(c: Coursework, semester: string): Coursework {
    c.(deadlineWeek := TotalWeeks(semester))
  }

  /// The revision variant of study style `s` for private-study variant `k`.
  function RevisionVariant(ps: seq<PrivateStudyVariant>, s: nat, k: nat, semester: string): (t: TaggedDistribution)
    requires |ps| == 4 && s < 3 && k < 4
    ensures t.tag == StudyStyles[s] + "_" + ps[k].tag
    ensures ConsecutiveWeeks(t.distribution, WindowStart(semester), 3)
  {
    var style := StudyStyles[s];
    TaggedDistribution(style + "_" + ps[k].tag, RemainingDistribution(ps[k].remainingTime, style, semester).value)
  }

  /// `Array.prototype.flat` on a list of lists.
  function Flatten<T>(xss: seq<seq<T>>): seq<T> {
    if xss == [] then [] else Flatten(xss[..|xss| - 1]) + xss[|xss| - 1]
  }

  /// Flattening lists of four puts entry `k` of list `s` at `4 * s + k`.
  lemma {:induction false} FlattenFours<T>(xss: seq<seq<T>>)
    requires forall s :: 0 <= s < |xss| ==> |xss[s]| == 4
    ensures |Flatten(xss)| == 4 * |xss|
    ensures forall s, k :: 0 <= s < |xss| && 0 <= k < 4 ==> Flatten(xss)[4 * s + k] == xss[s][k]
    decreases |xss|
  {
    if xss != [] {
      var init := xss[..|xss| - 1];
      FlattenFours(init);
      forall s, k | 0 <= s < |xss| && 0 <= k < 4 ensures Flatten(xss)[4 * s + k] == xss[s][k] {
        if s < |init| {
          assert init[s] == xss[s];
        }
      }
    }
  }

  /// The revision variants: for every study style, one per private-study
  /// variant, flattened style by style.
  function RevisionVariants(ps: seq<PrivateStudyVariant>, semester: string): seq<TaggedDistribution>
    requires |ps| == 4
  {
    Flatten(seq(3, s requires 0 <= s < 3 => seq(4, k requires 0 <= k < 4 => RevisionVariant(ps, s, k, semester))))
  }

  /// There are twelve revision variants and variant `4 * s + k` is that of
  /// style `s` for private-study variant `k`.
  lemma RevisionVariantsAt(ps: seq<PrivateStudyVariant>, semester: string)
    requires |ps| == 4
    ensures |RevisionVariants(ps, semester)| == 12
    ensures forall s, k :: 0 <= s < 3 && 0 <= k < 4 ==>
      RevisionVariants(ps, semester)[4 * s + k] == RevisionVariant(ps, s, k, semester)
  {
    var xss := seq(3, s requires 0 <= s < 3 => seq(4, k requires 0 <= k < 4 => RevisionVariant(ps, s, k, semester)));
    FlattenFours(xss);
    forall s, k | 0 <= s < 3 && 0 <= k < 4
      ensures RevisionVariants(ps, semester)[4 * s + k] == RevisionVariant(ps, s, k, semester)
    {
      assert xss[s][k] == RevisionVariant(ps, s, k, semester);
    }
  }

  /// What `calculateCompleteDistributions` returns or throws for a defined
  /// coursework item.
  function CompleteDistributions(schedule: seq<Activity>, c: Coursework, semester: string, rw: ReadingWeeks)
    : (r: Result<CompleteResult, EngineError>)
    ensures c.kind != "exam" ==>
      (r.Ok? <==> PreparationTimeDistributions(Some(c), semester).Ok?)
    ensures c.kind != "exam" && r.Ok? ==>
      r.value == CompleteResult([], PreparationTimeDistributions(Some(c), semester).value)
    ensures c.kind == "exam" ==> (r.Err? <==> !ScheduleInWeeks(schedule, TotalWeeks(semester)))
    ensures c.kind == "exam" && r.Err? ==> r.error == PropertyOfUndefined
    ensures c.kind == "exam" && r.Ok? ==>
      r.value.privateStudyDistributions == PrivateStudyDistributions(schedule, c, semester, rw).value
  {
    if c.kind != "exam" then
      var prep := PreparationTimeDistributions(Some(c), semester);
      if prep.Err? then Err(prep.error) else Ok(CompleteResult([], prep.value))
    else
      var ps := PrivateStudyDistributions(schedule, ExamCoursework(c, semester), semester, rw);
      if ps.Err? then Err(ps.error)
      else
        Ok(CompleteResult(ps.value, RevisionVariants(ps.value, semester)))
  }

  /// The private-study variants do not read the deadline, so moving it
  /// changes none of them.
  lemma DeadlineIrrelevantToPrivateStudy(schedule: seq<Activity>, c: Coursework, semester: string, rw: ReadingWeeks)
    ensures PrivateStudyDistributions(schedule, ExamCoursework(c, semester), semester, rw)
      == PrivateStudyDistributions(schedule, c, semester, rw)
  {
  }

  /// An exam's twelve revision variants, style-major: each is tagged
  /// `<style>_ratio<r>` and is the remaining-time distribution of the
  /// matching private-study variant, in the last three weeks.
  lemma ExamRevisionVariants(schedule: seq<Activity>, c: Coursework, semester: string, rw: ReadingWeeks)
    requires c.kind == "exam"
    ensures var r := CompleteDistributions(schedule, c, semester, rw);
      r.Ok? ==>
        && |r.value.privateStudyDistributions| == 4
        && |r.value.preparationTimeDistributions| == 12
        && forall s, k :: 0 <= s < 3 && 0 <= k < 4 ==>
             var v := r.value.preparationTimeDistributions[4 * s + k];
             && v.tag == StudyStyles[s] + "_" + RatioTag(k)
             && v.distribution == RemainingDistribution(r.value.privateStudyDistributions[k].remainingTime,
                                                        StudyStyles[s], semester).value
  {
    var r := CompleteDistributions(schedule, c, semester, rw);
    if r.Ok? {
      var ps := r.value.privateStudyDistributions;
      DeadlineIrrelevantToPrivateStudy(schedule, c, semester, rw);
      assert ps == PrivateStudyDistributions(schedule, c, semester, rw).value;
      RevisionVariantsAt(ps, semester);
      forall s, k | 0 <= s < 3 && 0 <= k < 4
        ensures var v := r.value.preparationTimeDistributions[4 * s + k];
          && v.tag == StudyStyles[s] + "_" + RatioTag(k)
          && v.distribution == RemainingDistribution(ps[k].remainingTime, StudyStyles[s], semester).value
      {
        assert r.value.preparationTimeDistributions[4 * s + k] == RevisionVariant(ps, s, k, semester);
      }
    }
  }

  /// The tags of an exam's revision variants, in order.
  const RevisionTags: seq<string> := [
    "earlyStarter_ratio0", "earlyStarter_ratio0_5", "earlyStarter_ratio1", "earlyStarter_ratio2",
    "steady_ratio0", "steady_ratio0_5", "steady_ratio1", "steady_ratio2",
    "justInTime_ratio0", "justInTime_ratio0_5", "justInTime_ratio1", "justInTime_ratio2"]

  /// The private-study variant tags, spelled out.
  const RatioTagList: seq<string> := ["ratio0", "ratio0_5", "ratio1", "ratio2"]

  lemma RatioTagsListed()
    ensures forall k :: 0 <= k < 4 ==> RatioTag(k) == RatioTagList[k]
  {
    RatioTags();
  }

  /// `<style>_<ratio tag>` spelled out.
  lemma RevisionTagSpelled(s: nat, k: nat, ratioTag: string)
    requires s < 3 && k < 4 && ratioTag == RatioTagList[k]
    ensures StudyStyles[s] + "_" + ratioTag == RevisionTags[4 * s + k]
  {
    if s == 0 {
      assert RevisionTags[4 * s + k] == "earlyStarter_" + ratioTag;
    } else if s == 1 {
      assert RevisionTags[4 * s + k] == "steady_" + ratioTag;
    } else {
      assert RevisionTags[4 * s + k] == "justInTime_" + ratioTag;
    }
  }

  /// Revision variants built from private-study variants tagged
  /// ratio0..ratio2 carry the twelve tags of RevisionTags, in order.
  lemma RevisionVariantTags(ps: seq<PrivateStudyVariant>, semester: string)
    requires |ps| == 4 && forall k :: 0 <= k < 4 ==> ps[k].tag == RatioTagList[k]
    ensures |RevisionVariants(ps, semester)| == 12
    ensures forall j :: 0 <= j < 12 ==> RevisionVariants(ps, semester)[j].tag == RevisionTags[j]
  {
    RevisionVariantsAt(ps, semester);
    forall j | 0 <= j < 12 ensures RevisionVariants(ps, semester)[j].tag == RevisionTags[j] {
      var s, k := j / 4, j % 4;
      assert j == 4 * s + k;
      assert RevisionVariants(ps, semester)[j] == RevisionVariant(ps, s, k, semester);
      RevisionTagSpelled(s, k, ps[k].tag);
    }
  }

  /// The twelve tags an exam's revision variants carry, in order.
  lemma ExamRevisionTags(schedule: seq<Activity>, c: Coursework, semester: string, rw: ReadingWeeks)
    requires c.kind == "exam"
    ensures var r := CompleteDistributions(schedule, c, semester, rw);
      r.Ok? ==>
        && |r.value.preparationTimeDistributions| == 12
        && forall j :: 0 <= j < 12 ==> r.value.preparationTimeDistributions[j].tag == RevisionTags[j]
  {
    var r := CompleteDistributions(schedule, c, semester, rw);
    if r.Ok? {
      var ps := r.value.privateStudyDistributions;
      DeadlineIrrelevantToPrivateStudy(schedule, c, semester, rw);
      assert r.value.preparationTimeDistributions == RevisionVariants(ps, semester);
      RatioTagsListed();
      assert forall k :: 0 <= k < 4 ==> ps[k].tag == RatioTag(k);
      RevisionVariantTags(ps, semester);
    }
  }

  /// A coursework record the caller owns; the exam path writes its
  /// `deadlineWeek`.
  class CourseworkDocument {
    var item: Coursework

    constructor (c: Coursework)
      ensures item == c
    {
      item := c;
    }
  }

  /// `calculateCompleteDistributions`: reading `type` of an undefined
  /// coursework throws; an exam's document gets its deadline set to the last
  /// week of the semester before anything is computed, a non-exam document
  /// is left alone.
  method CalculateCompleteDistributions(schedule: seq<Activity>, doc: CourseworkDocument?, semester: string,
                                        rw: ReadingWeeks)
    returns (r: Result<CompleteResult, EngineError>)
    modifies doc
    ensures doc == null ==> r == Err(PropertyOfUndefined)
    ensures doc != null && old(doc.item).kind != "exam" ==>
      doc.item == old(doc.item) && r == CompleteDistributions(schedule, old(doc.item), semester, rw)
    ensures doc != null && old(doc.item).kind == "exam" ==>
      && doc.item == old(doc.item).(deadlineWeek := TotalWeeks(semester))
      && r == CompleteDistributions(schedule, old(doc.item), semester, rw)
  {
    if doc == null {
      return Err(PropertyOfUndefined);
    }
    if doc.item.kind != "exam" {
      r := CompleteDistributions(schedule, doc.item, semester, rw);
      return;
    }
    doc.item := doc.item.(deadlineWeek := TotalWeeks(semester));
    r := CompleteDistributions(schedule, doc.item, semester, rw);
    DeadlineIrrelevantToPrivateStudy(schedule, old(doc.item), semester, rw);
    assert ExamCoursework(doc.item, semester) == ExamCoursework(old(doc.item), semester);
  }
}
