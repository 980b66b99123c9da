/**
 * The exam-list transformations behind the page's handlers (each one is a
 * `setExams(exams.filter(...))` or `setExams(exams.map(...))`) and the
 * dashboard counters computed from the list.
 */
module ExamList {
  import opened Wrappers
  import opened Grading
  import opened Records

  /** Number of exams satisfying `p` (`exams.filter(p).length`). */
  function CountWhere(exams: seq<Exam>, p: Exam -> bool): (r: nat)
    ensures r <= |exams|
  {
    if exams == [] then 0 else (if p(exams[0]) then 1 else 0) + CountWhere(exams[1..], p)
  }

  /** `handleDelete`, confirmed: `exams.filter(exam => exam.id !== id)`. */
  function Delete(exams: seq<Exam>, id: int): (r: seq<Exam>)
    ensures forall i :: 0 <= i < |r| ==> r[i] in exams && r[i].id != id
    ensures forall i :: 0 <= i < |exams| && exams[i].id != id ==> exams[i] in r
    ensures |r| + CountWhere(exams, (e: Exam) => e.id == id) == |exams|
  {
    if exams == [] then []
    else (if exams[0].id == id then [] else [exams[0]]) + Delete(exams[1..], id)
  }

  /** `handlePublish`: the exams with the id become published. */
  function Publish(exams: seq<Exam>, id: int): (r: seq<Exam>)
    ensures |r| == |exams|
    ensures forall i :: 0 <= i < |exams| ==>
      r[i] == if exams[i].id == id then exams[i].(status := Published) else exams[i]
  {
    if exams == [] then []
    else [if exams[0].id == id then exams[0].(status := Published) else exams[0]] + Publish(exams[1..], id)
  }

  /**
   * `handlePublishResults` (`published == true`) and `handleUnpublishResults`
   * (`published == false`): only the results flag of the exams with the id changes.
   */
  function SetResultsPublished(exams: seq<Exam>, id: int, published: bool): (r: seq<Exam>)
    ensures |r| == |exams|
    ensures forall i :: 0 <= i < |exams| ==>
      r[i] == if exams[i].id == id then exams[i].(resultsPublished := published) else exams[i]
  {
    if exams == [] then []
    else
      var head := if exams[0].id == id then exams[0].(resultsPublished := published) else exams[0];
      [head] + SetResultsPublished(exams[1..], id, published)
  }

  /** Every result of the list with its grade recomputed from the given bands. */
  function Regrade(results: seq<StudentResult>, totalMarks: int, bands: seq<GradeBand>): (r: seq<StudentResult>)
    ensures |r| == |results|
    ensures forall k :: 0 <= k < |results| ==>
      r[k] == results[k].(grade := CalculateGrade(results[k].score, totalMarks, bands))
  {
    if results == [] then []
    else
      var head := results[0].(grade := CalculateGrade(results[0].score, totalMarks, bands));
      [head] + Regrade(results[1..], totalMarks, bands)
  }

  /** `exam.results?.map(...)`: an absent list stays absent. */
  function RegradeAll(results: Option<seq<StudentResult>>, totalMarks: int, bands: seq<GradeBand>): Option<seq<StudentResult>> {
    match results
    case Some(rs) => Some(Regrade(rs, totalMarks, bands))
    case None => None
  }

  /**
   * `updateGradeCriteria(id, criteria)`, with `bands` the values the criteria
   * objects hold when it runs: the exams with the id take the new criteria and
   * have every result regraded; all other exams stay as they are.
   */
  function Reclassify(exams: seq<Exam>, id: int, criteria: seq<Criterion>, bands: seq<GradeBand>): (r: seq<Exam>)
    ensures |r| == |exams|
    ensures forall i :: 0 <= i < |exams| && exams[i].id != id ==> r[i] == exams[i]
    ensures forall i :: 0 <= i < |exams| && exams[i].id == id ==>
      r[i] == exams[i].(gradeCriteria := Some(criteria),
                        results := RegradeAll(exams[i].results, exams[i].totalMarks, bands))
  {
    if exams == [] then []
    else
      var e := exams[0];
      [if e.id == id then e.(gradeCriteria := Some(criteria), results := RegradeAll(e.results, e.totalMarks, bands)) else e]
        + Reclassify(exams[1..], id, criteria, bands)
  }

  /** Every stored grade of the exam agrees with its current bands (no stale grade). */
  predicate GradesCurrent(exam: Exam, bands: seq<GradeBand>) {
    exam.results.Some? ==>
      forall k :: 0 <= k < |exam.results.value| ==>
        exam.results.value[k].grade == CalculateGrade(exam.results.value[k].score, exam.totalMarks, bands)
  }

  // ---------------------------------------------------------------------------
  // Dashboard counters
  // ---------------------------------------------------------------------------

  /** "Published" counter: exams whose status is published. */
  function PublishedCount(exams: seq<Exam>): nat {
    CountWhere(exams, (e: Exam) => e.status == Published)
  }

  /** "Results Published" counter. */
  function ResultsPublishedCount(exams: seq<Exam>): nat {
    CountWhere(exams, (e: Exam) => e.resultsPublished)
  }

  /** "Total Participants" counter: `exams.reduce((sum, e) => sum + e.participants, 0)`. */
  function TotalParticipants(exams: seq<Exam>): int {
    if exams == [] then 0 else exams[0].participants + TotalParticipants(exams[1..])
  }

  /** Participants of the exams carrying the id. */
  function ParticipantsWithId(exams: seq<Exam>, id: int): int {
    if exams == [] then 0
    else (if exams[0].id == id then exams[0].participants else 0) + ParticipantsWithId(exams[1..], id)
  }

  // ---------------------------------------------------------------------------
  // Properties of the handlers
  // ---------------------------------------------------------------------------

  /** Deleting keeps the relative order: it distributes over concatenation. */
  lemma {:induction false} DeleteKeepsOrder(a: seq<Exam>, b: seq<Exam>, id: int)
    ensures Delete(a + b, id) == Delete(a, id) + Delete(b, id)
  {
    if a != [] {
      assert (a + b)[0] == a[0] && (a + b)[1..] == a[1..] + b;
      DeleteKeepsOrder(a[1..], b, id);
      var head := if a[0].id == id then [] else [a[0]];
      calc {
        Delete(a + b, id);
        head + Delete(a[1..] + b, id);
        head + (Delete(a[1..], id) + Delete(b, id));
        (head + Delete(a[1..], id)) + Delete(b, id);
      }
    } else {
      assert a + b == b;
    }
  }

  /** The count is 0 exactly when no exam satisfies `p`, and the length exactly when all do. */
  lemma {:induction false} CountWhereExtremes(exams: seq<Exam>, p: Exam -> bool)
    ensures CountWhere(exams, p) == 0 <==> forall i :: 0 <= i < |exams| ==> !p(exams[i])
    ensures CountWhere(exams, p) == |exams| <==> forall i :: 0 <= i < |exams| ==> p(exams[i])
  {
    if exams != [] {
      CountWhereExtremes(exams[1..], p);
      assert forall i :: 1 <= i < |exams| ==> exams[i] == exams[1..][i - 1];
    }
  }

  /** Counting distributes over concatenation. */
  lemma {:induction false} CountWhereConcat(a: seq<Exam>, b: seq<Exam>, p: Exam -> bool)
    ensures CountWhere(a + b, p) == CountWhere(a, p) + CountWhere(b, p)
  {
    if a != [] {
      assert (a + b)[0] == a[0] && (a + b)[1..] == a[1..] + b;
      CountWhereConcat(a[1..], b, p);
    } else {
      assert a + b == b;
    }
  }

  /** Deleting an id no exam carries leaves the list as it is. */
  lemma {:induction false} DeleteAbsentId(exams: seq<Exam>, id: int)
    requires forall e :: e in exams ==> e.id != id
    ensures Delete(exams, id) == exams
  {
    if exams != [] {
      DeleteAbsentId(exams[1..], id);
    }
  }

  /** The participants counter drops by exactly the participants of the deleted exams. */
  lemma {:induction false} DeleteParticipants(exams: seq<Exam>, id: int)
    ensures TotalParticipants(Delete(exams, id)) == TotalParticipants(exams) - ParticipantsWithId(exams, id)
  {
    if exams != [] {
      DeleteParticipants(exams[1..], id);
      var head := if exams[0].id == id then [] else [exams[0]];
      SumOfConcat(head, Delete(exams[1..], id));
    }
  }

  lemma {:induction false} SumOfConcat(a: seq<Exam>, b: seq<Exam>)
    ensures TotalParticipants(a + b) == TotalParticipants(a) + TotalParticipants(b)
  {
    if a != [] {
      assert (a + b)[0] == a[0] && (a + b)[1..] == a[1..] + b;
      SumOfConcat(a[1..], b);
    } else {
      assert a + b == b;
    }
  }

  /** Publishing adds to the "Published" counter exactly the matching exams not yet published. */
  lemma {:induction false} PublishCount(exams: seq<Exam>, id: int)
    ensures PublishedCount(Publish(exams, id)) ==
      PublishedCount(exams) + CountWhere(exams, (e: Exam) => e.id == id && e.status != Published)
  {
    if exams != [] {
      PublishCount(exams[1..], id);
      assert Publish(exams, id)[1..] == Publish(exams[1..], id);
    }
  }

  /** Publishing twice is publishing once. */
  lemma PublishIdempotent(exams: seq<Exam>, id: int)
    ensures Publish(Publish(exams, id), id) == Publish(exams, id)
  {
  }

  /**
   * Setting the results flag: the counter loses the matching exams that were
   * published and gains all matching exams when the flag is set.
   */
  lemma {:induction false} ResultsPublishedCountAfterSet(exams: seq<Exam>, id: int, published: bool)
    ensures ResultsPublishedCount(SetResultsPublished(exams, id, published))
      + CountWhere(exams, (e: Exam) => e.id == id && e.resultsPublished)
      == ResultsPublishedCount(exams) + (if published then CountWhere(exams, (e: Exam) => e.id == id) else 0)
  {
    if exams != [] {
      ResultsPublishedCountAfterSet(exams[1..], id, published);
      assert SetResultsPublished(exams, id, published)[1..] == SetResultsPublished(exams[1..], id, published);
    }
  }

  /** Publishing then unpublishing results (or the reverse): the last call wins. */
  lemma ResultsPublishedLastWins(exams: seq<Exam>, id: int, first: bool, second: bool)
    ensures SetResultsPublished(SetResultsPublished(exams, id, first), id, second)
      == SetResultsPublished(exams, id, second)
  {
  }

  /** After `updateGradeCriteria` the regraded exams hold no stale grade. */
  lemma ReclassifyMakesGradesCurrent(exams: seq<Exam>, id: int, criteria: seq<Criterion>, bands: seq<GradeBand>, i: nat)
    requires i < |exams| && exams[i].id == id
    ensures GradesCurrent(Reclassify(exams, id, criteria, bands)[i], bands)
  {
  }

  /** Regrading with the same bands twice is regrading once. */
  lemma ReclassifyIdempotent(exams: seq<Exam>, id: int, criteria: seq<Criterion>, bands: seq<GradeBand>)
    ensures Reclassify(Reclassify(exams, id, criteria, bands), id, criteria, bands)
      == Reclassify(exams, id, criteria, bands)
  {
    var once := Reclassify(exams, id, criteria, bands);
    var twice := Reclassify(once, id, criteria, bands);
    forall i | 0 <= i < |exams| ensures twice[i] == once[i] {
      if exams[i].id == id {
        var e := exams[i];
        if e.results.Some? {
          var rs := Regrade(e.results.value, e.totalMarks, bands);
          assert Regrade(rs, e.totalMarks, bands) == rs;
        }
      }
    }
  }
}
