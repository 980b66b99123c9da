/**
 * The page's initial mock data, used as concrete witnesses: the five sample
 * results and the three exams, all of which share one criteria array.
 */
module Fixtures {
  import opened Wrappers
  import opened Grading
  import opened Records
  import opened Stats
  import opened ExamList

  function MockResults(): seq<StudentResult> {
    [ StudentResult(1, "John Doe", "john.doe@student.edu", 92, "A", "2024-01-20T14:30:00", 45, Graded),
      StudentResult(2, "Sarah Wilson", "sarah.wilson@student.edu", 87, "B+", "2024-01-20T15:15:00", 52, Graded),
      StudentResult(3, "Mike Johnson", "mike.johnson@student.edu", 78, "C+", "2024-01-20T16:00:00", 38, Graded),
      StudentResult(4, "Emily Davis", "emily.davis@student.edu", 95, "A+", "2024-01-20T13:45:00", 42, Graded),
      StudentResult(5, "Alex Brown", "alex.brown@student.edu", 65, "D", "2024-01-20T17:20:00", 55, Graded) ]
  }

  /**
   * The initial `exams` state. Dates are written as yyyymmddhhmm numbers, which
   * order like the timestamps they stand for.
   */
  function MockExams(criteria: seq<Criterion>): seq<Exam> {
    [ Exam(1, "React Fundamentals Quiz", "Basic concepts of React including components, props, and state",
           60, 50, 20, 202402151000, Published, 25, 202401200000, Some(criteria), Some(MockResults()), false),
      Exam(2, "JavaScript Advanced Concepts", "Advanced JavaScript topics including closures, promises, and async/await",
           90, 75, 15, 202402201400, Draft, 0, 202401220000, Some(criteria), Some([]), false),
      Exam(3, "CSS Grid and Flexbox", "Modern CSS layout techniques",
           45, 30, 12, 202401251600, Completed, 18, 202401100000, Some(criteria), Some(MockResults()[..3]), true) ]
  }

  /** The three mock exams hold one and the same criteria array. */
  lemma MockExamsShareCriteria(criteria: seq<Criterion>)
    ensures forall i :: 0 <= i < |MockExams(criteria)| ==> MockExams(criteria)[i].gradeCriteria == Some(criteria)
  {
  }

  /** Out of 100 marks, the stored sample grades are exactly what the default bands give. */
  lemma MockGradesOutOf100()
    ensures forall k :: 0 <= k < |MockResults()| ==>
      CalculateGrade(MockResults()[k].score, 100, DefaultBands()) == MockResults()[k].grade
  {
    var d, rs := DefaultBands(), MockResults();
    var firstBand := [1, 2, 4, 0, 6];
    forall k | 0 <= k < |rs| ensures CalculateGrade(rs[k].score, 100, d) == rs[k].grade {
      FirstMatchingBandWins(rs[k].score, 100, d, firstBand[k]);
    }
  }

  /**
   * Out of exam 1's actual 50 marks every sample score exceeds the total, so
   * regrading the samples against any bands that stop at 100% gives `'F'` to all.
   */
  lemma MockResultsFailOutOf50(bands: seq<GradeBand>)
    requires forall j :: 0 <= j < |bands| ==> bands[j].maxScore <= 100
    ensures |Regrade(MockResults(), 50, bands)| == 5
    ensures forall k :: 0 <= k < 5 ==> Regrade(MockResults(), 50, bands)[k].grade == FallbackGrade
  {
    forall k | 0 <= k < 5 ensures Regrade(MockResults(), 50, bands)[k].grade == FallbackGrade {
      AboveTotalIsFallback(MockResults()[k].score, 50, bands);
    }
  }

  /** In particular, regrading exam 1's results with the default bands gives `'F'` to all five. */
  lemma MockExam1RegradedWithDefaults()
    ensures forall k :: 0 <= k < 5 ==> Regrade(MockResults(), 50, DefaultBands())[k].grade == FallbackGrade
  {
    DefaultBandsEndAt100();
    MockResultsFailOutOf50(DefaultBands());
  }

  /** The labels of the sample results, in the order they first occur. */
  lemma MockFirstSeen()
    ensures FirstSeen(MockResults()) == ["A", "B+", "C+", "A+", "D"]
  {
    var rs := MockResults();
    var p1, p2, p3, p4 := rs[..1], rs[..2], rs[..3], rs[..4];
    assert p1[..0] == [] && p2[..1] == p1 && p3[..2] == p2 && p4[..3] == p3 && rs[..4] == p4;
    assert FirstSeen(p1) == ["A"];
    assert FirstSeen(p2) == ["A", "B+"];
    assert FirstSeen(p3) == ["A", "B+", "C+"];
    assert FirstSeen(p4) == ["A", "B+", "C+", "A+"];
  }

  /** Every label of the sample results occurs exactly once. */
  lemma MockCounts(g: string)
    requires g in ["A", "B+", "C+", "A+", "D"]
    ensures CountGrade(MockResults(), g) == 1
  {
    var rs := MockResults();
    var p1, p2, p3, p4 := rs[..1], rs[..2], rs[..3], rs[..4];
    assert p1[..0] == [] && p2[..1] == p1 && p3[..2] == p2 && p4[..3] == p3 && rs[..4] == p4;
    assert CountGrade(p1, g) == (if g == "A" then 1 else 0);
    assert CountGrade(p2, g) == (if g in ["A", "B+"] then 1 else 0);
    assert CountGrade(p3, g) == (if g in ["A", "B+", "C+"] then 1 else 0);
    assert CountGrade(p4, g) == (if g in ["A", "B+", "C+", "A+"] then 1 else 0);
  }

  /** The grade distribution of the sample results: one result per grade. */
  lemma MockDistribution()
    ensures IsDistributionOf(
      [GradeTally("A", 1), GradeTally("B+", 1), GradeTally("C+", 1), GradeTally("A+", 1), GradeTally("D", 1)],
      MockResults())
  {
    MockFirstSeen();
    var labels := ["A", "B+", "C+", "A+", "D"];
    forall j | 0 <= j < 5 ensures CountGrade(MockResults(), labels[j]) == 1 {
      MockCounts(labels[j]);
    }
  }

  /** The average of the sample scores, 417 / 5 = 83.4, rounds to 83. */
  lemma MockAverage()
    ensures RoundDiv(ScoreSum(MockResults()), |MockResults()|) == 83
  {
    var rs := MockResults();
    var p1, p2, p3, p4 := rs[..1], rs[..2], rs[..3], rs[..4];
    assert p1[..0] == [] && p2[..1] == p1 && p3[..2] == p2 && p4[..3] == p3 && rs[..4] == p4;
    assert ScoreSum(p1) == 92 && ScoreSum(p2) == 179 && ScoreSum(p3) == 257 && ScoreSum(p4) == 352;
    assert ScoreSum(rs) == 417;
    RoundDivUnique(417, 5, 83);
  }

  /**
   * The default bands stop at whole percentages, so a percentage strictly
   * between two bands matches none: 71 of 75 marks is 94.67%, above A's 94 and
   * below A+'s 95, and grades `'F'` while the results table shows 95%.
   */
  lemma DefaultBandsLeaveGaps()
    ensures CalculateGrade(71, 75, DefaultBands()) == FallbackGrade
    ensures RowPercentage(71, 75) == Some(95)
  {
    var d := DefaultBands();
    forall j | 0 <= j < |d| ensures !InBand(d[j], 71, 75) {
    }
    NoMatchingBandIsFallback(71, 75, d);
    RoundDivUnique(7100, 75, 95);
  }
}
