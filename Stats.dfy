/**
 * Results statistics of the exam page: `getResultsStats` (grade distribution
 * and rounded average score), the completion rate of the details tab and the
 * per-row percentage of the results table.
 */
module Stats {
  import opened Wrappers
  import opened Grading
  import opened Records

  /** One entry of the grade distribution object: a label and how many results carry it. */
  datatype GradeTally = GradeTally(grade: string, count: nat)

  /** How many results store the grade `g`. */
  function CountGrade(results: seq<StudentResult>, g: string): nat {
    if results == [] then 0
    else CountGrade(results[..|results| - 1], g) + (if results[|results| - 1].grade == g then 1 else 0)
  }

  /**
   * The stored grades in order of first occurrence: the key order of a
   * JavaScript object filled by `acc[result.grade] = ...`.
   */
  function FirstSeen(results: seq<StudentResult>): seq<string> {
    if results == [] then []
    else
      var earlier := FirstSeen(results[..|results| - 1]);
      var g := results[|results| - 1].grade;
      if g in earlier then earlier else earlier + [g]
  }

  /** Sum of the raw scores. */
  function ScoreSum(results: seq<StudentResult>): int {
    if results == [] then 0 else ScoreSum(results[..|results| - 1]) + results[|results| - 1].score
  }

  /** Sum of the counts of a distribution. */
  function TallyTotal(tallies: seq<GradeTally>): nat {
    if tallies == [] then 0 else TallyTotal(tallies[..|tallies| - 1]) + tallies[|tallies| - 1].count
  }

  /** Replacing one entry changes the total by the difference of the counts. */
  lemma {:induction false} TallyTotalUpdate(tallies: seq<GradeTally>, k: nat, t: GradeTally)
    requires k < |tallies|
    ensures TallyTotal(tallies[k := t]) == TallyTotal(tallies) - tallies[k].count + t.count
  {
    var n := |tallies| - 1;
    var updated := tallies[k := t];
    assert updated[..n] == if k == n then tallies[..n] else tallies[..n][k := t];
    if k < n {
      TallyTotalUpdate(tallies[..n], k, t);
    }
  }

  /**
   * `Math.round(a / b)` for a positive divisor: the integer nearest to `a / b`,
   * halves rounded up.
   */
  function RoundDiv(a: int, b: int): (r: int)
    requires b > 0
    ensures 2 * b * r - b <= 2 * a < 2 * b * r + b
  {
    var q := (2 * a + b) / (2 * b);
    assert 2 * a + b == 2 * b * q + (2 * a + b) % (2 * b);
    q
  }

  /** Rounding to the nearest integer has one answer. */
  lemma RoundDivUnique(a: int, b: int, r: int)
    requires b > 0
    requires 2 * b * r - b <= 2 * a < 2 * b * r + b
    ensures r == RoundDiv(a, b)
  {
    var q := RoundDiv(a, b);
    assert 2 * b * (q - r) == 2 * b * q - 2 * b * r;
    assert 2 * b * (q - r) < 2 * b;
    assert 2 * b * (r - q) < 2 * b;
    BelowOneStep(2 * b, q - r);
    BelowOneStep(2 * b, r - q);
  }

  lemma BelowOneStep(m: int, x: int)
    requires m > 0 && m * x < m
    ensures x < 1
  {
  }

  /**
   * The distribution's labels: no label twice, and a label is listed exactly
   * when some result stores it.
   */
  lemma {:induction false} FirstSeenLabels(results: seq<StudentResult>)
    ensures forall j, k :: 0 <= j < k < |FirstSeen(results)| ==> FirstSeen(results)[j] != FirstSeen(results)[k]
    ensures forall g :: g in FirstSeen(results) <==> CountGrade(results, g) > 0
  {
    if results != [] {
      FirstSeenLabels(results[..|results| - 1]);
    }
  }

  /** Appending one result: its grade is counted once more, and listed if new. */
  lemma StepFacts(results: seq<StudentResult>, i: nat)
    requires i < |results|
    ensures forall x :: CountGrade(results[..i + 1], x) ==
                        CountGrade(results[..i], x) + (if results[i].grade == x then 1 else 0)
    ensures FirstSeen(results[..i + 1]) ==
      if results[i].grade in FirstSeen(results[..i]) then FirstSeen(results[..i])
      else FirstSeen(results[..i]) + [results[i].grade]
    ensures ScoreSum(results[..i + 1]) == ScoreSum(results[..i]) + results[i].score
  {
    assert results[..i + 1][..i] == results[..i];
  }

  /** `tallies` is the distribution of `results`: first-seen labels with their counts. */
  ghost predicate IsDistributionOf(tallies: seq<GradeTally>, results: seq<StudentResult>) {
    && |tallies| == |FirstSeen(results)|
    && forall j :: 0 <= j < |tallies| ==>
         tallies[j] == GradeTally(FirstSeen(results)[j], CountGrade(results, FirstSeen(results)[j]))
  }

  /** One step of the reduce: count `results[i]` into the distribution of `results[..i]`. */
  lemma TallyStep(tallies: seq<GradeTally>, results: seq<StudentResult>, i: nat, found: Option<nat>)
    requires i < |results| && IsDistributionOf(tallies, results[..i])
    requires found == FindFirst(tallies, (t: GradeTally) => t.grade == results[i].grade)
    ensures found.Some? ==> IsDistributionOf(tallies[found.value := GradeTally(results[i].grade, tallies[found.value].count + 1)], results[..i + 1])
    ensures found.None? ==> IsDistributionOf(tallies + [GradeTally(results[i].grade, 1)], results[..i + 1])
  {
    var g := results[i].grade;
    StepFacts(results, i);
    FirstSeenLabels(results[..i]);
    var labels := FirstSeen(results[..i]);
    if found.None? {
      forall j | 0 <= j < |tallies| ensures labels[j] != g {
        assert tallies[j].grade == labels[j];
      }
    }
  }

  /**
   * The grade distribution of `getResultsStats`: one entry per stored grade,
   * in first-seen order, with the number of results carrying it; the counts
   * add up to the number of results.
   */
  method GradeDistribution(results: seq<StudentResult>) returns (distribution: seq<GradeTally>)
    ensures |distribution| == |FirstSeen(results)|
    ensures forall j :: 0 <= j < |distribution| ==>
      distribution[j] == GradeTally(FirstSeen(results)[j], CountGrade(results, FirstSeen(results)[j]))
    ensures TallyTotal(distribution) == |results|
  {
    distribution := [];
    var i := 0;
    while i < |results|
      invariant 0 <= i <= |results|
      invariant IsDistributionOf(distribution, results[..i])
      invariant TallyTotal(distribution) == i
    {
      var g := results[i].grade;
      var found := FindFirst(distribution, (t: GradeTally) => t.grade == g);
      TallyStep(distribution, results, i, found);
      match found {
        case Some(k) =>
          TallyTotalUpdate(distribution, k, GradeTally(g, distribution[k].count + 1));
          distribution := distribution[k := GradeTally(g, distribution[k].count + 1)];
        case None =>
          ghost var before := distribution;
          distribution := distribution + [GradeTally(g, 1)];
          assert distribution[..|distribution| - 1] == before;
      }
      i := i + 1;
    }
    assert results[..i] == results;
  }

  /** The average score of `getResultsStats`: `Math.round(sum / n)`, or 0 for no results. */
  method AverageScore(results: seq<StudentResult>) returns (averageScore: int)
    ensures |results| == 0 ==> averageScore == 0
    ensures |results| > 0 ==>
      2 * |results| * averageScore - |results| <= 2 * ScoreSum(results) < 2 * |results| * averageScore + |results|
  {
    var sum := 0;
    var i := 0;
    while i < |results|
      invariant 0 <= i <= |results|
      invariant sum == ScoreSum(results[..i])
    {
      StepFacts(results, i);
      sum := sum + results[i].score;
      i := i + 1;
    }
    assert results[..i] == results;
    averageScore := if |results| > 0 then RoundDiv(sum, |results|) else 0;
  }

  /** `getResultsStats(results)`: the grade distribution and the average score. */
  method GetResultsStats(results: seq<StudentResult>) returns (distribution: seq<GradeTally>, averageScore: int)
    ensures IsDistributionOf(distribution, results) && TallyTotal(distribution) == |results|
    ensures averageScore == if |results| > 0 then RoundDiv(ScoreSum(results), |results|) else 0
  {
    distribution := GradeDistribution(results);
    averageScore := AverageScore(results);
    if |results| > 0 {
      RoundDivUnique(ScoreSum(results), |results|, averageScore);
    }
  }

  /** Number of submissions of an exam: `exam.results?.length || 0`. */
  function Submitted(exam: Exam): nat {
    match exam.results
    case Some(rs) => |rs|
    case None => 0
  }

  /**
   * Completion rate of the details tab: the rounded percentage of registered
   * participants who submitted, or 0 when nobody is registered.
   */
  function CompletionRate(exam: Exam): (r: int)
    ensures exam.participants <= 0 ==> r == 0
    ensures exam.participants > 0 ==>
      2 * exam.participants * r - exam.participants <= 200 * Submitted(exam) < 2 * exam.participants * r + exam.participants
  {
    if exam.participants > 0 then RoundDiv(100 * Submitted(exam), exam.participants) else 0
  }

  /** While submissions do not outnumber participants the rate is a percentage. */
  lemma CompletionRateBounds(exam: Exam)
    requires Submitted(exam) <= exam.participants
    ensures 0 <= CompletionRate(exam) <= 100
    ensures exam.participants > 0 && Submitted(exam) == exam.participants ==> CompletionRate(exam) == 100
  {
    var p, n, r := exam.participants, Submitted(exam), CompletionRate(exam);
    if p > 0 {
      RoundedBetween(100 * n, p, r, 0, 100);
      if n == p {
        RoundDivUnique(100 * n, p, 100);
      }
    }
  }

  /** A nearest-integer quotient of `a / b` with `lo * b <= a <= hi * b` lies in `[lo, hi]`. */
  lemma RoundedBetween(a: int, b: int, r: int, lo: int, hi: int)
    requires b > 0 && lo * b <= a <= hi * b
    requires 2 * b * r - b <= 2 * a < 2 * b * r + b
    ensures lo <= r <= hi
  {
    assert 2 * b * (r - hi) - b <= 0;
    assert 2 * b * (lo - r) - b < 0;
    BelowOneStep(2 * b, r - hi);
    BelowOneStep(2 * b, lo - r);
  }

  /**
   * Percentage column of the results table, `Math.round(score / totalMarks * 100)`;
   * `None` stands for the NaN or infinity a zero total produces.
   */
  function RowPercentage(score: int, totalMarks: int): (r: Option<int>)
    ensures r.None? <==> totalMarks == 0
    ensures totalMarks > 0 ==>
      2 * totalMarks * r.value - totalMarks <= 200 * score < 2 * totalMarks * r.value + totalMarks
    ensures totalMarks < 0 ==>
      2 * totalMarks * r.value - totalMarks >= 200 * score > 2 * totalMarks * r.value + totalMarks
  {
    if totalMarks > 0 then Some(RoundDiv(100 * score, totalMarks))
    else if totalMarks < 0 then Some(RoundDiv(-100 * score, -totalMarks))
    else None
  }

  /** A score between 0 and the total marks shows a percentage between 0 and 100. */
  lemma RowPercentageBounds(score: int, totalMarks: int)
    requires 0 <= score <= totalMarks && totalMarks > 0
    ensures RowPercentage(score, totalMarks).Some?
    ensures 0 <= RowPercentage(score, totalMarks).value <= 100
  {
    RoundedBetween(100 * score, totalMarks, RowPercentage(score, totalMarks).value, 0, 100);
  }
}
