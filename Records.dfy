/**
 * The records the exam page keeps in its state: exams, the students' results
 * and the grade criteria. Results and exams are values (the page replaces them
 * with spread copies); a criterion is an object, because the band editor
 * assigns its fields in place and one criteria array is shared by several
 * exams.
 */
module Records {
  import opened Wrappers
  import opened Grading

  datatype ExamStatus = Draft | Published | Completed
  datatype ResultStatus = Submitted | Graded

  /** One student's submission (`StudentResult`); `grade` is stored, not derived. */
  datatype StudentResult = StudentResult(
    id: int,
    studentName: string,
    email: string,
    score: int,
    grade: string,
    submittedAt: string,
    timeTaken: int,
    status: ResultStatus)

  /**
   * An exam record. Dates are abstract timestamps (larger is later);
   * `gradeCriteria` and `results` are optional, as in the source.
   */
  datatype Exam = Exam(
    id: int,
    title: string,
    description: string,
    duration: int,
    totalMarks: int,
    questions: int,
    deadline: int,
    status: ExamStatus,
    participants: int,
    createdAt: int,
    gradeCriteria: Option<seq<Criterion>>,
    results: Option<seq<StudentResult>>,
    resultsPublished: bool)

  /** A grade criterion object (`GradeCriteria`), whose bounds are edited in place. */
  class Criterion {
    var grade: string
    var minScore: int
    var maxScore: int
    var color: string

    constructor (grade: string, minScore: int, maxScore: int, color: string)
      ensures this.grade == grade && this.minScore == minScore
      ensures this.maxScore == maxScore && this.color == color
    {
      this.grade := grade;
      this.minScore := minScore;
      this.maxScore := maxScore;
      this.color := color;
    }

    /** The band this criterion currently describes. */
    function Band(): GradeBand
      reads this
    {
      GradeBand(grade, minScore, maxScore, color)
    }
  }

  /** The bands a criteria array describes in the current heap. */
  function Bands(criteria: seq<Criterion>): (r: seq<GradeBand>)
    reads criteria
    ensures |r| == |criteria|
    ensures forall i :: 0 <= i < |criteria| ==> r[i] == criteria[i].Band()
  {
    seq(|criteria|, i reads criteria requires 0 <= i < |criteria| => criteria[i].Band())
  }
}
