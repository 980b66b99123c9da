/**
 * Score-to-grade classification of the teacher's exam page: `calculateGrade`
 * and `getGradeColor`. A band's bounds are percentages of the exam's total
 * marks; the lookup takes the first band, in list order, whose inclusive range
 * contains the score's percentage.
 */
module Grading {
  import opened Wrappers

  /** One grade band (the source's `GradeCriteria` record), as a value. */
  datatype GradeBand = GradeBand(grade: string, minScore: int, maxScore: int, color: string)

  /** Label returned when no band matches. */
  const FallbackGrade: string := "F"
  /** Colour returned when no band carries the label. */
  const FallbackColor: string := "bg-gray-500"

  /**
   * The first index of `s` whose element satisfies `p` (JavaScript's
   * `Array.prototype.find`, returning the position instead of the element).
   */
  function FindFirst<T>(s: seq<T>, p: T -> bool): (r: Option<nat>)
    ensures r.Some? ==> r.value < |s| && p(s[r.value])
    ensures r.Some? ==> forall j :: 0 <= j < r.value ==> !p(s[j])
    ensures r.None? <==> forall j :: 0 <= j < |s| ==> !p(s[j])
  {
    if s == [] then None
    else if p(s[0]) then Some(0)
    else match FindFirst(s[1..], p)
      case None => None
      case Some(k) => Some(k + 1)
  }

  /**
   * Whether the percentage `score / totalMarks * 100` lies in
   * `[band.minScore, band.maxScore]`, decided exactly on integers: both sides
   * of each comparison are multiplied by `totalMarks`, which flips the
   * comparisons when `totalMarks` is negative. With `totalMarks == 0` the
   * JavaScript percentage is NaN or an infinity, which no finite band contains.
   */
  predicate InBand(band: GradeBand, score: int, totalMarks: int) {
    if totalMarks > 0 then
      band.minScore * totalMarks <= score * 100 <= band.maxScore * totalMarks
    else if totalMarks < 0 then
      band.maxScore * totalMarks <= score * 100 <= band.minScore * totalMarks
    else
      false
  }

  /** `label || 'F'`: the empty string is falsy in JavaScript. */
  function LabelOrFallback(name: string): (r: string)
    ensures r != ""
    ensures r == name || (name == "" && r == FallbackGrade)
  {
    if name == "" then FallbackGrade else name
  }

  /** `calculateGrade(score, totalMarks, gradeCriteria)`. */
  function CalculateGrade(score: int, totalMarks: int, bands: seq<GradeBand>): (r: string)
    ensures r != ""
  {
    match FindFirst(bands, (b: GradeBand) => InBand(b, score, totalMarks))
    case Some(i) => LabelOrFallback(bands[i].grade)
    case None => FallbackGrade
  }

  /** `getGradeColor(grade, gradeCriteria)`: the first band carrying the label. */
  function GradeColor(grade: string, bands: seq<GradeBand>): (r: string)
    ensures r != ""
    ensures (forall j :: 0 <= j < |bands| ==> bands[j].grade != grade) ==> r == FallbackColor
  {
    match FindFirst(bands, (b: GradeBand) => b.grade == grade)
    case Some(i) => if bands[i].color == "" then FallbackColor else bands[i].color
    case None => FallbackColor
  }

  /** The page's `defaultGradeCriteria` table, as values. */
  function DefaultBands(): seq<GradeBand> {
    [ GradeBand("A+", 95, 100, "bg-green-600"),
      GradeBand("A", 90, 94, "bg-green-500"),
      GradeBand("B+", 85, 89, "bg-blue-500"),
      GradeBand("B", 80, 84, "bg-blue-400"),
      GradeBand("C+", 75, 79, "bg-yellow-500"),
      GradeBand("C", 70, 74, "bg-yellow-400"),
      GradeBand("D", 60, 69, "bg-orange-500"),
      GradeBand("F", 0, 59, "bg-red-500") ]
  }

  // ---------------------------------------------------------------------------
  // Properties of the classification
  // ---------------------------------------------------------------------------

  /**
   * For a non-zero total, `InBand` is the comparison the source makes on the
   * real percentage `score / totalMarks * 100`.
   */
  lemma InBandIsPercentageRange(band: GradeBand, score: int, totalMarks: int)
    requires totalMarks != 0
    ensures InBand(band, score, totalMarks) <==>
      band.minScore as real <= (score as real / totalMarks as real) * 100.0 <= band.maxScore as real
  {
    var p := (score as real / totalMarks as real) * 100.0;
    assert p * totalMarks as real == (score * 100) as real;
    LowerBoundScaled(band.minScore, totalMarks, score * 100, p);
    UpperBoundScaled(band.maxScore, totalMarks, score * 100, p);
  }

  /** `x <= p` for `p = n / t`, stated without the division. */
  lemma LowerBoundScaled(x: int, t: int, n: int, p: real)
    requires t != 0 && p * t as real == n as real
    ensures x as real <= p <==> (if t > 0 then x * t <= n else n <= x * t)
  {
    assert (x * t) as real == x as real * t as real;
    if t > 0 {
      ScaleKeepsOrder(x as real, p, t as real);
    } else {
      ScaleFlipsOrder(x as real, p, t as real);
    }
  }

  /** `p <= x` for `p = n / t`, stated without the division. */
  lemma UpperBoundScaled(x: int, t: int, n: int, p: real)
    requires t != 0 && p * t as real == n as real
    ensures p <= x as real <==> (if t > 0 then n <= x * t else x * t <= n)
  {
    assert (x * t) as real == x as real * t as real;
    if t > 0 {
      ScaleKeepsOrder(p, x as real, t as real);
    } else {
      ScaleFlipsOrder(p, x as real, t as real);
    }
  }

  /** Multiplying both sides by a positive factor keeps an inequality. */
  lemma ScaleKeepsOrder(x: real, y: real, t: real)
    requires t > 0.0
    ensures x <= y <==> x * t <= y * t
  {
    assert y * t - x * t == (y - x) * t;
  }

  /** Multiplying both sides by a negative factor reverses an inequality. */
  lemma ScaleFlipsOrder(x: real, y: real, t: real)
    requires t < 0.0
    ensures x <= y <==> y * t <= x * t
  {
    assert x * t - y * t == (y - x) * -t;
  }

  /**
   * The first band in list order that contains the percentage decides the
   * grade; a later band that also contains it never wins.
   */
  lemma FirstMatchingBandWins(score: int, totalMarks: int, bands: seq<GradeBand>, i: nat)
    requires i < |bands| && InBand(bands[i], score, totalMarks)
    requires forall j :: 0 <= j < i ==> !InBand(bands[j], score, totalMarks)
    ensures CalculateGrade(score, totalMarks, bands) == LabelOrFallback(bands[i].grade)
  {
    var p := (b: GradeBand) => InBand(b, score, totalMarks);
    assert p(bands[i]);
    assert forall j :: 0 <= j < i ==> !p(bands[j]);
  }

  /** When no band contains the percentage the grade is `'F'`. */
  lemma NoMatchingBandIsFallback(score: int, totalMarks: int, bands: seq<GradeBand>)
    requires forall j :: 0 <= j < |bands| ==> !InBand(bands[j], score, totalMarks)
    ensures CalculateGrade(score, totalMarks, bands) == FallbackGrade
  {
    var p := (b: GradeBand) => InBand(b, score, totalMarks);
    assert forall j :: 0 <= j < |bands| ==> !p(bands[j]);
  }

  /** A zero total (NaN or an infinite percentage in the source) grades `'F'`. */
  lemma ZeroTotalIsFallback(score: int, bands: seq<GradeBand>)
    ensures CalculateGrade(score, 0, bands) == FallbackGrade
  {
    NoMatchingBandIsFallback(score, 0, bands);
  }

  /**
   * A score above the total marks grades `'F'` when every band stops at 100%.
   */
  lemma AboveTotalIsFallback(score: int, totalMarks: int, bands: seq<GradeBand>)
    requires 0 < totalMarks < score
    requires forall j :: 0 <= j < |bands| ==> bands[j].maxScore <= 100
    ensures CalculateGrade(score, totalMarks, bands) == FallbackGrade
  {
    forall j | 0 <= j < |bands|
      ensures !InBand(bands[j], score, totalMarks)
    {
      calc {
        bands[j].maxScore * totalMarks;
      <=  { MulMonotone(bands[j].maxScore, 100, totalMarks); }
        100 * totalMarks;
      <
        score * 100;
      }
    }
    NoMatchingBandIsFallback(score, totalMarks, bands);
  }

  lemma MulMonotone(a: int, b: int, c: int)
    requires a <= b && 0 <= c
    ensures a * c <= b * c
  {
  }

  /**
   * Whenever some band contains the percentage, the grade is the (non-empty)
   * label of a band that contains it: the result is never a label whose band
   * misses the score, unless it is the fallback for an empty label.
   */
  lemma GradeComesFromContainingBand(score: int, totalMarks: int, bands: seq<GradeBand>, k: nat)
    requires k < |bands| && InBand(bands[k], score, totalMarks)
    ensures exists i :: 0 <= i <= k && InBand(bands[i], score, totalMarks) &&
                        CalculateGrade(score, totalMarks, bands) == LabelOrFallback(bands[i].grade)
  {
    var p := (b: GradeBand) => InBand(b, score, totalMarks);
    var r := FindFirst(bands, p);
    assert p(bands[k]);
    var i := r.value;
    FirstMatchingBandWins(score, totalMarks, bands, i);
  }

  /**
   * When no earlier band carries its label, the colour looked up for a band's
   * label is that band's own colour (or the grey fallback when it has none).
   */
  lemma ColorOfFirstLabel(bands: seq<GradeBand>, i: nat)
    requires i < |bands|
    requires forall j :: 0 <= j < i ==> bands[j].grade != bands[i].grade
    ensures GradeColor(bands[i].grade, bands) ==
      (if bands[i].color == "" then FallbackColor else bands[i].color)
  {
    var p := (b: GradeBand) => b.grade == bands[i].grade;
    assert p(bands[i]);
    assert forall j :: 0 <= j < i ==> !p(bands[j]);
  }

  /** `find` gives the same answer on two lists the predicate cannot tell apart. */
  lemma {:induction false} FindFirstAgrees<T>(s: seq<T>, t: seq<T>, p: T -> bool)
    requires |s| == |t|
    requires forall j :: 0 <= j < |s| ==> p(s[j]) == p(t[j])
    ensures FindFirst(s, p) == FindFirst(t, p)
  {
    if s != [] {
      FindFirstAgrees(s[1..], t[1..], p);
    }
  }

  /**
   * Editing band `k` changes a score's grade only if its percentage lies in
   * the band's old range or in its new one; every other grade stays.
   */
  lemma EditOutsideBandKeepsGrade(score: int, totalMarks: int, bands: seq<GradeBand>, k: nat, edited: GradeBand)
    requires k < |bands|
    requires !InBand(bands[k], score, totalMarks) && !InBand(edited, score, totalMarks)
    ensures CalculateGrade(score, totalMarks, bands[k := edited]) == CalculateGrade(score, totalMarks, bands)
  {
    var p := (b: GradeBand) => InBand(b, score, totalMarks);
    var after := bands[k := edited];
    forall j | 0 <= j < |bands| ensures p(bands[j]) == p(after[j]) {
    }
    FindFirstAgrees(bands, after, p);
    match FindFirst(bands, p)
    case Some(i) =>
      assert i != k;
    case None =>
  }

  /** Every default band stops at 100%. */
  lemma DefaultBandsEndAt100()
    ensures forall j :: 0 <= j < |DefaultBands()| ==> DefaultBands()[j].maxScore <= 100
  {
  }
}
