/**
 * The state of the teacher's "My Exams" page and its event handlers. Each
 * handler replaces state fields the way the component's `set...` calls do;
 * the band editor also assigns a field of a criterion object in place, and the
 * change shows through every exam that holds that object.
 */
module Page {
  import opened Wrappers
  import opened Grading
  import opened Records
  import opened ExamList
  import opened ExamView
  import Fixtures

  /** The tabs of an expanded exam. */
  datatype Tab = DetailsTab | ResultsTab | GradingTab

  /**
   * `current === id ? null : id`: the toggle behind the expand button and the
   * edit/save button of the criteria editor.
   */
  function Toggle(current: Option<int>, id: int): (r: Option<int>)
    ensures r == Some(id) <==> current != Some(id)
    ensures r.Some? ==> r.value == id
  {
    if current == Some(id) then None else Some(id)
  }

  /** `parseInt(text) || fallback`: an unparseable (NaN) or zero value becomes the fallback. */
  function ParsedOr(input: Option<int>, fallback: int): (r: int)
    ensures input.Some? && input.value != 0 ==> r == input.value
    ensures input.None? || input == Some(0) ==> r == fallback
    ensures r == 0 ==> fallback == 0
  {
    match input
    case Some(v) => if v == 0 then fallback else v
    case None => fallback
  }

  /**
   * Loading the module: fresh criterion objects holding the
   * `defaultGradeCriteria` table. They live as long as the module, so every
   * later mount of the page sees them with whatever edits were made.
   */
  method NewDefaultCriteria() returns (criteria: seq<Criterion>)
    ensures Bands(criteria) == DefaultBands()
    ensures forall i :: 0 <= i < |criteria| ==> fresh(criteria[i])
  {
    var d := DefaultBands();
    criteria := [];
    for i := 0 to |d|
      invariant |criteria| == i
      invariant forall j :: 0 <= j < i ==> criteria[j].Band() == d[j] && fresh(criteria[j])
    {
      var c := new Criterion(d[i].grade, d[i].minScore, d[i].maxScore, d[i].color);
      criteria := criteria + [c];
    }
  }

  class MyExamsPage {
    var exams: seq<Exam>
    var filterStatus: StatusFilter
    var sortBy: SortKey
    var expandedExam: Option<int>
    var activeTab: map<int, Tab>
    var editingGrades: Option<int>
    var showPublishConfirm: Option<int>
    /** The module-level `defaultGradeCriteria` array. */
    const defaultGradeCriteria: seq<Criterion>

    /**
     * Mounting the page: the mock exams, all holding the module's criteria
     * array `criteria`. On the first mount that array holds the default
     * table (`NewDefaultCriteria`); on a later one it holds the bounds left
     * by earlier edits, so the mock exams' stored grades may not match them.
     */
    constructor (criteria: seq<Criterion>)
      ensures defaultGradeCriteria == criteria
      ensures exams == Fixtures.MockExams(criteria)
      ensures forall i :: 0 <= i < |exams| ==> exams[i].gradeCriteria == Some(defaultGradeCriteria)
      ensures filterStatus == AllStatuses && sortBy == ByCreatedAt
      ensures expandedExam == None && activeTab == map[]
      ensures editingGrades == None && showPublishConfirm == None
    {
      defaultGradeCriteria := criteria;
      exams := Fixtures.MockExams(criteria);
      Fixtures.MockExamsShareCriteria(criteria);
      filterStatus, sortBy := AllStatuses, ByCreatedAt;
      expandedExam, activeTab := None, map[];
      editingGrades, showPublishConfirm := None, None;
    }

    /** `exam.gradeCriteria || defaultGradeCriteria`. */
    function CriteriaOf(exam: Exam): seq<Criterion> {
      exam.gradeCriteria.GetOr(defaultGradeCriteria)
    }

    /** The list the page renders. */
    function Shown(): (r: seq<Exam>)
      reads this
      ensures multiset(r) == multiset(FilterStatus(exams, filterStatus)) && Sorted(r, sortBy)
    {
      FilteredExams(exams, filterStatus, sortBy)
    }

    /** `activeTab[exam.id] || 'details'`. */
    function CurrentTab(id: int): (r: Tab)
      reads this
      ensures id in activeTab ==> r == activeTab[id]
      ensures id !in activeTab ==> r == DetailsTab
    {
      if id in activeTab then activeTab[id] else DetailsTab
    }

    /** The status select's `onChange`. */
    method SetFilterStatus(filter: StatusFilter)
      modifies this
      ensures filterStatus == filter && sortBy == old(sortBy) && exams == old(exams)
      ensures expandedExam == old(expandedExam) && activeTab == old(activeTab)
      ensures editingGrades == old(editingGrades) && showPublishConfirm == old(showPublishConfirm)
    {
      filterStatus := filter;
    }

    /** The sort select's `onChange`. */
    method SetSortBy(key: SortKey)
      modifies this
      ensures sortBy == key && filterStatus == old(filterStatus) && exams == old(exams)
      ensures expandedExam == old(expandedExam) && activeTab == old(activeTab)
      ensures editingGrades == old(editingGrades) && showPublishConfirm == old(showPublishConfirm)
    {
      sortBy := key;
    }

    /** `handleDelete(id)`; `confirmed` is the answer to the confirmation prompt. */
    method HandleDelete(id: int, confirmed: bool)
      modifies this
      ensures exams == if confirmed then Delete(old(exams), id) else old(exams)
      ensures filterStatus == old(filterStatus) && sortBy == old(sortBy)
      ensures expandedExam == old(expandedExam) && activeTab == old(activeTab)
      ensures editingGrades == old(editingGrades) && showPublishConfirm == old(showPublishConfirm)
    {
      if confirmed {
        exams := Delete(exams, id);
      }
    }

    /** `handlePublish(id)`. */
    method HandlePublish(id: int)
      modifies this
      ensures exams == Publish(old(exams), id)
      ensures filterStatus == old(filterStatus) && sortBy == old(sortBy)
      ensures expandedExam == old(expandedExam) && activeTab == old(activeTab)
      ensures editingGrades == old(editingGrades) && showPublishConfirm == old(showPublishConfirm)
    {
      exams := Publish(exams, id);
    }

    /** The "Publish Results" button: open the confirmation dialog for the exam. */
    method OpenPublishConfirm(id: int)
      modifies this
      ensures showPublishConfirm == Some(id) && exams == old(exams)
      ensures filterStatus == old(filterStatus) && sortBy == old(sortBy)
      ensures expandedExam == old(expandedExam) && activeTab == old(activeTab)
      ensures editingGrades == old(editingGrades)
    {
      showPublishConfirm := Some(id);
    }

    /** The dialog's "Cancel": close it and change nothing else. */
    method CancelPublishConfirm()
      modifies this
      ensures showPublishConfirm == None && exams == old(exams)
      ensures filterStatus == old(filterStatus) && sortBy == old(sortBy)
      ensures expandedExam == old(expandedExam) && activeTab == old(activeTab)
      ensures editingGrades == old(editingGrades)
    {
      showPublishConfirm := None;
    }

    /** `handlePublishResults(id)`: set the results flag and close the dialog. */
    method HandlePublishResults(id: int)
      modifies this
      ensures exams == SetResultsPublished(old(exams), id, true)
      ensures showPublishConfirm == None
      ensures filterStatus == old(filterStatus) && sortBy == old(sortBy)
      ensures expandedExam == old(expandedExam) && activeTab == old(activeTab)
      ensures editingGrades == old(editingGrades)
    {
      exams := SetResultsPublished(exams, id, true);
      showPublishConfirm := None;
    }

    /** `handleUnpublishResults(id)`. */
    method HandleUnpublishResults(id: int)
      modifies this
      ensures exams == SetResultsPublished(old(exams), id, false)
      ensures filterStatus == old(filterStatus) && sortBy == old(sortBy)
      ensures expandedExam == old(expandedExam) && activeTab == old(activeTab)
      ensures editingGrades == old(editingGrades) && showPublishConfirm == old(showPublishConfirm)
    {
      exams := SetResultsPublished(exams, id, false);
    }

    /**
     * `updateGradeCriteria(id, criteria)`: the exams with the id take the
     * array and have every result regraded against the bands its objects hold now.
     */
    method UpdateGradeCriteria(id: int, criteria: seq<Criterion>)
      modifies this
      ensures exams == Reclassify(old(exams), id, criteria, Bands(criteria))
      ensures filterStatus == old(filterStatus) && sortBy == old(sortBy)
      ensures expandedExam == old(expandedExam) && activeTab == old(activeTab)
      ensures editingGrades == old(editingGrades) && showPublishConfirm == old(showPublishConfirm)
    {
      exams := Reclassify(exams, id, criteria, Bands(criteria));
    }

    /** `handleTabChange(id, tab)`. */
    method HandleTabChange(id: int, tab: Tab)
      modifies this
      ensures activeTab == old(activeTab)[id := tab] && CurrentTab(id) == tab
      ensures exams == old(exams) && expandedExam == old(expandedExam)
      ensures filterStatus == old(filterStatus) && sortBy == old(sortBy)
      ensures editingGrades == old(editingGrades) && showPublishConfirm == old(showPublishConfirm)
    {
      activeTab := activeTab[id := tab];
    }

    /**
     * `toggleExamExpansion(id)`: collapse the exam if it is the expanded one,
     * otherwise expand it (collapsing any other); either way its tab is reset
     * to the details tab.
     */
    method ToggleExamExpansion(id: int)
      modifies this
      ensures expandedExam == Toggle(old(expandedExam), id)
      ensures activeTab == old(activeTab)[id := DetailsTab]
      ensures exams == old(exams)
      ensures filterStatus == old(filterStatus) && sortBy == old(sortBy)
      ensures editingGrades == old(editingGrades) && showPublishConfirm == old(showPublishConfirm)
    {
      expandedExam := Toggle(expandedExam, id);
      activeTab := activeTab[id := DetailsTab];
    }

    /** The "Edit Criteria" / "Save Changes" button at the top of the grading tab. */
    method ToggleEditing(id: int)
      modifies this
      ensures editingGrades == Toggle(old(editingGrades), id)
      ensures exams == old(exams) && expandedExam == old(expandedExam) && activeTab == old(activeTab)
      ensures filterStatus == old(filterStatus) && sortBy == old(sortBy)
      ensures showPublishConfirm == old(showPublishConfirm)
    {
      editingGrades := Toggle(editingGrades, id);
    }

    /**
     * The editor's "Cancel": leaves editing and restores nothing; the bands
     * and grades edited so far stay as they are.
     */
    method CancelEditing()
      modifies this
      ensures editingGrades == None
      ensures exams == old(exams) && expandedExam == old(expandedExam) && activeTab == old(activeTab)
      ensures filterStatus == old(filterStatus) && sortBy == old(sortBy)
      ensures showPublishConfirm == old(showPublishConfirm)
    {
      editingGrades := None;
    }

    /** The editor's "Save Changes": leaves editing; the edits were applied already. */
    method SaveEditing()
      modifies this
      ensures editingGrades == None
      ensures exams == old(exams) && expandedExam == old(expandedExam) && activeTab == old(activeTab)
      ensures filterStatus == old(filterStatus) && sortBy == old(sortBy)
      ensures showPublishConfirm == old(showPublishConfirm)
    {
      editingGrades := None;
    }

    /**
     * Typing into a band's minimum: the criterion object at `index` of the
     * exam's criteria array gets `parseInt(text) || 0` as its minimum, in
     * place, and `updateGradeCriteria` regrades the exam against the array.
     * Every exam holding the same array sees the new minimum, but only the
     * edited exam's grades are recomputed.
     */
    method EditMinScore(exam: Exam, index: nat, input: Option<int>)
      requires index < |CriteriaOf(exam)|
      modifies this, CriteriaOf(exam)[index]
      ensures CriteriaOf(exam)[index].minScore == ParsedOr(input, 0)
      ensures CriteriaOf(exam)[index].grade == old(CriteriaOf(exam)[index].grade)
      ensures CriteriaOf(exam)[index].maxScore == old(CriteriaOf(exam)[index].maxScore)
      ensures CriteriaOf(exam)[index].color == old(CriteriaOf(exam)[index].color)
      ensures exams == Reclassify(old(exams), exam.id, CriteriaOf(exam), Bands(CriteriaOf(exam)))
      ensures forall i :: 0 <= i < |exams| && CriteriaOf(exams[i]) == CriteriaOf(exam) ==>
        Bands(CriteriaOf(exams[i]))[index].minScore == ParsedOr(input, 0)
      ensures filterStatus == old(filterStatus) && sortBy == old(sortBy)
      ensures expandedExam == old(expandedExam) && activeTab == old(activeTab)
      ensures editingGrades == old(editingGrades) && showPublishConfirm == old(showPublishConfirm)
    {
      var criteria := CriteriaOf(exam);
      criteria[index].minScore := ParsedOr(input, 0);
      UpdateGradeCriteria(exam.id, criteria);
    }

    /**
     * Typing into a band's maximum: as for the minimum, with
     * `parseInt(text) || 100`, so an empty, unparseable or zero maximum
     * becomes 100.
     */
    method EditMaxScore(exam: Exam, index: nat, input: Option<int>)
      requires index < |CriteriaOf(exam)|
      modifies this, CriteriaOf(exam)[index]
      ensures CriteriaOf(exam)[index].maxScore == ParsedOr(input, 100)
      ensures input.None? || input == Some(0) ==> CriteriaOf(exam)[index].maxScore == 100
      ensures CriteriaOf(exam)[index].grade == old(CriteriaOf(exam)[index].grade)
      ensures CriteriaOf(exam)[index].minScore == old(CriteriaOf(exam)[index].minScore)
      ensures CriteriaOf(exam)[index].color == old(CriteriaOf(exam)[index].color)
      ensures exams == Reclassify(old(exams), exam.id, CriteriaOf(exam), Bands(CriteriaOf(exam)))
      ensures forall i :: 0 <= i < |exams| && CriteriaOf(exams[i]) == CriteriaOf(exam) ==>
        Bands(CriteriaOf(exams[i]))[index].maxScore == ParsedOr(input, 100)
      ensures filterStatus == old(filterStatus) && sortBy == old(sortBy)
      ensures expandedExam == old(expandedExam) && activeTab == old(activeTab)
      ensures editingGrades == old(editingGrades) && showPublishConfirm == old(showPublishConfirm)
    {
      var criteria := CriteriaOf(exam);
      criteria[index].maxScore := ParsedOr(input, 100);
      UpdateGradeCriteria(exam.id, criteria);
    }
  }
}
