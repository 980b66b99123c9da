/**
 * The list the page renders, `filteredExams`: the exams whose status matches
 * the status filter, stably sorted by the chosen key.
 */
module ExamView {
  import opened Records

  /** The status select: `'all'` or one status. */
  datatype StatusFilter = AllStatuses | OnlyStatus(status: ExamStatus)

  /** The sort select; `Unsorted` is any other value, for which the comparator returns 0. */
  datatype SortKey = ByCreatedAt | ByDeadline | ByTitle | Unsorted

  /** `filterStatus === 'all' || exam.status === filterStatus`. */
  predicate Matches(exam: Exam, filter: StatusFilter) {
    filter.AllStatuses? || exam.status == filter.status
  }

  /** The `.filter(...)` step. */
  function FilterStatus(exams: seq<Exam>, filter: StatusFilter): (r: seq<Exam>)
    ensures forall i :: 0 <= i < |r| ==> Matches(r[i], filter)
    ensures multiset(r) <= multiset(exams)
    ensures filter == AllStatuses ==> r == exams
  {
    if exams == [] then []
    else
      var rest := FilterStatus(exams[1..], filter);
      assert exams == [exams[0]] + exams[1..];
      if Matches(exams[0], filter) then [exams[0]] + rest else rest
  }

  /** The filter drops no matching exam: each keeps all its occurrences. */
  lemma {:induction false} FilterKeepsMatches(exams: seq<Exam>, filter: StatusFilter, i: nat)
    requires i < |exams| && Matches(exams[i], filter)
    ensures multiset(FilterStatus(exams, filter))[exams[i]] == multiset(exams)[exams[i]]
  {
    var x := exams[i];
    var rest := FilterStatus(exams[1..], filter);
    assert exams == [exams[0]] + exams[1..];
    if x in exams[1..] {
      var k :| 0 <= k < |exams[1..]| && exams[1..][k] == x;
      FilterKeepsMatches(exams[1..], filter, k);
    } else {
      assert multiset(exams[1..])[x] == 0;
      assert multiset(rest)[x] == 0;
    }
  }

  lemma FilterCons(x: Exam, s: seq<Exam>, filter: StatusFilter)
    ensures FilterStatus([x] + s, filter) == (if Matches(x, filter) then [x] else []) + FilterStatus(s, filter)
  {
    assert ([x] + s)[1..] == s;
  }

  /** The filter keeps the relative order of the exams it keeps. */
  lemma {:induction false} FilterKeepsOrder(a: seq<Exam>, b: seq<Exam>, filter: StatusFilter)
    ensures FilterStatus(a + b, filter) == FilterStatus(a, filter) + FilterStatus(b, filter)
  {
    if a != [] {
      var own := if Matches(a[0], filter) then [a[0]] else [];
      assert a + b == [a[0]] + (a[1..] + b);
      assert a == [a[0]] + a[1..];
      FilterKeepsOrder(a[1..], b, filter);
      FilterCons(a[0], a[1..] + b, filter);
      FilterCons(a[0], a[1..], filter);
      assert own + (FilterStatus(a[1..], filter) + FilterStatus(b, filter))
          == (own + FilterStatus(a[1..], filter)) + FilterStatus(b, filter);
    } else {
      assert a + b == b;
    }
  }

  /**
   * Code-point lexicographic order on titles, standing in for
   * `a.title.localeCompare(b.title) <= 0`.
   */
  predicate TitleLe(a: string, b: string) {
    if a == [] then true
    else if b == [] then false
    else if a[0] != b[0] then a[0] < b[0]
    else TitleLe(a[1..], b[1..])
  }

  lemma {:induction false} TitleLeTotal(a: string, b: string)
    ensures TitleLe(a, b) || TitleLe(b, a)
  {
    if a != [] && b != [] && a[0] == b[0] {
      TitleLeTotal(a[1..], b[1..]);
    }
  }

  lemma {:induction false} TitleLeTransitive(a: string, b: string, c: string)
    requires TitleLe(a, b) && TitleLe(b, c)
    ensures TitleLe(a, c)
  {
    if a != [] && b != [] && c != [] && a[0] == b[0] && b[0] == c[0] {
      TitleLeTransitive(a[1..], b[1..], c[1..]);
    }
  }

  /**
   * `a` may precede `b`: the comparator of `.sort(...)` gives a value `<= 0`,
   * newest created first, earliest deadline first, or titles in order.
   */
  predicate InOrder(a: Exam, b: Exam, key: SortKey) {
    match key
    case ByCreatedAt => b.createdAt - a.createdAt <= 0
    case ByDeadline => a.deadline - b.deadline <= 0
    case ByTitle => TitleLe(a.title, b.title)
    case Unsorted => true
  }

  lemma InOrderTotal(a: Exam, b: Exam, key: SortKey)
    ensures InOrder(a, b, key) || InOrder(b, a, key)
  {
    if key == ByTitle {
      TitleLeTotal(a.title, b.title);
    }
  }

  lemma InOrderTransitive(a: Exam, b: Exam, c: Exam, key: SortKey)
    requires InOrder(a, b, key) && InOrder(b, c, key)
    ensures InOrder(a, c, key)
  {
    if key == ByTitle {
      TitleLeTransitive(a.title, b.title, c.title);
    }
  }

  predicate Sorted(s: seq<Exam>, key: SortKey) {
    forall i, j :: 0 <= i < j < |s| ==> InOrder(s[i], s[j], key)
  }

  /** Insert `x` before the first element it may precede. */
  function Insert(x: Exam, s: seq<Exam>, key: SortKey): (r: seq<Exam>)
    ensures multiset(r) == multiset(s) + multiset{x}
    ensures forall i :: 0 <= i < |r| ==> r[i] == x || r[i] in s
  {
    if s == [] then [x]
    else if InOrder(x, s[0], key) then [x] + s
    else
      assert s == [s[0]] + s[1..];
      [s[0]] + Insert(x, s[1..], key)
  }

  lemma {:induction false} InsertSorted(x: Exam, s: seq<Exam>, key: SortKey)
    requires Sorted(s, key)
    ensures Sorted(Insert(x, s, key), key)
  {
    if s == [] {
    } else if InOrder(x, s[0], key) {
      forall i | 0 < i < |s| ensures InOrder(x, s[i], key) {
        InOrderTransitive(x, s[0], s[i], key);
      }
    } else {
      var rest := Insert(x, s[1..], key);
      InsertSorted(x, s[1..], key);
      InOrderTotal(x, s[0], key);
      forall j | 0 <= j < |rest| ensures InOrder(s[0], rest[j], key) {
        if rest[j] != x {
          var k :| 0 <= k < |s[1..]| && s[1..][k] == rest[j];
          assert s[k + 1] == rest[j];
        }
      }
      assert Insert(x, s, key) == [s[0]] + rest;
    }
  }

  /**
   * Insertion sort with JavaScript's comparator; each element goes before the
   * first later-sorted element it may precede, so ties keep their input order.
   */
  function SortExams(s: seq<Exam>, key: SortKey): (r: seq<Exam>)
    ensures multiset(r) == multiset(s)
    ensures Sorted(r, key)
  {
    if s == [] then []
    else
      assert s == [s[0]] + s[1..];
      InsertSorted(s[0], SortExams(s[1..], key), key);
      Insert(s[0], SortExams(s[1..], key), key)
  }

  /**
   * `filteredExams`: exactly the matching exams (every one of them, each as
   * often as in the list), ordered by the sort key.
   */
  function FilteredExams(exams: seq<Exam>, filter: StatusFilter, key: SortKey): (r: seq<Exam>)
    ensures multiset(r) == multiset(FilterStatus(exams, filter))
    ensures Sorted(r, key)
  {
    SortExams(FilterStatus(exams, filter), key)
  }

  /**
   * The rendered list holds only matching exams, and every matching exam as
   * many times as the state holds it.
   */
  lemma FilteredExamsExactly(exams: seq<Exam>, filter: StatusFilter, key: SortKey)
    ensures forall i :: 0 <= i < |FilteredExams(exams, filter, key)| ==> Matches(FilteredExams(exams, filter, key)[i], filter)
    ensures forall i :: 0 <= i < |exams| && Matches(exams[i], filter) ==>
      multiset(FilteredExams(exams, filter, key))[exams[i]] == multiset(exams)[exams[i]]
  {
    var f := FilterStatus(exams, filter);
    var r := FilteredExams(exams, filter, key);
    forall i | 0 <= i < |exams| && Matches(exams[i], filter)
      ensures multiset(r)[exams[i]] == multiset(exams)[exams[i]]
    {
      FilterKeepsMatches(exams, filter, i);
    }
    forall i | 0 <= i < |r| ensures Matches(r[i], filter) {
      assert r[i] in multiset(r);
      assert r[i] in f;
      var j :| 0 <= j < |f| && f[j] == r[i];
    }
  }

  /**
   * A list already in order comes out as it went in: an exam tied with the
   * exams after it is never moved past them.
   */
  lemma {:induction false} SortedInputKept(s: seq<Exam>, key: SortKey)
    requires Sorted(s, key)
    ensures SortExams(s, key) == s
  {
    if s != [] {
      assert Sorted(s[1..], key);
      SortedInputKept(s[1..], key);
      assert |s| > 1 ==> InOrder(s[0], s[1..][0], key);
      assert SortExams(s, key) == Insert(s[0], s[1..], key);
      assert s == [s[0]] + s[1..];
    }
  }

  /** `a` and `b` compare equal: the comparator returns 0 for them. */
  predicate Tied(a: Exam, b: Exam, key: SortKey) {
    InOrder(a, b, key) && InOrder(b, a, key)
  }

  /** The exams of `s` that tie with `e`, in the order `s` holds them. */
  function TiedWith(s: seq<Exam>, e: Exam, key: SortKey): seq<Exam> {
    if s == [] then []
    else (if Tied(s[0], e, key) then [s[0]] else []) + TiedWith(s[1..], e, key)
  }

  lemma TiedWithCons(x: Exam, s: seq<Exam>, e: Exam, key: SortKey)
    ensures TiedWith([x] + s, e, key) == (if Tied(x, e, key) then [x] else []) + TiedWith(s, e, key)
  {
    assert ([x] + s)[1..] == s;
  }

  lemma InsertPast(x: Exam, s: seq<Exam>, key: SortKey)
    requires s != [] && !InOrder(x, s[0], key)
    ensures Insert(x, s, key) == [s[0]] + Insert(x, s[1..], key)
  {
  }

  /** Two exams that both tie with `e` are in order, whichever comes first. */
  lemma BothTiedInOrder(x: Exam, y: Exam, e: Exam, key: SortKey)
    requires Tied(x, e, key) && Tied(y, e, key)
    ensures InOrder(x, y, key)
  {
    InOrderTransitive(x, e, y, key);
  }

  /**
   * Inserting `x` puts it in front of every exam it ties with: if it went
   * past one, the comparator would order `x` before that exam.
   */
  lemma {:induction false} InsertTied(x: Exam, s: seq<Exam>, e: Exam, key: SortKey)
    ensures TiedWith(Insert(x, s, key), e, key) ==
      (if Tied(x, e, key) then [x] else []) + TiedWith(s, e, key)
  {
    if s == [] {
      TiedWithCons(x, [], e, key);
    } else if InOrder(x, s[0], key) {
      TiedWithCons(x, s, e, key);
    } else {
      InsertTied(x, s[1..], e, key);
      InsertTiedPast(x, s, e, key);
    }
  }

  /** The step of `InsertTied` where `x` goes past the first exam. */
  lemma InsertTiedPast(x: Exam, s: seq<Exam>, e: Exam, key: SortKey)
    requires s != [] && !InOrder(x, s[0], key)
    requires TiedWith(Insert(x, s[1..], key), e, key) ==
      (if Tied(x, e, key) then [x] else []) + TiedWith(s[1..], e, key)
    ensures TiedWith(Insert(x, s, key), e, key) ==
      (if Tied(x, e, key) then [x] else []) + TiedWith(s, e, key)
  {
    var own := if Tied(x, e, key) then [x] else [];
    var head := if Tied(s[0], e, key) then [s[0]] else [];
    InsertPast(x, s, key);
    TiedWithCons(s[0], Insert(x, s[1..], key), e, key);
    if Tied(x, e, key) && Tied(s[0], e, key) {
      BothTiedInOrder(x, s[0], e, key);
    }
    SwapHeads(own, head, TiedWith(s[1..], e, key));
  }

  /** At most one of two prefixes is non-empty, so they commute. */
  lemma SwapHeads<T>(own: seq<T>, head: seq<T>, t: seq<T>)
    requires own == [] || head == []
    ensures head + (own + t) == own + (head + t)
  {
    if own == [] {
      assert own + t == t && own + (head + t) == head + t;
    } else {
      assert head + (own + t) == own + t && head + t == t;
    }
  }

  /**
   * The sort is stable: the exams that tie with any given exam come out in
   * the order they went in.
   */
  lemma {:induction false} SortStable(s: seq<Exam>, e: Exam, key: SortKey)
    ensures TiedWith(SortExams(s, key), e, key) == TiedWith(s, e, key)
  {
    if s != [] {
      SortStable(s[1..], e, key);
      InsertTied(s[0], SortExams(s[1..], key), e, key);
    }
  }

  /** For any other sort value the comparator ties everything and the order is kept. */
  lemma UnsortedKeepsOrder(s: seq<Exam>)
    ensures SortExams(s, Unsorted) == s
  {
    SortedInputKept(s, Unsorted);
  }

  /** With no status filter and no sort key the page shows the list as it is. */
  lemma ShowAllUnsorted(exams: seq<Exam>)
    ensures FilteredExams(exams, AllStatuses, Unsorted) == exams
  {
    UnsortedKeepsOrder(exams);
  }
}
