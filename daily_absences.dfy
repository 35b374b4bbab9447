/** The school-wide absences of one day (`GET /api/absences/daily`): the
    absence rows of the day's attendance records are aggregated per student
    (number of rows and hours, a missing hour count counting as one), each
    student is named and placed in its course, and the list is sorted by
    course name (a student without course under "Sin curso") and then by
    student name. The database reads are input sequences. */
module DailyAbsences {
  import opened Wrappers
  import opened Seqs
  import opened Strings
  import opened Records
  import opened Sorting

  /** A row of the absences table. */
  datatype AbsenceRow = AbsenceRow(recordId: int, studentId: int, hoursCount: Option<int>)

  /** A student row; the course reference may be null. */
  datatype StudentRow = StudentRow(id: int, name: string, courseId: Option<int>)

  datatype CourseRow = CourseRow(id: int, name: string)

  /** One element of the answer. A student whose row is missing has no name
      and no course. */
  datatype DailyAbsence = DailyAbsence(
    studentId: int,
    studentName: Option<string>,
    courseId: Option<int>,
    courseName: Option<string>,
    absenceCount: nat,
    totalHours: int)

  /** `new Map(students.map((s) => [s.id, s]))`. */
  function StudentMap(students: seq<StudentRow>): seq<(int, StudentRow)>
  {
    if students == [] then []
    else
      var last := students[|students| - 1];
      Set(StudentMap(students[..|students| - 1]), last.id, last)
  }

  /** `new Map(courses.map((c) => [c.id, c.name]))`. */
  function CourseMap(courses: seq<CourseRow>): seq<(int, string)>
  {
    if courses == [] then []
    else
      var last := courses[|courses| - 1];
      Set(CourseMap(courses[..|courses| - 1]), last.id, last.name)
  }

  /** `a.hours_count ?? 1`: only a missing count defaults to one. */
  function Hours(a: AbsenceRow): int
  {
    match a.hoursCount
    case Some(h) => h
    case None => 1
  }

  /** The aggregate created at a student's first absence row. */
  function FirstEntry(studentMap: seq<(int, StudentRow)>, courseMap: seq<(int, string)>, a: AbsenceRow): DailyAbsence
  {
    match Get(studentMap, a.studentId)
    case None => DailyAbsence(a.studentId, None, None, None, 1, Hours(a))
    case Some(st) =>
      var courseName := if st.courseId.Some? && st.courseId.value != 0 then Get(courseMap, st.courseId.value) else None;
      DailyAbsence(a.studentId, Some(st.name), st.courseId, courseName, 1, Hours(a))
  }

  /** One iteration of the aggregation loop. */
  function AggStep(agg: seq<(int, DailyAbsence)>, studentMap: seq<(int, StudentRow)>, courseMap: seq<(int, string)>,
                   a: AbsenceRow): seq<(int, DailyAbsence)>
  {
    match Get(agg, a.studentId)
    case Some(prev) =>
      Set(agg, a.studentId, prev.(absenceCount := prev.absenceCount + 1, totalHours := prev.totalHours + Hours(a)))
    case None =>
      Set(agg, a.studentId, FirstEntry(studentMap, courseMap, a))
  }

  /** The `agg` map after the rows `absences`. */
  function Aggregate(absences: seq<AbsenceRow>, studentMap: seq<(int, StudentRow)>, courseMap: seq<(int, string)>)
    : seq<(int, DailyAbsence)>
  {
    if absences == [] then []
    else AggStep(Aggregate(absences[..|absences| - 1], studentMap, courseMap), studentMap, courseMap, absences[|absences| - 1])
  }

  /** The number of rows of `absences` for `sid`. */
  function RowCount(absences: seq<AbsenceRow>, sid: int): nat
  {
    if absences == [] then 0
    else RowCount(absences[..|absences| - 1], sid) + (if absences[|absences| - 1].studentId == sid then 1 else 0)
  }

  /** The hours of the rows of `absences` for `sid`. */
  function HourTotal(absences: seq<AbsenceRow>, sid: int): int
  {
    if absences == [] then 0
    else HourTotal(absences[..|absences| - 1], sid) + (if absences[|absences| - 1].studentId == sid then Hours(absences[|absences| - 1]) else 0)
  }

  /** The student ids of the rows, in row order. */
  function StudentIds(absences: seq<AbsenceRow>): (r: seq<int>)
    ensures forall sid :: sid in r <==> exists a :: a in absences && a.studentId == sid
  {
    if absences == [] then []
    else
      var init := absences[..|absences| - 1];
      assert absences == init + [absences[|absences| - 1]];
      StudentIds(init) + [absences[|absences| - 1].studentId]
  }

  /** What the aggregation holds for one student it has seen. */
  predicate EntryFor(e: DailyAbsence, sid: int, absences: seq<AbsenceRow>, studentMap: seq<(int, StudentRow)>, courseMap: seq<(int, string)>)
  {
    var first := FirstEntry(studentMap, courseMap, AbsenceRow(0, sid, None));
    e.studentId == sid && e.studentName == first.studentName && e.courseId == first.courseId
    && e.courseName == first.courseName
    && e.absenceCount == RowCount(absences, sid) && e.totalHours == HourTotal(absences, sid)
  }

  /** A student with no rows has a zero count and zero hours. */
  lemma {:induction false} NoRowsZero(absences: seq<AbsenceRow>, sid: int)
    requires sid !in StudentIds(absences)
    ensures RowCount(absences, sid) == 0 && HourTotal(absences, sid) == 0
  {
    if absences != [] {
      var init := absences[..|absences| - 1];
      assert StudentIds(absences) == StudentIds(init) + [absences[|absences| - 1].studentId];
      NoRowsZero(init, sid);
    }
  }

  /** The aggregation has one entry per distinct absent student, in order of
      first appearance. */
  lemma {:induction false} AggregateKeys(absences: seq<AbsenceRow>, studentMap: seq<(int, StudentRow)>, courseMap: seq<(int, string)>)
    ensures Keys(Aggregate(absences, studentMap, courseMap)) == Dedupe(StudentIds(absences))
  {
    if absences != [] {
      var init := absences[..|absences| - 1];
      var a := absences[|absences| - 1];
      AggregateKeys(init, studentMap, courseMap);
      assert StudentIds(absences) == StudentIds(init) + [a.studentId];
      DedupeAppend(StudentIds(init), a.studentId);
    }
  }

  /** Every entry of the aggregation holds its student's data, row count
      and hours. */
  lemma {:induction false} AggregateEntry(absences: seq<AbsenceRow>, studentMap: seq<(int, StudentRow)>, courseMap: seq<(int, string)>, sid: int)
    requires sid in Keys(Aggregate(absences, studentMap, courseMap))
    ensures EntryFor(Get(Aggregate(absences, studentMap, courseMap), sid).value, sid, absences, studentMap, courseMap)
  {
    var init := absences[..|absences| - 1];
    var a := absences[|absences| - 1];
    var prev := Aggregate(init, studentMap, courseMap);
    assert StudentIds(absences) == StudentIds(init) + [a.studentId];
    if sid != a.studentId {
      AggregateEntry(init, studentMap, courseMap, sid);
    } else if sid in Keys(prev) {
      AggregateEntry(init, studentMap, courseMap, sid);
    } else {
      AggregateKeys(init, studentMap, courseMap);
      NoRowsZero(init, sid);
    }
  }

  /** The sort key of the course: the course name, or "Sin curso". */
  function CourseKey(e: DailyAbsence): string
  {
    match e.courseName
    case Some(n) => n
    case None => "Sin curso"
  }

  /** The sort key of the name. A missing name, passed to `localeCompare`
      as its argument, is compared as the text "undefined". */
  function NameKey(e: DailyAbsence): string
  {
    match e.studentName
    case Some(n) => n
    case None => "undefined"
  }

  /** One call of the handler's comparator, `None` standing for the
      `TypeError` it raises when the course names tie and the receiver has
      no name; otherwise whether `a` may come before `b`. */
  function NameCompare(a: DailyAbsence, b: DailyAbsence): (r: Option<bool>)
    ensures r.None? <==> CourseKey(a) == CourseKey(b) && a.studentName.None?
    ensures r.Some? ==> r.value == AbsenceLe(a, b)
  {
    if CourseKey(a) != CourseKey(b) then Some(StrLe(CourseKey(a), CourseKey(b)))
    else if a.studentName.None? then None
    else Some(StrLe(a.studentName.value, NameKey(b)))
  }

  /** Course first, then name. */
  predicate AbsenceLe(a: DailyAbsence, b: DailyAbsence)
  {
    if CourseKey(a) != CourseKey(b) then StrLe(CourseKey(a), CourseKey(b)) else StrLe(NameKey(a), NameKey(b))
  }

  /** The comparator of the handler, as a "less or equal" relation. */
  function AbsenceOrder(): (DailyAbsence, DailyAbsence) -> bool
  {
    (a: DailyAbsence, b: DailyAbsence) => AbsenceLe(a, b)
  }

  /** The comparator orders all entries consistently. */
  lemma {:induction false} AbsenceOrderIsTotalPreorder()
    ensures Total(AbsenceOrder()) && Transitive(AbsenceOrder())
  {
    forall a, b ensures AbsenceLe(a, b) || AbsenceLe(b, a) {
      StrLeTotal(CourseKey(a), CourseKey(b));
      StrLeTotal(NameKey(a), NameKey(b));
    }
    forall a, b, c | AbsenceLe(a, b) && AbsenceLe(b, c) ensures AbsenceLe(a, c) {
      var ca, cb, cc := CourseKey(a), CourseKey(b), CourseKey(c);
      if ca == cb && cb == cc {
        StrLeTransitive(NameKey(a), NameKey(b), NameKey(c));
      } else if ca == cb {
        assert StrLe(cb, cc);
      } else if cb == cc {
        assert StrLe(ca, cb);
      } else {
        StrLeTransitive(ca, cb, cc);
        if ca == cc { StrLeAntisymmetric(ca, cb); }
      }
    }
  }

  /** The answer for a day with the given records and rows. */
  function DailyAbsenceList(recordIds: seq<int>, absences: seq<AbsenceRow>, students: seq<StudentRow>, courses: seq<CourseRow>)
    : seq<DailyAbsence>
  {
    if recordIds == [] then []
    else SortBy(Values(Aggregate(absences, StudentMap(students), CourseMap(courses))), AbsenceOrder())
  }

  /** The student ids of the answer, in its order. */
  function IdsOf(r: seq<DailyAbsence>): (ids: seq<int>)
    ensures |ids| == |r| && forall i :: 0 <= i < |r| ==> ids[i] == r[i].studentId
  {
    if r == [] then [] else [r[0].studentId] + IdsOf(r[1..])
  }

  /** The aggregated entries, in order of first appearance, each holding its
      student's data, row count and hours, with distinct ids. */
  lemma {:induction false} AggregateValues(absences: seq<AbsenceRow>, studentMap: seq<(int, StudentRow)>, courseMap: seq<(int, string)>)
    ensures var vs := Values(Aggregate(absences, studentMap, courseMap));
      IdsOf(vs) == Dedupe(StudentIds(absences))
      && forall p :: 0 <= p < |vs| ==> EntryFor(vs[p], vs[p].studentId, absences, studentMap, courseMap)
  {
    var agg := Aggregate(absences, studentMap, courseMap);
    var vs := Values(agg);
    AggregateKeys(absences, studentMap, courseMap);
    forall p | 0 <= p < |vs| ensures vs[p].studentId == agg[p].0 && EntryFor(vs[p], vs[p].studentId, absences, studentMap, courseMap) {
      GetAt(agg, p);
      AggregateEntry(absences, studentMap, courseMap, agg[p].0);
    }
    assert IdsOf(vs) == Keys(agg);
  }

  /** Reordering keeps the ids, and keeps them distinct. */
  lemma {:induction false} PermutedIds(vs: seq<DailyAbsence>, r: seq<DailyAbsence>)
    requires multiset(vs) == multiset(r) && NoDups(IdsOf(vs))
    ensures NoDups(IdsOf(r))
    ensures forall sid :: sid in IdsOf(r) <==> sid in IdsOf(vs)
  {
    assert forall p, q :: 0 <= p < q < |vs| ==> vs[p].studentId != vs[q].studentId by {
      forall p, q | 0 <= p < q < |vs| ensures vs[p].studentId != vs[q].studentId {
        assert IdsOf(vs)[p] != IdsOf(vs)[q];
      }
    }
    PermutationDistinctKeys(vs, r, (e: DailyAbsence) => e.studentId);
    assert NoDups(IdsOf(r)) by {
      forall i, j | 0 <= i < j < |r| ensures IdsOf(r)[i] != IdsOf(r)[j] {
      }
    }
    forall sid ensures sid in IdsOf(r) <==> sid in IdsOf(vs) {
      if sid in IdsOf(vs) {
        var p :| 0 <= p < |vs| && IdsOf(vs)[p] == sid;
        assert vs[p] in multiset(r);
        var i :| 0 <= i < |r| && r[i] == vs[p];
        assert IdsOf(r)[i] == sid;
      }
      if sid in IdsOf(r) {
        var i :| 0 <= i < |r| && IdsOf(r)[i] == sid;
        assert r[i] in multiset(vs);
        var p :| 0 <= p < |vs| && vs[p] == r[i];
        assert IdsOf(vs)[p] == sid;
      }
    }
  }

  /** Reordering keeps every entry what it was. */
  lemma {:induction false} PermutedEntries(vs: seq<DailyAbsence>, r: seq<DailyAbsence>, absences: seq<AbsenceRow>,
                        studentMap: seq<(int, StudentRow)>, courseMap: seq<(int, string)>)
    requires multiset(vs) == multiset(r)
    requires forall p :: 0 <= p < |vs| ==> EntryFor(vs[p], vs[p].studentId, absences, studentMap, courseMap)
    ensures forall i :: 0 <= i < |r| ==> EntryFor(r[i], r[i].studentId, absences, studentMap, courseMap)
  {
    forall i | 0 <= i < |r| ensures EntryFor(r[i], r[i].studentId, absences, studentMap, courseMap) {
      assert r[i] in multiset(vs);
      var p :| 0 <= p < |vs| && vs[p] == r[i];
    }
  }

  /** What the answer promises: sorted by course and then name, one entry
      per distinct absent student, each with its data, number of rows and
      hours. */
  lemma {:induction false} DailyAbsenceListFacts(recordIds: seq<int>, absences: seq<AbsenceRow>, students: seq<StudentRow>, courses: seq<CourseRow>)
    requires recordIds != []
    ensures var r := DailyAbsenceList(recordIds, absences, students, courses);
      SortedBy(r, AbsenceOrder())
      && NoDups(IdsOf(r))
      && (forall sid :: sid in IdsOf(r) <==> sid in StudentIds(absences))
      && (forall i :: 0 <= i < |r| ==>
            EntryFor(r[i], r[i].studentId, absences, StudentMap(students), CourseMap(courses)))
  {
    var sm, cm := StudentMap(students), CourseMap(courses);
    var vs := Values(Aggregate(absences, sm, cm));
    var r := SortBy(vs, AbsenceOrder());
    AggregateValues(absences, sm, cm);
    AbsenceOrderIsTotalPreorder();
    SortBySorted(vs, AbsenceOrder());
    PermutedIds(vs, r);
    PermutedEntries(vs, r, absences, sm, cm);
  }

  /** When every absent student has a student row, every entry of the answer
      carries a name, so no call of the comparator raises. */
  lemma {:induction false} AnswerComparesWithoutThrow(recordIds: seq<int>, absences: seq<AbsenceRow>,
                                                      students: seq<StudentRow>, courses: seq<CourseRow>)
    requires recordIds != []
    requires forall a :: a in absences ==> Get(StudentMap(students), a.studentId).Some?
    ensures var r := DailyAbsenceList(recordIds, absences, students, courses);
      forall i, j :: 0 <= i < |r| && 0 <= j < |r| ==> NameCompare(r[i], r[j]).Some?
  {
    var sm, cm := StudentMap(students), CourseMap(courses);
    var r := DailyAbsenceList(recordIds, absences, students, courses);
    DailyAbsenceListFacts(recordIds, absences, students, courses);
    forall i | 0 <= i < |r| ensures r[i].studentName.Some? {
      var sid := r[i].studentId;
      assert IdsOf(r)[i] == sid;
      assert sid in StudentIds(absences);
      var a :| a in absences && a.studentId == sid;
      assert EntryFor(r[i], sid, absences, sm, cm);
    }
  }

  /** The aggregation loop of the handler: each row updates its student's
      entry in place, or adds it at the student's first row. */
  method AggregateRows(absences: seq<AbsenceRow>, studentMap: seq<(int, StudentRow)>, courseMap: seq<(int, string)>)
    returns (agg: seq<(int, DailyAbsence)>)
    ensures agg == Aggregate(absences, studentMap, courseMap)
  {
    agg := [];
    for i := 0 to |absences|
      invariant agg == Aggregate(absences[..i], studentMap, courseMap)
    {
      var a := absences[i];
      agg := AggStep(agg, studentMap, courseMap, a);
      assert absences[..i + 1][..i] == absences[..i];
    }
    assert absences[..|absences|] == absences;
  }

  /** The handler: no records for the day give an empty answer; otherwise
      the sorted aggregation. */
  method GetDailyAbsences(recordIds: seq<int>, absences: seq<AbsenceRow>, students: seq<StudentRow>, courses: seq<CourseRow>)
    returns (results: seq<DailyAbsence>)
    ensures results == DailyAbsenceList(recordIds, absences, students, courses)
  {
    if recordIds == [] {
      return [];
    }
    var agg := AggregateRows(absences, StudentMap(students), CourseMap(courses));
    results := SortBy(Values(agg), AbsenceOrder());
  }
}
