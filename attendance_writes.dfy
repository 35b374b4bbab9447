/** The worker's writes that are guarded by a rule: registering the
    attendance of a class (`POST /api/attendance`), which refuses a second
    record for the same subject, schedule and date and warns when more than
    half of the course is absent, and deleting a teacher or a student, which
    is refused while other rows still refer to them. The tables are values;
    the id the database gives a new record is a parameter. */
module AttendanceWrites {
  import opened Wrappers
  import opened Seqs

  datatype HttpError = HttpError(status: int, message: string)

  datatype SubjectRow = SubjectRow(id: int, teacherId: int, courseId: int)
  datatype StudentRow = StudentRow(id: int, courseId: int)
  datatype AttendanceRecord = AttendanceRecord(id: int, subjectId: int, scheduleId: int, date: string, teacherId: int)
  datatype AbsentRow = AbsentRow(recordId: int, studentId: int)

  /** The tables the submission reads and writes. */
  datatype Db = Db(records: seq<AttendanceRecord>, absent: seq<AbsentRow>)

  /** The validated request body. */
  datatype Submission = Submission(subjectId: int, scheduleId: int, date: string, absentIds: seq<int>)

  /** The answer of a successful submission: the new record and whether the
      more-than-half-absent advisory is attached. */
  datatype Submitted = Submitted(recordId: int, alert: bool)

  /** The record already registered for the class of `req`, if any. */
  predicate Registered(records: seq<AttendanceRecord>, req: Submission)
  {
    exists r :: r in records && r.subjectId == req.subjectId && r.scheduleId == req.scheduleId && r.date == req.date
  }

  /** No two records share subject, schedule and date. */
  predicate OneRecordPerClass(records: seq<AttendanceRecord>)
  {
    forall i, j :: 0 <= i < j < |records| ==>
      !(records[i].subjectId == records[j].subjectId && records[i].scheduleId == records[j].scheduleId
        && records[i].date == records[j].date)
  }

  /** The first subject row with the given id, as `.single()` reads it. */
  function FindSubject(subjects: seq<SubjectRow>, id: int): (r: Option<SubjectRow>)
    ensures r.Some? ==> r.value in subjects && r.value.id == id
    ensures r.None? ==> forall s :: s in subjects ==> s.id != id
  {
    if subjects == [] then None
    else if subjects[0].id == id then Some(subjects[0])
    else FindSubject(subjects[1..], id)
  }

  /** The number of students of a course. */
  function CourseSize(students: seq<StudentRow>, courseId: int): nat
  {
    if students == [] then 0
    else CourseSize(students[..|students| - 1], courseId) + (if students[|students| - 1].courseId == courseId then 1 else 0)
  }

  /** `absentCount / totalStudents * 100 > 50`, with no advisory for an
      empty course. */
  predicate MoreThanHalf(absentCount: nat, totalStudents: nat)
  {
    totalStudents > 0 && 2 * absentCount > totalStudents
  }

  /** The absence rows of a new record, one per listed id (repeats included). */
  function AbsentRowsFor(recordId: int, ids: seq<int>): (rows: seq<AbsentRow>)
    ensures |rows| == |ids|
    ensures forall i :: 0 <= i < |ids| ==> rows[i] == AbsentRow(recordId, ids[i])
  {
    if ids == [] then [] else [AbsentRow(recordId, ids[0])] + AbsentRowsFor(recordId, ids[1..])
  }

  /** The handler after validation. `teacherId` is the signed-in user's
      teacher row, `newId` the id the database assigns to the new record. */
  function Submit(db: Db, teacherId: Option<int>, subjects: seq<SubjectRow>, students: seq<StudentRow>,
                  req: Submission, newId: int): (Result<Submitted, HttpError>, Db)
  {
    if teacherId.None? then (Err(HttpError(403, "Perfil de profesor no encontrado")), db)
    else if !exists s :: s in subjects && s.id == req.subjectId && s.teacherId == teacherId.value then
      (Err(HttpError(403, "No tienes acceso a esta asignatura")), db)
    else if Registered(db.records, req) then
      (Err(HttpError(400, "Ya existe un registro de asistencia para esta fecha y clase")), db)
    else
      var record := AttendanceRecord(newId, req.subjectId, req.scheduleId, req.date, teacherId.value);
      var db' := Db(db.records + [record], db.absent + AbsentRowsFor(newId, req.absentIds));
      var subj := FindSubject(subjects, req.subjectId);
      var total := CourseSize(students, subj.value.courseId);
      (Ok(Submitted(newId, MoreThanHalf(|req.absentIds|, total))), db')
  }

  /** The outcomes of a submission: the three refusals leave the tables as
      they were; an accepted one adds exactly its record and one absence row
      per listed id, and carries the advisory exactly when more than half of
      the subject's course is listed absent. */
  lemma {:induction false} SubmitOutcomes(db: Db, teacherId: Option<int>, subjects: seq<SubjectRow>, students: seq<StudentRow>,
                       req: Submission, newId: int)
    ensures var (res, db') := Submit(db, teacherId, subjects, students, req, newId);
      (res.Err? ==> db' == db)
      && (teacherId.None? ==> res == Err(HttpError(403, "Perfil de profesor no encontrado")))
      && (res.Ok? <==>
            (teacherId.Some? && !Registered(db.records, req)
             && exists s :: s in subjects && s.id == req.subjectId && s.teacherId == teacherId.value))
      && (res.Err? && res.error.status == 400 ==> Registered(db.records, req))
      && (res.Ok? ==>
            db'.records == db.records + [AttendanceRecord(newId, req.subjectId, req.scheduleId, req.date, teacherId.value)]
            && db'.absent == db.absent + AbsentRowsFor(newId, req.absentIds)
            && res.value.recordId == newId
            && FindSubject(subjects, req.subjectId).Some?
            && (res.value.alert <==> MoreThanHalf(|req.absentIds|, CourseSize(students, FindSubject(subjects, req.subjectId).value.courseId))))
  {
  }

  /** Submitting the same class twice: the second submission is refused
      with 400, whatever its absent list. */
  lemma {:induction false} SecondSubmissionRejected(db: Db, teacherId: Option<int>, subjects: seq<SubjectRow>, students: seq<StudentRow>,
                                 req: Submission, newId: int, again: Submission, newId2: int)
    requires Submit(db, teacherId, subjects, students, req, newId).0.Ok?
    requires again.subjectId == req.subjectId && again.scheduleId == req.scheduleId && again.date == req.date
    ensures var db' := Submit(db, teacherId, subjects, students, req, newId).1;
      Submit(db', teacherId, subjects, students, again, newId2).0
        == Err(HttpError(400, "Ya existe un registro de asistencia para esta fecha y clase"))
  {
    var db' := Submit(db, teacherId, subjects, students, req, newId).1;
    var rec := db'.records[|db'.records| - 1];
    assert rec in db'.records;
    assert Registered(db'.records, again);
  }

  /** Submissions keep at most one record per class. */
  lemma {:induction false} SubmitKeepsOneRecordPerClass(db: Db, teacherId: Option<int>, subjects: seq<SubjectRow>, students: seq<StudentRow>,
                                     req: Submission, newId: int)
    requires OneRecordPerClass(db.records)
    ensures OneRecordPerClass(Submit(db, teacherId, subjects, students, req, newId).1.records)
  {
    var (res, db') := Submit(db, teacherId, subjects, students, req, newId);
    if res.Ok? {
      var rs := db'.records;
      forall i, j | 0 <= i < j < |rs|
        ensures !(rs[i].subjectId == rs[j].subjectId && rs[i].scheduleId == rs[j].scheduleId && rs[i].date == rs[j].date)
      {
        if j == |rs| - 1 {
          assert rs[i] in db.records;
        } else {
          assert rs[i] == db.records[i] && rs[j] == db.records[j];
        }
      }
    }
  }

  /** The advisory rises with the number of absences: one more absent
      student never removes it. */
  lemma {:induction false} AdvisoryMonotone(a: nat, b: nat, total: nat)
    requires a <= b && MoreThanHalf(a, total)
    ensures MoreThanHalf(b, total)
  {
  }

  /** Deleting a teacher: refused with 400 while a subject is assigned to
      the teacher; otherwise every row with that id is removed. */
  function DeleteTeacher(teachers: seq<int>, subjects: seq<SubjectRow>, teacherId: int): Result<seq<int>, HttpError>
  {
    if Count(seq(|subjects|, i requires 0 <= i < |subjects| => subjects[i].teacherId), teacherId) > 0 then
      Err(HttpError(400, "No se puede eliminar: el profesor tiene asignaturas asignadas"))
    else Ok(Filter(teachers, (t: int) => t != teacherId))
  }

  /** Deleting a student: refused with 400 while an absence row refers to
      the student; otherwise every row with that id is removed. */
  function DeleteStudent(students: seq<StudentRow>, absent: seq<AbsentRow>, studentId: int): Result<seq<StudentRow>, HttpError>
  {
    if Count(seq(|absent|, i requires 0 <= i < |absent| => absent[i].studentId), studentId) > 0 then
      Err(HttpError(400, "No se puede eliminar: el estudiante tiene registros de asistencia"))
    else Ok(Filter(students, (s: StudentRow) => s.id != studentId))
  }

  /** Every subject's teacher exists. */
  predicate SubjectsHaveTeachers(teachers: seq<int>, subjects: seq<SubjectRow>)
  {
    forall s :: s in subjects ==> s.teacherId in teachers
  }

  /** Every absence row's student exists. */
  predicate AbsencesHaveStudents(students: seq<StudentRow>, absent: seq<AbsentRow>)
  {
    forall a :: a in absent ==> exists s :: s in students && s.id == a.studentId
  }

  /** The teacher guard: refused exactly when a subject refers to the
      teacher; an accepted delete removes the teacher and keeps every
      subject's teacher in place. */
  lemma {:induction false} DeleteTeacherGuard(teachers: seq<int>, subjects: seq<SubjectRow>, teacherId: int)
    ensures DeleteTeacher(teachers, subjects, teacherId).Err? <==> exists s :: s in subjects && s.teacherId == teacherId
    ensures DeleteTeacher(teachers, subjects, teacherId).Ok? ==>
      var t' := DeleteTeacher(teachers, subjects, teacherId).value;
      teacherId !in t' && (forall t :: t in t' <==> t in teachers && t != teacherId)
      && (SubjectsHaveTeachers(teachers, subjects) ==> SubjectsHaveTeachers(t', subjects))
  {
    var ids := seq(|subjects|, i requires 0 <= i < |subjects| => subjects[i].teacherId);
    CountZero(ids, teacherId);
    if exists s :: s in subjects && s.teacherId == teacherId {
      var s :| s in subjects && s.teacherId == teacherId;
      var i :| 0 <= i < |subjects| && subjects[i] == s;
      assert ids[i] == teacherId;
    }
    if teacherId in ids {
      var i :| 0 <= i < |ids| && ids[i] == teacherId;
      assert subjects[i] in subjects;
    }
  }

  /** The student guard: refused exactly when an absence row refers to the
      student; an accepted delete removes the student and leaves no absence
      row without its student. */
  lemma {:induction false} DeleteStudentGuard(students: seq<StudentRow>, absent: seq<AbsentRow>, studentId: int)
    ensures DeleteStudent(students, absent, studentId).Err? <==> exists a :: a in absent && a.studentId == studentId
    ensures DeleteStudent(students, absent, studentId).Ok? ==>
      var s' := DeleteStudent(students, absent, studentId).value;
      (forall s :: s in s' <==> s in students && s.id != studentId)
      && (AbsencesHaveStudents(students, absent) ==> AbsencesHaveStudents(s', absent))
  {
    var ids := seq(|absent|, i requires 0 <= i < |absent| => absent[i].studentId);
    CountZero(ids, studentId);
    if exists a :: a in absent && a.studentId == studentId {
      var a :| a in absent && a.studentId == studentId;
      var i :| 0 <= i < |absent| && absent[i] == a;
      assert ids[i] == studentId;
    }
    if studentId in ids {
      var i :| 0 <= i < |ids| && ids[i] == studentId;
      assert absent[i] in absent;
    }
    var r := DeleteStudent(students, absent, studentId);
    if r.Ok? && AbsencesHaveStudents(students, absent) {
      forall a | a in absent ensures exists s :: s in r.value && s.id == a.studentId {
        var s :| s in students && s.id == a.studentId;
        assert a.studentId != studentId;
        assert s in r.value;
      }
    }
  }
}
