/** The consecutive-absence alerts of the worker (`GET /api/students/alerts`).
    For every attendance record of the course's subjects, the students it
    lists as absent get one entry each; then each student's entries are
    sorted by date, newest first, and the leading absent entries are counted.
    Only absent entries are ever added, so the count is the number of records
    listing the student absent, whatever their dates. The database reads are
    input sequences. */
module AbsenceAlerts {
  import opened Seqs
  import opened Strings
  import opened Records
  import opened Sorting

  /** An attendance record of one of the course's subjects. */
  datatype AttendanceRecord = AttendanceRecord(id: int, date: string)

  /** A row of the absences table: the record and the absent student. */
  datatype AbsentRow = AbsentRow(recordId: int, studentId: int)

  /** One entry of a student's history. */
  datatype Entry = Entry(date: string, absent: bool)

  /** One element of the answer. */
  datatype Alert = Alert(studentId: int, consecutiveAbsences: nat)

  /** The students of the absence rows of record `rid`, in row order. */
  function RowStudents(absent: seq<AbsentRow>, rid: int): (r: seq<int>)
    ensures forall sid :: sid in r <==> AbsentRow(rid, sid) in absent
  {
    if absent == [] then []
    else
      var init := absent[..|absent| - 1];
      var last := absent[|absent| - 1];
      assert absent == init + [last];
      RowStudents(init, rid) + (if last.recordId == rid then [last.studentId] else [])
  }

  /** The set of students record `rid` lists as absent, in first-occurrence order. */
  function AbsentIn(absent: seq<AbsentRow>, rid: int): (r: seq<int>)
    ensures NoDups(r)
    ensures forall sid :: sid in r <==> AbsentRow(rid, sid) in absent
  {
    Dedupe(RowStudents(absent, rid))
  }

  /** The number of records that list `sid` as absent. */
  function RecordsListing(records: seq<AttendanceRecord>, absent: seq<AbsentRow>, sid: int): nat
  {
    if records == [] then 0
    else
      RecordsListing(records[..|records| - 1], absent, sid)
      + (if AbsentRow(records[|records| - 1].id, sid) in absent then 1 else 0)
  }

  /** One absent entry for `sid`, appended to its history. */
  function PushOne(m: seq<(int, seq<Entry>)>, sid: int, date: string): seq<(int, seq<Entry>)>
  {
    Set(m, sid, GetOr(m, sid, []) + [Entry(date, true)])
  }

  /** One absent entry for each student of `sids`, in order. */
  function PushAll(m: seq<(int, seq<Entry>)>, sids: seq<int>, date: string): seq<(int, seq<Entry>)>
  {
    if sids == [] then m else PushOne(PushAll(m, sids[..|sids| - 1], date), sids[|sids| - 1], date)
  }

  /** The `byStudent` map after the records `records`. */
  function ByStudent(records: seq<AttendanceRecord>, absent: seq<AbsentRow>): seq<(int, seq<Entry>)>
  {
    if records == [] then []
    else
      var last := records[|records| - 1];
      PushAll(ByStudent(records[..|records| - 1], absent), AbsentIn(absent, last.id), last.date)
  }

  /** What the map says of one student: its history, every entry absent. */
  predicate AllAbsent(entries: seq<Entry>)
  {
    forall i :: 0 <= i < |entries| ==> entries[i].absent
  }

  /** The map is well formed and holds only absent entries. */
  predicate Histories(m: seq<(int, seq<Entry>)>)
  {
    Valid(m) && forall i :: 0 <= i < |m| ==> AllAbsent(m[i].1)
  }

  lemma {:induction false} GetOrAt(m: seq<(int, seq<Entry>)>, i: nat)
    requires Valid(m) && i < |m|
    ensures GetOr(m, m[i].0, []) == m[i].1
  {
    GetAt(m, i);
  }

  lemma {:induction false} GetOrFound(m: seq<(int, seq<Entry>)>, sid: int)
    requires sid in Keys(m)
    ensures exists i :: 0 <= i < |m| && m[i] == (sid, GetOr(m, sid, []))
  {
    GetFound(m, sid);
  }

  /** Adding one entry keeps the histories absent-only and lengthens just
      the student's own history by one. */
  lemma {:induction false} PushOneFacts(m: seq<(int, seq<Entry>)>, sid: int, date: string)
    requires Histories(m)
    ensures Histories(PushOne(m, sid, date))
    ensures Keys(PushOne(m, sid, date)) == if sid in Keys(m) then Keys(m) else Keys(m) + [sid]
    ensures forall k :: |GetOr(PushOne(m, sid, date), k, [])| == |GetOr(m, k, [])| + (if k == sid then 1 else 0)
  {
    var old_ := GetOr(m, sid, []);
    var m' := PushOne(m, sid, date);
    SetValid(m, sid, old_ + [Entry(date, true)]);
    assert AllAbsent(old_) by {
      if sid in Keys(m) { GetOrFound(m, sid); }
    }
    forall i | 0 <= i < |m'| ensures AllAbsent(m'[i].1) {
      GetOrAt(m', i);
      if m'[i].0 != sid {
        assert m'[i].0 in Keys(m);
        GetOrFound(m, m'[i].0);
      }
    }
  }

  lemma {:induction false} PushAllFacts(m: seq<(int, seq<Entry>)>, sids: seq<int>, date: string)
    requires Histories(m) && NoDups(sids)
    ensures Histories(PushAll(m, sids, date))
    ensures forall k :: k in Keys(PushAll(m, sids, date)) <==> k in Keys(m) || k in sids
    ensures forall k :: |GetOr(PushAll(m, sids, date), k, [])| == |GetOr(m, k, [])| + (if k in sids then 1 else 0)
  {
    if sids != [] {
      var init := sids[..|sids| - 1];
      var last := sids[|sids| - 1];
      assert sids == init + [last];
      assert NoDups(init);
      PushAllFacts(m, init, date);
      PushOneFacts(PushAll(m, init, date), last, date);
    }
  }

  /** After the records `records`, the map holds a history for exactly the
      students some record lists as absent, and that history has one absent
      entry per such record. */
  lemma {:induction false} ByStudentFacts(records: seq<AttendanceRecord>, absent: seq<AbsentRow>)
    ensures Histories(ByStudent(records, absent))
    ensures forall sid :: |GetOr(ByStudent(records, absent), sid, [])| == RecordsListing(records, absent, sid)
    ensures forall sid :: sid in Keys(ByStudent(records, absent)) <==> RecordsListing(records, absent, sid) > 0
  {
    if records != [] {
      var init := records[..|records| - 1];
      var last := records[|records| - 1];
      ByStudentFacts(init, absent);
      PushAllFacts(ByStudent(init, absent), AbsentIn(absent, last.id), last.date);
      forall sid ensures sid !in Keys(ByStudent(init, absent)) ==> GetOr(ByStudent(init, absent), sid, []) == [] {
      }
    }
  }

  /** Newest first: `String(b.date).localeCompare(String(a.date))`. */
  function NewestFirst(): (Entry, Entry) -> bool
  {
    (a: Entry, b: Entry) => StrLe(b.date, a.date)
  }

  /** The streak loop of the handler over one student's sorted history: count
      absent entries until the first present one. */
  method CountLeading(sorted: seq<Entry>) returns (consec: nat)
    ensures consec <= |sorted|
    ensures forall j :: 0 <= j < consec ==> sorted[j].absent
    ensures consec < |sorted| ==> !sorted[consec].absent
  {
    consec := 0;
    while consec < |sorted| && sorted[consec].absent
      invariant consec <= |sorted|
      invariant forall j :: 0 <= j < consec ==> sorted[j].absent
    {
      consec := consec + 1;
    }
  }

  /** Reordering an absent-only history keeps it absent-only. */
  lemma {:induction false} PermutedAllAbsent(a: seq<Entry>, b: seq<Entry>)
    requires AllAbsent(a) && multiset(a) == multiset(b)
    ensures AllAbsent(b)
  {
    forall j | 0 <= j < |b| ensures b[j].absent {
      assert b[j] in multiset(a);
      var k :| 0 <= k < |a| && a[k] == b[j];
    }
  }

  /** Whether some record of `records` lists `sid` as absent. */
  predicate ListedAbsent(records: seq<AttendanceRecord>, absent: seq<AbsentRow>, sid: int)
  {
    exists r :: r in records && AbsentRow(r.id, sid) in absent
  }

  lemma {:induction false} ListedAbsentCount(records: seq<AttendanceRecord>, absent: seq<AbsentRow>, sid: int)
    ensures ListedAbsent(records, absent, sid) <==> RecordsListing(records, absent, sid) > 0
  {
    if records != [] {
      var init := records[..|records| - 1];
      var last := records[|records| - 1];
      assert records == init + [last];
      ListedAbsentCount(init, absent, sid);
      if ListedAbsent(records, absent, sid) && !(AbsentRow(last.id, sid) in absent) {
        var r :| r in records && AbsentRow(r.id, sid) in absent;
        assert r in init;
      }
    }
  }

  /** The loop over the records that fills `byStudent`. */
  method CollectHistories(records: seq<AttendanceRecord>, absent: seq<AbsentRow>)
    returns (byStudent: seq<(int, seq<Entry>)>)
    ensures byStudent == ByStudent(records, absent)
  {
    byStudent := [];
    for i := 0 to |records|
      invariant byStudent == ByStudent(records[..i], absent)
    {
      var r := records[i];
      var aIds := AbsentIn(absent, r.id);
      ghost var before := byStudent;
      for j := 0 to |aIds|
        invariant byStudent == PushAll(before, aIds[..j], r.date)
      {
        var arr := GetOr(byStudent, aIds[j], []);
        byStudent := Set(byStudent, aIds[j], arr + [Entry(r.date, true)]);
        assert aIds[..j + 1][..j] == aIds[..j];
      }
      assert aIds[..|aIds|] == aIds;
      assert records[..i + 1][..i] == records[..i];
    }
    assert records[..|records|] == records;
  }

  /** The loop over `byStudent` that turns each absent-only history into an
      alert: the streak of an absent-only history is its length. */
  method StreaksOf(byStudent: seq<(int, seq<Entry>)>) returns (alerts: seq<Alert>)
    requires Histories(byStudent)
    ensures |alerts| == |byStudent|
    ensures forall j :: 0 <= j < |alerts| ==> alerts[j] == Alert(byStudent[j].0, |byStudent[j].1|)
  {
    alerts := [];
    for k := 0 to |byStudent|
      invariant |alerts| == k
      invariant forall j :: 0 <= j < k ==> alerts[j] == Alert(byStudent[j].0, |byStudent[j].1|)
    {
      var (sid, arr) := byStudent[k];
      var sorted := SortBy(arr, NewestFirst());
      PermutedAllAbsent(arr, sorted);
      var consec := CountLeading(sorted);
      alerts := alerts + [Alert(sid, consec)];
    }
  }

  /** The alerts handler. A missing or zero course id, a course without
      subjects and subjects without records all give no alerts. Otherwise
      there is one alert per student that some record lists as absent, no
      student twice, and its count is the number of records listing it. */
  method StudentAlerts(courseId: int, subjectIds: seq<int>, records: seq<AttendanceRecord>, absent: seq<AbsentRow>)
    returns (alerts: seq<Alert>)
    ensures courseId == 0 || subjectIds == [] || records == [] ==> alerts == []
    ensures forall i, j :: 0 <= i < j < |alerts| ==> alerts[i].studentId != alerts[j].studentId
    ensures forall i :: 0 <= i < |alerts| ==>
              alerts[i].consecutiveAbsences == RecordsListing(records, absent, alerts[i].studentId)
    ensures courseId != 0 && subjectIds != [] ==>
              forall sid :: ListedAbsent(records, absent, sid) <==> exists i :: 0 <= i < |alerts| && alerts[i].studentId == sid
  {
    if courseId == 0 || subjectIds == [] || records == [] {
      return [];
    }
    var byStudent := CollectHistories(records, absent);
    ByStudentFacts(records, absent);
    alerts := StreaksOf(byStudent);
    forall i | 0 <= i < |alerts|
      ensures alerts[i].consecutiveAbsences == RecordsListing(records, absent, alerts[i].studentId)
    {
      GetOrAt(byStudent, i);
    }
    forall i, j | 0 <= i < j < |alerts| ensures alerts[i].studentId != alerts[j].studentId {
      assert Keys(byStudent)[i] != Keys(byStudent)[j];
    }
    forall sid ensures ListedAbsent(records, absent, sid) <==> exists i :: 0 <= i < |alerts| && alerts[i].studentId == sid {
      ListedAbsentCount(records, absent, sid);
      if sid in Keys(byStudent) {
        var i :| 0 <= i < |Keys(byStudent)| && Keys(byStudent)[i] == sid;
        assert alerts[i].studentId == sid;
      }
    }
  }

  // ---------------------------------------------------------------------
  // The streak the alerts are meant to report
  // ---------------------------------------------------------------------

  /** The streak as documented: with the records newest first, the number of
      leading records that list the student as absent, stopping at the first
      record where the student was present. */
  function IntendedStreak(records: seq<AttendanceRecord>, absent: seq<AbsentRow>, sid: int): (n: nat)
    ensures n <= |records|
  {
    if records == [] || AbsentRow(records[0].id, sid) !in absent then 0
    else 1 + IntendedStreak(records[1..], absent, sid)
  }

  /** The intended streak is an unbroken run: the first `n` records list the
      student, and the next one (if any) does not. */
  lemma {:induction false} IntendedStreakRun(records: seq<AttendanceRecord>, absent: seq<AbsentRow>, sid: int)
    ensures var n := IntendedStreak(records, absent, sid);
      (forall j :: 0 <= j < n ==> AbsentRow(records[j].id, sid) in absent)
      && (n < |records| ==> AbsentRow(records[n].id, sid) !in absent)
  {
    if records != [] && AbsentRow(records[0].id, sid) in absent {
      IntendedStreakRun(records[1..], absent, sid);
    }
  }

  /** A student present in the most recent record has no streak, whatever
      came before. */
  lemma {:induction false} IntendedStreakResets(records: seq<AttendanceRecord>, absent: seq<AbsentRow>, sid: int)
    requires records != [] && AbsentRow(records[0].id, sid) !in absent
    ensures IntendedStreak(records, absent, sid) == 0
  {
  }

  /** The intended streak never exceeds what the handler reports. */
  lemma {:induction false} IntendedStreakBound(records: seq<AttendanceRecord>, absent: seq<AbsentRow>, sid: int)
    ensures IntendedStreak(records, absent, sid) <= RecordsListing(records, absent, sid)
  {
    if records != [] {
      IntendedStreakBound(records[1..], absent, sid);
      RecordsListingCons(records, absent, sid);
    }
  }

  lemma {:induction false} RecordsListingCons(records: seq<AttendanceRecord>, absent: seq<AbsentRow>, sid: int)
    requires records != []
    ensures RecordsListing(records, absent, sid)
            == (if AbsentRow(records[0].id, sid) in absent then 1 else 0) + RecordsListing(records[1..], absent, sid)
  {
    if |records| > 1 {
      var init := records[..|records| - 1];
      RecordsListingCons(init, absent, sid);
      assert init[1..] == records[1..][..|records| - 2];
    }
  }

  /** The alert of the corrected handler: each student the records list as
      absent, with the intended streak. */
  function CorrectedAlerts(records: seq<AttendanceRecord>, absent: seq<AbsentRow>): (r: seq<Alert>)
    ensures |r| == |ByStudent(records, absent)|
    ensures forall i :: 0 <= i < |r| ==>
              r[i].studentId == ByStudent(records, absent)[i].0
              && r[i].consecutiveAbsences == IntendedStreak(records, absent, r[i].studentId)
  {
    var m := ByStudent(records, absent);
    seq(|m|, i requires 0 <= i < |m| => Alert(m[i].0, IntendedStreak(records, absent, m[i].0)))
  }

  /** Counterexample for the handler as written: a student absent in an older
      record and present in the newest one is reported with a streak of one,
      where the intended streak is zero. */
  lemma {:induction false} AsWrittenCountsOlderAbsence()
    ensures var records := [AttendanceRecord(2, "2026-03-02"), AttendanceRecord(1, "2026-03-01")];
      var absent := [AbsentRow(1, 7)];
      RecordsListing(records, absent, 7) == 1 && IntendedStreak(records, absent, 7) == 0
  {
    var records := [AttendanceRecord(2, "2026-03-02"), AttendanceRecord(1, "2026-03-01")];
    var absent := [AbsentRow(1, 7)];
    assert records[..1] == [AttendanceRecord(2, "2026-03-02")];
    assert records[..1][..0] == [];
  }
}
