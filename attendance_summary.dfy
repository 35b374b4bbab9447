/** The per-student attendance summary of the worker
    (`GET /api/students/attendance-summary`): the number of sessions is the
    number of attendance records of the course's subjects, a student's
    absences are its rows in the absences of those records, and the
    percentage is the share of sessions attended, rounded half up and kept
    between 0 and 100. */
module AttendanceSummary {
  import opened Records
  import opened AbsenceAlerts

  /** One element of the answer. */
  datatype Summary = Summary(studentId: int, sessions: nat, absences: nat, percentage: int)

  /** `Math.round(n / d)` for a positive `d`: the nearest integer, halves
      rounded up. */
  function RoundHalfUp(n: int, d: int): (r: int)
    requires d > 0
    ensures 2 * d * r - d <= 2 * n < 2 * d * r + d
  {
    (2 * n + d) / (2 * d)
  }

  /** `Math.max(0, Math.min(100, x))`. */
  function Clamp(x: int): (r: int)
    ensures 0 <= r <= 100
    ensures 0 <= x <= 100 ==> r == x
    ensures x < 0 ==> r == 0
    ensures x > 100 ==> r == 100
  {
    if x > 100 then 100 else if x < 0 then 0 else x
  }

  /** The percentage of `sessions` attended by a student absent `abs` times. */
  function Percentage(sessions: nat, abs: nat): (p: int)
    requires sessions > 0
    ensures 0 <= p <= 100
  {
    Clamp(RoundHalfUp((sessions - abs) * 100, sessions))
  }

  /** A student never absent scores 100, and one absent at every session
      (or more often) scores 0. */
  lemma {:induction false} PercentageEnds(sessions: nat, abs: nat)
    requires sessions > 0
    ensures abs == 0 ==> Percentage(sessions, abs) == 100
    ensures abs >= sessions ==> Percentage(sessions, abs) == 0
  {
    var r := RoundHalfUp((sessions - abs) * 100, sessions);
    if abs == 0 {
      assert 2 * sessions * r - sessions <= 200 * sessions < 2 * sessions * r + sessions;
      assert 100 * 2 * sessions < 2 * sessions * (r + 1) by {
        assert 2 * sessions * r + sessions <= 2 * sessions * (r + 1);
      }
      assert 2 * sessions * (r - 1) < 100 * 2 * sessions by {
        assert 2 * sessions * (r - 1) < 2 * sessions * r - sessions;
      }
      ProductOrder(2 * sessions, 100, r + 1);
      ProductOrder(2 * sessions, r - 1, 100);
    } else if abs >= sessions {
      assert 2 * sessions * r - sessions <= 2 * (sessions - abs) * 100 <= 0;
      assert 2 * sessions * (r - 1) < 0;
      ProductOrder(2 * sessions, r - 1, 0);
    }
  }

  lemma {:induction false} ProductOrder(k: int, a: int, b: int)
    requires k > 0 && k * a < k * b
    ensures a < b
  {
    assert k * (b - a) == k * b - k * a;
  }

  /** More absences never raise the percentage. */
  lemma {:induction false} PercentageMonotone(sessions: nat, a: nat, b: nat)
    requires sessions > 0 && a <= b
    ensures Percentage(sessions, b) <= Percentage(sessions, a)
  {
    var ra := RoundHalfUp((sessions - a) * 100, sessions);
    var rb := RoundHalfUp((sessions - b) * 100, sessions);
    assert (sessions - b) * 100 <= (sessions - a) * 100;
    assert 2 * sessions * rb - sessions < 2 * sessions * ra + sessions;
    assert 2 * sessions * (rb - 1) < 2 * sessions * ra by {
      assert 2 * sessions * (rb - 1) == 2 * sessions * rb - 2 * sessions;
    }
    ProductOrder(2 * sessions, rb - 1, ra);
  }

  /** The number of rows of `absent` for student `sid`. */
  function AbsencesOf(absent: seq<AbsentRow>, sid: int): nat
  {
    if absent == [] then 0
    else AbsencesOf(absent[..|absent| - 1], sid) + (if absent[|absent| - 1].studentId == sid then 1 else 0)
  }

  /** The loop filling `absByStudent`: after it, every student's count is
      its number of rows. */
  method CountAbsences(absent: seq<AbsentRow>) returns (absByStudent: seq<(int, nat)>)
    ensures forall sid :: GetOr(absByStudent, sid, 0) == AbsencesOf(absent, sid)
  {
    absByStudent := [];
    for i := 0 to |absent|
      invariant forall sid :: GetOr(absByStudent, sid, 0) == AbsencesOf(absent[..i], sid)
    {
      var sid := absent[i].studentId;
      var before := absByStudent;
      absByStudent := Set(before, sid, GetOr(before, sid, 0) + 1);
      forall s
        ensures GetOr(absByStudent, s, 0) == AbsencesOf(absent[..i + 1], s)
      {
        SetGetOr(before, sid, GetOr(before, sid, 0) + 1, s, 0);
        AbsencesOfStep(absent, i, s);
      }
    }
    assert absent[..|absent|] == absent;
  }

  lemma {:induction false} AbsencesOfStep(absent: seq<AbsentRow>, i: nat, sid: int)
    requires i < |absent|
    ensures AbsencesOf(absent[..i + 1], sid)
            == AbsencesOf(absent[..i], sid) + (if absent[i].studentId == sid then 1 else 0)
  {
    assert absent[..i + 1][..i] == absent[..i];
  }

  /** The handler. A missing or zero course id and a course without subjects
      give an empty answer. Otherwise every student of the course gets one
      summary, in roster order: with no sessions all zeros, else its
      absences and the rounded, clamped percentage. */
  method Summaries(courseId: int, studentIds: seq<int>, subjectIds: seq<int>,
                   recordIds: seq<int>, absent: seq<AbsentRow>)
    returns (results: seq<Summary>)
    ensures courseId == 0 || subjectIds == [] ==> results == []
    ensures courseId != 0 && subjectIds != [] ==> |results| == |studentIds|
    ensures courseId != 0 && subjectIds != [] && recordIds == [] ==>
              forall i :: 0 <= i < |results| ==> results[i] == Summary(studentIds[i], 0, 0, 0)
    ensures courseId != 0 && subjectIds != [] && recordIds != [] ==>
              forall i :: 0 <= i < |results| ==>
                var abs := AbsencesOf(absent, studentIds[i]);
                results[i] == Summary(studentIds[i], |recordIds|, abs, Percentage(|recordIds|, abs))
  {
    if courseId == 0 || subjectIds == [] {
      return [];
    }
    var sessions := |recordIds|;
    if sessions == 0 {
      return seq(|studentIds|, i requires 0 <= i < |studentIds| => Summary(studentIds[i], 0, 0, 0));
    }
    var absByStudent := CountAbsences(absent);
    results := seq(|studentIds|, i requires 0 <= i < |studentIds| =>
      var abs := GetOr(absByStudent, studentIds[i], 0);
      Summary(studentIds[i], sessions, abs, Percentage(sessions, abs)));
  }
}
