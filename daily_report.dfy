/** One entry of the attendance report (`GET /api/reports/daily`): the roster of
    the record's course, in the order it was read, split into the students
    listed absent in the record and the rest. */
module DailyReport {
  import opened Seqs

  datatype Student = Student(id: int, name: string)

  /** The students of the roster whose id is not among the absence rows. */
  function Present(roster: seq<Student>, absentIds: seq<int>): seq<Student>
  {
    Filter(roster, (s: Student) => s.id !in absentIds)
  }

  /** The students of the roster whose id is among the absence rows. */
  function Absent(roster: seq<Student>, absentIds: seq<int>): seq<Student>
  {
    Filter(roster, (s: Student) => s.id in absentIds)
  }

  /** The two lists split the roster: each roster student is in exactly one
      of them according to the absence rows, both keep roster order, and
      their lengths add up to the roster's. */
  lemma {:induction false} ReportPartition(roster: seq<Student>, absentIds: seq<int>)
    ensures forall s :: s in Present(roster, absentIds) <==> s in roster && s.id !in absentIds
    ensures forall s :: s in Absent(roster, absentIds) <==> s in roster && s.id in absentIds
    ensures IsSubsequence(Present(roster, absentIds), roster)
    ensures IsSubsequence(Absent(roster, absentIds), roster)
    ensures |Present(roster, absentIds)| + |Absent(roster, absentIds)| == |roster|
  {
    var p := (s: Student) => s.id !in absentIds;
    var q := (s: Student) => s.id in absentIds;
    FilterIsSubsequence(roster, p);
    FilterIsSubsequence(roster, q);
    FilterPartition(roster, p, q);
  }

  /** An absence row whose student is not on the roster changes neither
      list. */
  lemma {:induction false} UnknownAbsenceIgnored(roster: seq<Student>, absentIds: seq<int>, x: int)
    requires forall i :: 0 <= i < |roster| ==> roster[i].id != x
    ensures Present(roster, absentIds + [x]) == Present(roster, absentIds)
    ensures Absent(roster, absentIds + [x]) == Absent(roster, absentIds)
  {
    FilterAgree(roster, (s: Student) => s.id !in absentIds, (s: Student) => s.id !in absentIds + [x]);
    FilterAgree(roster, (s: Student) => s.id in absentIds, (s: Student) => s.id in absentIds + [x]);
  }
}
