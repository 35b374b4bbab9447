/** The school-wide absences of a day, grouped by course: the groups, the
    number of courses affected, the average per course and the repeat
    badge. */
module SchoolAbsences {
  import opened Wrappers
  import opened Seqs
  import opened Strings
  import opened Records

  datatype DailyAbsence = DailyAbsence(studentId: int, studentName: string, courseId: int, courseName: string, absenceCount: int)

  /** A dictionary from course name to the absences listed under it. */
  type Groups = seq<(string, seq<DailyAbsence>)>

  /** One step of the reduce: the absence pushed onto its course's list,
      which starts empty. */
  function Push(acc: Groups, a: DailyAbsence): Groups
  {
    Set(acc, a.courseName, GetOr(acc, a.courseName, []) + [a])
  }

  /** `groupedByCourse` as a value: the reduce over the absences in order. */
  function Grouped(absences: seq<DailyAbsence>): Groups
  {
    if absences == [] then []
    else Push(Grouped(absences[..|absences| - 1]), absences[|absences| - 1])
  }

  /** The reduce as the page runs it: create the course's list when it is
      missing, then push the absence onto it. */
  method GroupByCourse(absences: seq<DailyAbsence>) returns (acc: Groups)
    ensures acc == Grouped(absences)
  {
    acc := [];
    for i := 0 to |absences|
      invariant acc == Grouped(absences[..i])
    {
      assert absences[..i + 1][..i] == absences[..i];
      ghost var before := acc;
      var k := absences[i].courseName;
      if Get(acc, k).None? {
        acc := Set(acc, k, []);
      }
      acc := Set(acc, k, GetOr(acc, k, []) + [absences[i]]);
      PushSteps(before, absences[i]);
    }
    assert absences[..|absences|] == absences;
  }

  /** Creating the missing list and then pushing is one `Push`. */
  lemma {:induction false} PushSteps(acc: Groups, a: DailyAbsence)
    ensures var k := a.courseName;
      var created := if Get(acc, k).None? then Set(acc, k, []) else acc;
      Set(created, k, GetOr(created, k, []) + [a]) == Push(acc, a)
  {
    var k := a.courseName;
    if Get(acc, k).None? {
      var created := Set(acc, k, []);
      assert GetOr(created, k, []) == [];
      assert GetOr(acc, k, []) == [];
      assert [] + [a] == [a];
      SetTwice(acc, k, [], [a]);
    }
  }

  function CourseOf(a: DailyAbsence): string
  {
    a.courseName
  }

  /** The list under a course name is exactly that course's absences, in
      input order; a name no absence carries has none. */
  lemma {:induction false} GroupOf(absences: seq<DailyAbsence>, k: string)
    ensures GetOr(Grouped(absences), k, []) == Filter(absences, (a: DailyAbsence) => a.courseName == k)
  {
    if absences != [] {
      var init := absences[..|absences| - 1];
      var last := absences[|absences| - 1];
      GroupOf(init, k);
      SetGetOr(Grouped(init), last.courseName, GetOr(Grouped(init), last.courseName, []) + [last], k, []);
      if last.courseName == k {
        GroupOf(init, last.courseName);
      }
    }
  }

  /** The courses of the groups are the distinct course names, in order of
      first appearance. */
  lemma {:induction false} GroupedKeys(absences: seq<DailyAbsence>)
    ensures Keys(Grouped(absences)) == Dedupe(Map(absences, CourseOf))
  {
    if absences != [] {
      var init := absences[..|absences| - 1];
      var last := absences[|absences| - 1];
      var g := Grouped(init);
      var names := Map(init, CourseOf);
      var x := last.courseName;
      GroupedKeys(init);
      assert Keys(Grouped(absences)) == if x in Keys(g) then Keys(g) else Keys(g) + [x];
      MapInit(absences, CourseOf);
      DedupeAppend(names, x);
      assert x in Keys(g) <==> x in names;
    }
  }

  /** Each course appears once, and each group holds exactly its course's
      absences: so the groups are disjoint. */
  lemma {:induction false} GroupsExact(absences: seq<DailyAbsence>)
    ensures Valid(Grouped(absences))
    ensures forall i :: 0 <= i < |Grouped(absences)| ==>
      Grouped(absences)[i].1 == Filter(absences, (a: DailyAbsence) => a.courseName == Grouped(absences)[i].0)
  {
    var g := Grouped(absences);
    GroupedKeys(absences);
    forall i | 0 <= i < |g|
      ensures g[i].1 == Filter(absences, (a: DailyAbsence) => a.courseName == g[i].0)
    {
      GetAt(g, i);
      GroupOf(absences, g[i].0);
    }
  }

  /** Total number of absences over all groups. */
  function TotalSize(g: Groups): nat
  {
    if g == [] then 0 else |g[0].1| + TotalSize(g[1..])
  }

  lemma {:induction false} TotalSizeSet(m: Groups, k: string, v: seq<DailyAbsence>)
    ensures TotalSize(Set(m, k, v)) == TotalSize(m) - |GetOr(m, k, [])| + |v|
  {
    if m != [] && m[0].0 != k {
      var t := Set(m[1..], k, v);
      assert Set(m, k, v) == [m[0]] + t;
      assert ([m[0]] + t)[1..] == t;
      TotalSizeSet(m[1..], k, v);
    }
  }

  /** Every absence lands in exactly one group: the sizes add up to the
      number of absences. */
  lemma {:induction false} GroupSizesSum(absences: seq<DailyAbsence>)
    ensures TotalSize(Grouped(absences)) == |absences|
  {
    if absences != [] {
      var init := absences[..|absences| - 1];
      var last := absences[|absences| - 1];
      GroupSizesSum(init);
      var g := Grouped(init);
      TotalSizeSet(g, last.courseName, GetOr(g, last.courseName, []) + [last]);
    }
  }

  /** "Cursos Afectados": the number of keys of the grouping. */
  function AffectedCourses(absences: seq<DailyAbsence>): (n: nat)
    ensures n == |Dedupe(Map(absences, CourseOf))|
    ensures n <= |absences|
    ensures n == 0 <==> absences == []
  {
    GroupedKeys(absences);
    var names := Map(absences, CourseOf);
    assert absences != [] ==> names[0] in Dedupe(names);
    |Keys(Grouped(absences))|
  }

  /** "Promedio por Curso": `None` when there are no groups (the page shows
      "0"), otherwise absences per affected course. */
  function AveragePerCourse(absences: seq<DailyAbsence>): (r: Option<real>)
    ensures r.None? <==> absences == []
  {
    var n := AffectedCourses(absences);
    if n > 0 then Some(|absences| as real / n as real) else None
  }

  /** The average is never below one: every affected course has at least
      one absence. */
  lemma {:induction false} AverageFacts(absences: seq<DailyAbsence>)
    requires absences != []
    ensures AveragePerCourse(absences).value >= 1.0
  {
    var n := AffectedCourses(absences);
    var t := |absences|;
    assert 0 < n <= t;
    var q := t as real / n as real;
    assert AveragePerCourse(absences) == Some(q);
    QuotientAtLeastOne(t as real, n as real, q);
  }

  lemma {:induction false} QuotientAtLeastOne(total: real, n: real, q: real)
    requires 0.0 < n <= total && q == total / n
    ensures q * n == total && q >= 1.0
  {
    assert q * n == total;
    assert (q - 1.0) * n == total - n;
  }

  /** The "Nx" badge beside a student, shown only for a repeated absence. */
  function Badge(a: DailyAbsence): (b: Option<string>)
    ensures b.Some? <==> a.absenceCount > 1
  {
    if a.absenceCount > 1 then Some(IntToString(a.absenceCount) + "x") else None
  }
}
