/** The mobile students page: the courses shown in the school's fixed
    order, the students of the selected course, the students with an
    absence alert, and a student's age. The date of today and the parsed
    birth date are parameters (`None` for a missing or unparseable one). */
module MobileStudents {
  import opened Wrappers
  import opened Seqs
  import opened Strings

  datatype Course = Course(id: int, name: string)
  datatype Student = Student(id: int, name: string, courseId: int)
  datatype AlertInfo = AlertInfo(studentId: int, consecutiveAbsences: int)

  /** A calendar date as (year, month, day of month). */
  datatype Date = Date(year: int, month: int, day: int)

  const CourseOrder: seq<string> := [
    "6A", "6B", "6C", "7A", "7B", "7C", "8A", "8B", "8C",
    "9A", "9B", "9C", "10A", "10B", "10C", "11A", "11B", "11C"]

  function NamesOf(cs: seq<Course>): (r: seq<string>)
    ensures |r| == |cs| && forall i :: 0 <= i < |cs| ==> r[i] == cs[i].name
  {
    if cs == [] then [] else [cs[0].name] + NamesOf(cs[1..])
  }

  /** `arr.find(x => x.name === n)`. */
  function FindByName(arr: seq<Course>, n: string): (r: Option<Course>)
    ensures r.Some? ==> r.value in arr && r.value.name == n
    ensures r.None? ==> n !in NamesOf(arr)
  {
    if arr == [] then None
    else if arr[0].name == n then Some(arr[0])
    else FindByName(arr[1..], n)
  }

  /** `order.map(n => arr.find(...)).filter(Boolean)`. */
  function InOrder(order: seq<string>, arr: seq<Course>): seq<Course>
  {
    if order == [] then []
    else
      var found := FindByName(arr, order[0]);
      (if found.Some? then [found.value] else []) + InOrder(order[1..], arr)
  }

  /** The course list the page shows. */
  function OrderCourses(arr: seq<Course>): seq<Course>
  {
    var sorted := InOrder(CourseOrder, arr);
    if |sorted| > 0 then sorted else arr
  }

  /** The reordered list holds fetched courses only, each under a listed
      name. */
  lemma {:induction false} InOrderMembers(order: seq<string>, arr: seq<Course>)
    ensures forall c :: c in InOrder(order, arr) ==> c in arr && c.name in order
  {
    if order != [] {
      InOrderMembers(order[1..], arr);
    }
  }

  /** A listed name is shown exactly when some fetched course carries it. */
  lemma {:induction false} InOrderNames(order: seq<string>, arr: seq<Course>)
    ensures forall n :: n in order ==> (n in NamesOf(arr) <==> n in NamesOf(InOrder(order, arr)))
  {
    if order != [] {
      InOrderNames(order[1..], arr);
      InOrderMembers(order[1..], arr);
      var found := FindByName(arr, order[0]);
      var rest := InOrder(order[1..], arr);
      var r := InOrder(order, arr);
      assert NamesOf(r) == (if found.Some? then [order[0]] else []) + NamesOf(rest);
      forall n | n in order
        ensures n in NamesOf(arr) <==> n in NamesOf(r)
      {
        if n != order[0] {
          assert n in order[1..];
        } else if n !in NamesOf(arr) {
          forall k | 0 <= k < |rest| ensures rest[k].name != n {
            assert rest[k] in arr;
          }
        }
      }
    }
  }

  /** The shown names follow the listed order. */
  lemma {:induction false} InOrderFollowsOrder(order: seq<string>, arr: seq<Course>)
    ensures IsSubsequence(NamesOf(InOrder(order, arr)), order)
  {
    if order != [] {
      InOrderFollowsOrder(order[1..], arr);
      var found := FindByName(arr, order[0]);
      var rest := InOrder(order[1..], arr);
      assert NamesOf(InOrder(order, arr)) == (if found.Some? then [order[0]] else []) + NamesOf(rest);
      SubsequenceCons(NamesOf(rest), order[1..], order[0], found.Some?);
      assert [order[0]] + order[1..] == order;
    }
  }

  /** If no fetched course carries a listed name the fetched list is kept
      as it is; otherwise the reordered list is shown. */
  lemma {:induction false} OrderCoursesFallback(arr: seq<Course>)
    ensures (forall n :: n in CourseOrder ==> n !in NamesOf(arr)) ==> OrderCourses(arr) == arr
    ensures (exists n :: n in CourseOrder && n in NamesOf(arr)) ==> OrderCourses(arr) == InOrder(CourseOrder, arr)
    ensures forall c :: c in OrderCourses(arr) ==> c in arr
  {
    InOrderMembers(CourseOrder, arr);
    InOrderNames(CourseOrder, arr);
    if exists n :: n in CourseOrder && n in NamesOf(arr) {
      var n :| n in CourseOrder && n in NamesOf(arr);
      assert n in NamesOf(InOrder(CourseOrder, arr));
    }
  }

  /** `courseStudents`: no course of that name, no students; otherwise the
      students of the first course of that name, in their order. */
  function CourseStudents(courses: seq<Course>, students: seq<Student>, selectedName: string): (r: seq<Student>)
    ensures FindByName(courses, selectedName).None? ==> r == []
    ensures FindByName(courses, selectedName).Some? ==>
      IsSubsequence(r, students)
      && forall st :: st in r <==> st in students && st.courseId == FindByName(courses, selectedName).value.id
  {
    var selected := FindByName(courses, selectedName);
    if selected.None? then []
    else
      var id := selected.value.id;
      FilterIsSubsequence(students, (st: Student) => st.courseId == id);
      Filter(students, (st: Student) => st.courseId == id)
  }

  /** `alerts.filter(a => a.consecutive_absences >= 3).map(a => a.student_id)`,
      the members of `alertSet`. */
  function AlertIds(alerts: seq<AlertInfo>): (ids: seq<int>)
    ensures forall x :: x in ids <==> exists i :: 0 <= i < |alerts| && alerts[i].studentId == x && alerts[i].consecutiveAbsences >= 3
  {
    if alerts == [] then []
    else
      var last := alerts[|alerts| - 1];
      var init := AlertIds(alerts[..|alerts| - 1]);
      assert forall i :: 0 <= i < |alerts| - 1 ==> alerts[..|alerts| - 1][i] == alerts[i];
      init + (if last.consecutiveAbsences >= 3 then [last.studentId] else [])
  }

  /** The age in whole years on `today`: the difference of the years, one
      less while this year's birthday (month, then day) is still to come. */
  function Age(birth: Date, today: Date): int
  {
    var mDiff := today.month - birth.month;
    var age := today.year - birth.year;
    if mDiff < 0 || (mDiff == 0 && today.day < birth.day) then age - 1 else age
  }

  /** `calcAge`: "-" without a valid birth date. */
  function CalcAge(birth: Option<Date>, today: Date): string
  {
    if birth.None? then "-" else IntToString(Age(birth.value, today))
  }

  /** Dates in calendar order. */
  predicate DateLe(a: Date, b: Date)
  {
    a.year < b.year || (a.year == b.year && (a.month < b.month || (a.month == b.month && a.day <= b.day)))
  }

  /** The age is the number of birthdays reached: the birthday of that many
      years is on or before today, the next one after it. */
  lemma {:induction false} AgeCountsBirthdays(birth: Date, today: Date)
    ensures DateLe(birth.(year := birth.year + Age(birth, today)), today)
    ensures !DateLe(birth.(year := birth.year + Age(birth, today) + 1), today)
  {
  }

  /** A birth date on or before today gives an age of at least 0, which is
      what the page shows. */
  lemma {:induction false} AgeShown(birth: Date, today: Date)
    requires DateLe(birth, today)
    ensures Age(birth, today) >= 0
    ensures CalcAge(Some(birth), today) == NatToString(Age(birth, today))
  {
  }
}
