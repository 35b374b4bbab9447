/** The students panel: the percentage of each student looked up by id,
    the list filtered by course and search text, the counters above it, the
    CSV export of the filtered list, and the six-digit code shown for a
    student. */
module StudentsPanel {
  import opened Wrappers
  import opened Seqs
  import opened Strings
  import opened Records
  import MobileStudents

  datatype Course = Course(id: int, name: string)
  datatype Student = Student(id: int, name: string, courseId: int, requirePiar: Option<bool>)

  /** An element of the attendance summary; its percentage is the integer
      the worker computed, so `Math.round` leaves it as it is. */
  datatype SummaryEntry = SummaryEntry(studentId: int, percentage: int)

  /** `pctMap` as a value: one (id, percentage) pair per id, later entries
      overwriting earlier ones in place. */
  function PctMapOf(summary: seq<SummaryEntry>): seq<(int, int)>
  {
    if summary == [] then []
    else
      var last := summary[|summary| - 1];
      Set(PctMapOf(summary[..|summary| - 1]), last.studentId, last.percentage)
  }

  /** The percentage of the last summary entry for a student. */
  function LastPercentage(summary: seq<SummaryEntry>, id: int): Option<int>
  {
    if summary == [] then None
    else if summary[|summary| - 1].studentId == id then Some(summary[|summary| - 1].percentage)
    else LastPercentage(summary[..|summary| - 1], id)
  }

  /** The loop that fills `pctMap`. */
  method BuildPctMap(summary: seq<SummaryEntry>) returns (m: seq<(int, int)>)
    ensures m == PctMapOf(summary)
  {
    m := [];
    for i := 0 to |summary|
      invariant m == PctMapOf(summary[..i])
    {
      var s := summary[i];
      m := Set(m, s.studentId, s.percentage);
      assert summary[..i + 1][..i] == summary[..i];
    }
    assert summary[..|summary|] == summary;
  }

  /** Looking a student up in `pctMap` gives the last summary entry for
      the student, and nothing when there is none. */
  lemma {:induction false} PctMapLookup(summary: seq<SummaryEntry>, id: int)
    ensures Get(PctMapOf(summary), id) == LastPercentage(summary, id)
  {
    if summary != [] {
      PctMapLookup(summary[..|summary| - 1], id);
    }
  }

  /** The course filter applies when a course id other than 0 is selected. */
  predicate InSelectedCourse(selectedCourseId: Option<int>, st: Student)
  {
    selectedCourseId.None? || selectedCourseId.value == 0 || st.courseId == selectedCourseId.value
  }

  /** The search: the lower-cased query inside the lower-cased name or the
      decimal id. */
  predicate MatchesQuery(query: string, st: Student)
  {
    var q := Lower(query);
    Contains(Lower(st.name), q) || Contains(IntToString(st.id), q)
  }

  /** `filtered`. */
  function Filtered(students: seq<Student>, selectedCourseId: Option<int>, query: string): seq<Student>
  {
    var base := Filter(students, (st: Student) => InSelectedCourse(selectedCourseId, st));
    if query == "" then base
    else Filter(base, (st: Student) => MatchesQuery(query, st))
  }

  /** The filtered list keeps the students of the selected course that
      match the search (all of them for an empty search), in their order. */
  lemma {:induction false} FilteredFacts(students: seq<Student>, selectedCourseId: Option<int>, query: string)
    ensures forall st :: st in Filtered(students, selectedCourseId, query) <==>
      st in students && InSelectedCourse(selectedCourseId, st) && (query == "" || MatchesQuery(query, st))
    ensures IsSubsequence(Filtered(students, selectedCourseId, query), students)
    ensures query == "" ==> Filtered(students, selectedCourseId, query) == Filter(students, (st: Student) => InSelectedCourse(selectedCourseId, st))
  {
    var base := Filter(students, (st: Student) => InSelectedCourse(selectedCourseId, st));
    FilterIsSubsequence(students, (st: Student) => InSelectedCourse(selectedCourseId, st));
    if query != "" {
      FilterIsSubsequence(base, (st: Student) => MatchesQuery(query, st));
      SubsequenceTrans(Filtered(students, selectedCourseId, query), base, students);
    }
  }

  datatype Totals = Totals(total: nat, activos: nat, alerts: nat, piar: nat)

  /** `!!st.require_piar`. */
  predicate NeedsPiar(st: Student)
  {
    st.requirePiar == Some(true)
  }

  /** The counters above the list. */
  function TotalsOf(filtered: seq<Student>, alertIds: seq<int>): (t: Totals)
    ensures t.total == t.activos == |filtered|
    ensures t.alerts <= t.total && t.piar <= t.total
    ensures t.alerts == |Filter(filtered, (st: Student) => st.id in alertIds)|
    ensures t.piar == |Filter(filtered, NeedsPiar)|
  {
    Totals(|filtered|, |filtered|,
           |Filter(filtered, (st: Student) => st.id in alertIds)|,
           |Filter(filtered, NeedsPiar)|)
  }

  /** The students the panel marks with an alert are those of the alert
      list with three or more consecutive absences. */
  lemma {:induction false} AlertedStudents(filtered: seq<Student>, alerts: seq<MobileStudents.AlertInfo>, st: Student)
    ensures st in Filter(filtered, (s: Student) => s.id in MobileStudents.AlertIds(alerts)) <==>
      st in filtered && exists i :: 0 <= i < |alerts| && alerts[i].studentId == st.id && alerts[i].consecutiveAbsences >= 3
  {
  }

  /** Every double quote doubled. */
  function Escape(s: string): (r: string)
    ensures |r| >= |s|
  {
    if s == [] then []
    else (if s[0] == '"' then "\"\"" else [s[0]]) + Escape(s[1..])
  }

  /** An exported field: the text of the value in double quotes, inner
      quotes doubled. */
  function Quote(s: string): string
  {
    "\"" + Escape(s) + "\""
  }

  /** Reading the inside of a quoted field: a pair of quotes stands for
      one; a lone quote is not allowed there. */
  function Unescape(t: string): Option<string>
  {
    if t == [] then Some([])
    else if t[0] == '"' then
      if |t| >= 2 && t[1] == '"' then
        match Unescape(t[2..]) case None => None case Some(r) => Some("\"" + r)
      else None
    else
      match Unescape(t[1..]) case None => None case Some(r) => Some([t[0]] + r)
  }

  /** Reading a quoted field as section 2, rule 7 of RFC 4180 describes. */
  function Unquote(f: string): Option<string>
  {
    if |f| >= 2 && f[0] == '"' && f[|f| - 1] == '"' then Unescape(f[1..|f| - 1]) else None
  }

  lemma {:induction false} UnescapeEscape(s: string)
    ensures Unescape(Escape(s)) == Some(s)
  {
    if s != [] {
      UnescapeEscape(s[1..]);
      var e := Escape(s);
      if s[0] == '"' {
        assert e[2..] == Escape(s[1..]);
      } else {
        assert e[1..] == Escape(s[1..]);
      }
      assert [s[0]] + s[1..] == s;
    }
  }

  /** Every exported field reads back as the text it was made from. */
  lemma {:induction false} QuoteRoundTrip(s: string)
    ensures Unquote(Quote(s)) == Some(s)
  {
    var f := Quote(s);
    assert f[1..|f| - 1] == Escape(s);
    UnescapeEscape(s);
  }

  /** `courses.find(c => c.id === id)?.name || ""`. */
  function CourseNameOf(courses: seq<Course>, id: int): (name: string)
    ensures (forall c :: c in courses ==> c.id != id) ==> name == ""
    ensures name != "" ==> exists c :: c in courses && c.id == id && c.name == name
  {
    if courses == [] then ""
    else if courses[0].id == id then courses[0].name
    else CourseNameOf(courses[1..], id)
  }

  /** `pctMap.get(id) ?? 0`. */
  function PctOf(pctMap: seq<(int, int)>, id: int): int
  {
    GetOr(pctMap, id, 0)
  }

  const Header: string := "Nombre,CC,Curso,Asistencia"

  /** The four quoted fields of a student's line. */
  function ExportFields(st: Student, pctMap: seq<(int, int)>, courses: seq<Course>): seq<string>
  {
    [Quote(st.name), Quote(IntToString(st.id)), Quote(CourseNameOf(courses, st.courseId)),
     Quote(IntToString(PctOf(pctMap, st.id)) + "%")]
  }

  function ExportLine(st: Student, pctMap: seq<(int, int)>, courses: seq<Course>): string
  {
    Join(ExportFields(st, pctMap, courses), ",")
  }

  function ExportLines(filtered: seq<Student>, pctMap: seq<(int, int)>, courses: seq<Course>): (lines: seq<string>)
    ensures |lines| == |filtered|
    ensures forall i :: 0 <= i < |filtered| ==> lines[i] == ExportLine(filtered[i], pctMap, courses)
  {
    if filtered == [] then []
    else [ExportLine(filtered[0], pctMap, courses)] + ExportLines(filtered[1..], pctMap, courses)
  }

  /** The exported text. */
  function ExportCsv(filtered: seq<Student>, pctMap: seq<(int, int)>, courses: seq<Course>): string
  {
    Join([Header] + ExportLines(filtered, pctMap, courses), "\n")
  }

  /** A text without line breaks keeps none when escaped. */
  lemma {:induction false} EscapeNoNewline(s: string)
    requires '\n' !in s
    ensures '\n' !in Escape(s)
  {
    if s != [] {
      EscapeNoNewline(s[1..]);
    }
  }

  lemma {:induction false} NatToStringNoNewline(n: nat)
    ensures '\n' !in NatToString(n)
  {
    var r := NatToString(n);
    forall i | 0 <= i < |r| ensures r[i] != '\n' {
      assert IsDigit(r[i]);
    }
  }

  /** A line holds no line break when the name and the course name hold
      none. */
  lemma {:induction false} JoinNoNewline(parts: seq<string>, sep: string)
    requires '\n' !in sep && forall i :: 0 <= i < |parts| ==> '\n' !in parts[i]
    ensures '\n' !in Join(parts, sep)
  {
    if |parts| > 1 {
      JoinNoNewline(parts[1..], sep);
    }
  }

  lemma {:induction false} ExportLineNoNewline(st: Student, pctMap: seq<(int, int)>, courses: seq<Course>)
    requires '\n' !in st.name && '\n' !in CourseNameOf(courses, st.courseId)
    ensures '\n' !in ExportLine(st, pctMap, courses)
  {
    var fs := ExportFields(st, pctMap, courses);
    EscapeNoNewline(st.name);
    EscapeNoNewline(CourseNameOf(courses, st.courseId));
    var id := st.id;
    var p := PctOf(pctMap, st.id);
    NatToStringNoNewline(if id < 0 then -id else id);
    NatToStringNoNewline(if p < 0 then -p else p);
    EscapeNoNewline(IntToString(id));
    EscapeNoNewline(IntToString(p) + "%");
    JoinNoNewline(fs, ",");
  }

  /** With no line breaks inside names and course names, the export reads
      back line by line as the header followed by one line per filtered
      student, in order, each made of four fields that unquote to the
      name, the id, the course name and the percentage with "%", which is
      "0%" for a student missing from `pctMap`. */
  lemma {:induction false} ExportReadsBack(filtered: seq<Student>, pctMap: seq<(int, int)>, courses: seq<Course>)
    requires forall i :: 0 <= i < |filtered| ==>
      '\n' !in filtered[i].name && '\n' !in CourseNameOf(courses, filtered[i].courseId)
    ensures var lines := Split(ExportCsv(filtered, pctMap, courses), '\n');
      |lines| == |filtered| + 1 && lines[0] == Header
      && forall i :: 0 <= i < |filtered| ==> lines[i + 1] == ExportLine(filtered[i], pctMap, courses)
    ensures forall st: Student :: Get(pctMap, st.id).None? ==> ExportFields(st, pctMap, courses)[3] == Quote("0%")
  {
    var parts := [Header] + ExportLines(filtered, pctMap, courses);
    ExportPartsNoNewline(filtered, pctMap, courses, parts);
    SplitJoin(parts, '\n');
    forall st: Student | Get(pctMap, st.id).None?
      ensures ExportFields(st, pctMap, courses)[3] == Quote("0%")
    {
      MissingPctIsZero(st, pctMap, courses);
    }
  }

  lemma {:induction false} ExportPartsNoNewline(filtered: seq<Student>, pctMap: seq<(int, int)>, courses: seq<Course>,
                                                parts: seq<string>)
    requires forall i :: 0 <= i < |filtered| ==>
      '\n' !in filtered[i].name && '\n' !in CourseNameOf(courses, filtered[i].courseId)
    requires parts == [Header] + ExportLines(filtered, pctMap, courses)
    ensures forall i :: 0 <= i < |parts| ==> '\n' !in parts[i]
  {
    forall i | 0 <= i < |parts| ensures '\n' !in parts[i] {
      if i > 0 {
        ExportLineNoNewline(filtered[i - 1], pctMap, courses);
      }
    }
  }

  lemma {:induction false} MissingPctIsZero(st: Student, pctMap: seq<(int, int)>, courses: seq<Course>)
    requires Get(pctMap, st.id).None?
    ensures ExportFields(st, pctMap, courses)[3] == Quote("0%")
  {
    assert PctOf(pctMap, st.id) == 0;
    assert IntToString(0) == "0";
  }

  /** `s.padStart(n, c)`. */
  function PadStart(s: string, n: nat, c: char): (r: string)
    ensures |r| == if |s| >= n then |s| else n
  {
    if |s| >= n then s else seq(n - |s|, _ => c) + s
  }

  /** The code shown for a student: the decimal id padded with zeros to six
      characters. */
  function DisplayCode(id: int): string
  {
    PadStart(IntToString(id), 6, '0')
  }

  lemma {:induction false} LeadingZeros(z: nat, s: string)
    requires forall i :: 0 <= i < |s| ==> IsDigit(s[i])
    ensures var t := seq(z, _ => '0') + s;
      (forall i :: 0 <= i < |t| ==> IsDigit(t[i])) && DigitsValue(t) == DigitsValue(s)
  {
    var t := seq(z, _ => '0') + s;
    assert forall i :: 0 <= i < |t| ==> IsDigit(t[i]);
    if s == [] {
      ZerosValue(z);
      assert t == seq(z, _ => '0');
    } else {
      LeadingZeros(z, s[..|s| - 1]);
      assert t[..|t| - 1] == seq(z, _ => '0') + s[..|s| - 1];
    }
  }

  lemma {:induction false} ZerosValue(z: nat)
    ensures DigitsValue(seq(z, _ => '0')) == 0
  {
    if z > 0 {
      ZerosValue(z - 1);
      assert seq(z, _ => '0')[..z - 1] == seq(z - 1, _ => '0');
    }
  }

  /** The code of a student with a non-negative id has at least six digits
      and reads back as the id. */
  lemma {:induction false} DisplayCodeValue(id: nat)
    ensures var code := DisplayCode(id);
      |code| >= 6 && (forall i :: 0 <= i < |code| ==> IsDigit(code[i])) && DigitsValue(code) == id
  {
    var s := NatToString(id);
    NatToStringRoundTrip(id);
    if |s| < 6 {
      LeadingZeros(6 - |s|, s);
    }
  }
}
