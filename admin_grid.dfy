/** The administrator's subject-hours grid: one column per grade (6 to 11),
    a list of (subject, grade, hours) rows, a selected subject. A click on a
    grade column, or dropping a subject chip on it, adds one hour to the
    subject's row for that grade or appends a new row with one hour; a long
    press on a chip removes the subject from that grade. Each column shows
    the sum of its hours. Also the page's two lookups: the course name by
    id and the colour of a subject. */
module AdminGrid {
  import opened Wrappers
  import opened Seqs

  datatype GridRow = GridRow(subject: string, grade: int, hours: int)
  datatype Course = Course(id: int, name: string)

  /** `findIndex` of the row for a subject and grade: the first such index,
      or -1. */
  function FindRow(rows: seq<GridRow>, subject: string, grade: int): (i: int)
    ensures -1 <= i < |rows|
    ensures i >= 0 ==> rows[i].subject == subject && rows[i].grade == grade
    ensures forall j :: 0 <= j < |rows| && (i < 0 || j < i) ==> !(rows[j].subject == subject && rows[j].grade == grade)
  {
    if rows == [] then -1
    else if rows[0].subject == subject && rows[0].grade == grade then 0
    else
      var i := FindRow(rows[1..], subject, grade);
      if i < 0 then -1 else i + 1
  }

  /** The rows after one more hour of `subject` in `grade`. */
  function Bump(rows: seq<GridRow>, subject: string, grade: int): seq<GridRow>
  {
    var i := FindRow(rows, subject, grade);
    if i >= 0 then rows[i := rows[i].(hours := rows[i].hours + 1)]
    else rows + [GridRow(subject, grade, 1)]
  }

  /** The rows after a long press on `subject` in `grade`. */
  function RemoveKey(rows: seq<GridRow>, subject: string, grade: int): seq<GridRow>
  {
    Filter(rows, (r: GridRow) => !(r.subject == subject && r.grade == grade))
  }

  /** The hours of the rows that pass `p`. */
  function SumWhere(rows: seq<GridRow>, p: GridRow -> bool): int
  {
    if rows == [] then 0
    else SumWhere(rows[..|rows| - 1], p) + (if p(rows[|rows| - 1]) then rows[|rows| - 1].hours else 0)
  }

  /** The hours the grid holds for one subject in one grade. */
  function HoursAt(rows: seq<GridRow>, subject: string, grade: int): int
  {
    SumWhere(rows, (r: GridRow) => r.subject == subject && r.grade == grade)
  }

  /** The total shown at the top of a grade column. */
  function GradeTotal(rows: seq<GridRow>, grade: int): int
  {
    SumWhere(rows, (r: GridRow) => r.grade == grade)
  }

  /** No two rows share a subject and a grade. */
  predicate UniqueKeys(rows: seq<GridRow>)
  {
    forall i, j :: 0 <= i < j < |rows| ==> !(rows[i].subject == rows[j].subject && rows[i].grade == rows[j].grade)
  }

  lemma {:induction false} SumWhereUpdate(rows: seq<GridRow>, i: nat, x: GridRow, p: GridRow -> bool)
    requires i < |rows|
    ensures SumWhere(rows[i := x], p)
         == SumWhere(rows, p) - (if p(rows[i]) then rows[i].hours else 0) + (if p(x) then x.hours else 0)
  {
    var init := rows[..|rows| - 1];
    if i < |rows| - 1 {
      assert rows[i := x][..|rows| - 1] == init[i := x];
      SumWhereUpdate(init, i, x, p);
    } else {
      assert rows[i := x][..|rows| - 1] == init;
    }
  }

  lemma {:induction false} SumWhereAppend(rows: seq<GridRow>, x: GridRow, p: GridRow -> bool)
    ensures SumWhere(rows + [x], p) == SumWhere(rows, p) + (if p(x) then x.hours else 0)
  {
    assert (rows + [x])[..|rows|] == rows;
  }

  /** Summing over a filtered list sums the rows passing both tests. */
  lemma {:induction false} SumWhereFilter(rows: seq<GridRow>, q: GridRow -> bool, p: GridRow -> bool)
    ensures SumWhere(Filter(rows, q), p) == SumWhere(rows, (r: GridRow) => p(r) && q(r))
  {
    if rows != [] {
      var init := rows[..|rows| - 1];
      var last := rows[|rows| - 1];
      SumWhereFilter(init, q, p);
      assert Filter(rows, q) == Filter(init, q) + (if q(last) then [last] else []);
      if q(last) {
        SumWhereAppend(Filter(init, q), last, p);
      } else {
        assert Filter(rows, q) == Filter(init, q);
      }
    }
  }

  /** Tests that agree on every row give the same sum. */
  lemma {:induction false} SumWhereAgree(rows: seq<GridRow>, p: GridRow -> bool, q: GridRow -> bool)
    requires forall i :: 0 <= i < |rows| ==> p(rows[i]) == q(rows[i])
    ensures SumWhere(rows, p) == SumWhere(rows, q)
  {
    if rows != [] {
      var init := rows[..|rows| - 1];
      assert forall i :: 0 <= i < |init| ==> init[i] == rows[i];
      SumWhereAgree(init, p, q);
    }
  }

  /** One more hour for the key, in place or in a new last row; every other
      row stays where it was. */
  lemma {:induction false} BumpShape(rows: seq<GridRow>, subject: string, grade: int)
    ensures var r := Bump(rows, subject, grade);
      var i := FindRow(rows, subject, grade);
      (i >= 0 ==> |r| == |rows| && r[i] == rows[i].(hours := rows[i].hours + 1)
                  && forall j :: 0 <= j < |rows| && j != i ==> r[j] == rows[j])
      && (i < 0 ==> r == rows + [GridRow(subject, grade, 1)]
                    && forall j :: 0 <= j < |rows| ==> !(rows[j].subject == subject && rows[j].grade == grade))
  {
  }

  /** The key gains one hour and no other key changes. */
  lemma {:induction false} BumpHours(rows: seq<GridRow>, subject: string, grade: int, s: string, g: int)
    ensures HoursAt(Bump(rows, subject, grade), s, g)
         == HoursAt(rows, s, g) + (if s == subject && g == grade then 1 else 0)
  {
    var p := (r: GridRow) => r.subject == s && r.grade == g;
    var i := FindRow(rows, subject, grade);
    if i >= 0 {
      SumWhereUpdate(rows, i, rows[i].(hours := rows[i].hours + 1), p);
    } else {
      SumWhereAppend(rows, GridRow(subject, grade, 1), p);
    }
  }

  /** The column of the grade shows one hour more; other columns are
      unchanged. */
  lemma {:induction false} BumpGradeTotal(rows: seq<GridRow>, subject: string, grade: int, g: int)
    ensures GradeTotal(Bump(rows, subject, grade), g) == GradeTotal(rows, g) + (if g == grade then 1 else 0)
  {
    var p := (r: GridRow) => r.grade == g;
    var i := FindRow(rows, subject, grade);
    if i >= 0 {
      SumWhereUpdate(rows, i, rows[i].(hours := rows[i].hours + 1), p);
    } else {
      SumWhereAppend(rows, GridRow(subject, grade, 1), p);
    }
  }

  /** Neither a click nor a drop creates a second row for a key. */
  lemma {:induction false} BumpKeepsKeysUnique(rows: seq<GridRow>, subject: string, grade: int)
    requires UniqueKeys(rows)
    ensures UniqueKeys(Bump(rows, subject, grade))
  {
    var r := Bump(rows, subject, grade);
    forall i, j | 0 <= i < j < |r|
      ensures !(r[i].subject == r[j].subject && r[i].grade == r[j].grade)
    {
      if j == |rows| {
        assert r[i] == rows[i];
      } else {
        assert r[i].subject == rows[i].subject && r[i].grade == rows[i].grade;
        assert r[j].subject == rows[j].subject && r[j].grade == rows[j].grade;
      }
    }
  }

  /** A long press leaves no hours for the key and keeps every other key's
      hours. */
  lemma {:induction false} RemoveKeyHours(rows: seq<GridRow>, subject: string, grade: int, s: string, g: int)
    ensures HoursAt(RemoveKey(rows, subject, grade), s, g)
         == (if s == subject && g == grade then 0 else HoursAt(rows, s, g))
  {
    var q := (r: GridRow) => !(r.subject == subject && r.grade == grade);
    var key := (r: GridRow) => r.subject == s && r.grade == g;
    SumWhereFilter(rows, q, key);
    if s == subject && g == grade {
      SumWhereAgree(rows, (r: GridRow) => key(r) && q(r), (r: GridRow) => false);
      SumWhereNone(rows);
    } else {
      SumWhereAgree(rows, (r: GridRow) => key(r) && q(r), key);
    }
  }

  /** A long press lowers the grade's column by the key's hours and leaves
      other columns alone. */
  lemma {:induction false} RemoveKeyGradeTotal(rows: seq<GridRow>, subject: string, grade: int, g: int)
    ensures GradeTotal(RemoveKey(rows, subject, grade), g)
         == GradeTotal(rows, g) - (if g == grade then HoursAt(rows, subject, grade) else 0)
  {
    var q := (r: GridRow) => !(r.subject == subject && r.grade == grade);
    var key := (r: GridRow) => r.subject == subject && r.grade == grade;
    var col := (r: GridRow) => r.grade == g;
    SumWhereFilter(rows, q, col);
    if g == grade {
      SumWhereSplit(rows, col, key);
      SumWhereAgree(rows, (r: GridRow) => col(r) && q(r), (r: GridRow) => col(r) && !key(r));
      SumWhereAgree(rows, (r: GridRow) => col(r) && key(r), key);
    } else {
      SumWhereAgree(rows, (r: GridRow) => col(r) && q(r), col);
    }
  }

  /** A long press keeps exactly the rows of other keys, in their order. */
  lemma {:induction false} RemoveKeyRows(rows: seq<GridRow>, subject: string, grade: int)
    ensures IsSubsequence(RemoveKey(rows, subject, grade), rows)
    ensures forall r :: r in RemoveKey(rows, subject, grade) <==> r in rows && !(r.subject == subject && r.grade == grade)
  {
    FilterIsSubsequence(rows, (r: GridRow) => !(r.subject == subject && r.grade == grade));
  }

  lemma {:induction false} SumWhereNone(rows: seq<GridRow>)
    ensures SumWhere(rows, (r: GridRow) => false) == 0
  {
    if rows != [] {
      SumWhereNone(rows[..|rows| - 1]);
    }
  }

  /** A sum splits by a second test. */
  lemma {:induction false} SumWhereSplit(rows: seq<GridRow>, p: GridRow -> bool, k: GridRow -> bool)
    ensures SumWhere(rows, p)
         == SumWhere(rows, (r: GridRow) => p(r) && !k(r)) + SumWhere(rows, (r: GridRow) => p(r) && k(r))
  {
    if rows != [] {
      SumWhereSplit(rows[..|rows| - 1], p, k);
    }
  }

  /** The grid's state: the rows and the selected subject (`null` or a
      name). */
  class HoursGrid {
    var rows: seq<GridRow>
    var selected: Option<string>

    constructor (initial: seq<GridRow>)
      ensures rows == initial && selected == None
    {
      rows := initial;
      selected := None;
    }

    /** Choosing a subject in the palette. */
    method Select(subject: Option<string>)
      modifies this
      ensures selected == subject && rows == old(rows)
    {
      selected := subject;
    }

    /** One more hour: the copied list gets the row's hours raised by one,
        or a new row at its end. */
    method AddHour(subject: string, grade: int)
      modifies this
      ensures rows == Bump(old(rows), subject, grade) && selected == old(selected)
    {
      var idx := FindRow(rows, subject, grade);
      if idx >= 0 {
        var next := rows;
        next := next[idx := next[idx].(hours := next[idx].hours + 1)];
        rows := next;
      } else {
        rows := rows + [GridRow(subject, grade, 1)];
      }
    }

    /** A click on a grade column: nothing without a selected subject (the
        empty name counts as none). */
    method Click(grade: int)
      modifies this
      ensures selected == old(selected)
      ensures (selected.None? || selected.value == "") ==> rows == old(rows)
      ensures (selected.Some? && selected.value != "") ==> rows == Bump(old(rows), selected.value, grade)
    {
      if selected.None? || selected.value == "" {
        return;
      }
      AddHour(selected.value, grade);
    }

    /** Dropping a chip on a grade column: the dragged text is the subject,
        whatever it is. */
    method Drop(dragged: string, grade: int)
      modifies this
      ensures rows == Bump(old(rows), dragged, grade) && selected == old(selected)
    {
      AddHour(dragged, grade);
    }

    /** A long press on a chip. */
    method LongPress(subject: string, grade: int)
      modifies this
      ensures rows == RemoveKey(old(rows), subject, grade) && selected == old(selected)
    {
      rows := Filter(rows, (r: GridRow) => !(r.subject == subject && r.grade == grade));
    }
  }

  /** `getCourseNameById`: the name of the first course with the id, else
      "Sin asignar". */
  function CourseNameById(courses: seq<Course>, id: int): (name: string)
    ensures (forall c :: c in courses ==> c.id != id) ==> name == "Sin asignar"
    ensures forall i :: 0 <= i < |courses| && courses[i].id == id && (forall j :: 0 <= j < i ==> courses[j].id != id)
              ==> name == courses[i].name
  {
    if courses == [] then "Sin asignar"
    else if courses[0].id == id then courses[0].name
    else CourseNameById(courses[1..], id)
  }

  /** `subjectColor`: the class of a known subject, indigo for the rest. */
  function SubjectColor(name: string): string
  {
    if name == "Matemáticas" then "bg-red-600"
    else if name == "Biología" then "bg-green-600"
    else if name == "Sociales" then "bg-amber-800"
    else if name == "Inglés" then "bg-purple-600"
    else if name == "Física" then "bg-rose-500"
    else if name == "Química" then "bg-violet-600"
    else if name == "Geometría" then "bg-sky-600"
    else if name == "Economía Política" then "bg-stone-700"
    else if name == "Lengua Castellana" then "bg-orange-600"
    else if name == "Comprensión Lectora" then "bg-orange-400"
    else if name == "Filosofía" then "bg-slate-700"
    else if name == "Historia" then "bg-amber-600"
    else if name == "Geografía" then "bg-amber-500"
    else if name == "Artística" then "bg-pink-500"
    else if name == "Informática" then "bg-slate-600"
    else if name == "Ética" then "bg-lime-600"
    else if name == "Religión" then "bg-yellow-600"
    else if name == "C. Ciudadanas" then "bg-teal-600"
    else if name == "Ed. Física" then "bg-red-700"
    else if name == "Pre Ciencias" then "bg-green-700"
    else "bg-indigo-600"
  }

  /** The twenty subjects with a colour of their own. */
  const ColoredSubjects: seq<string> := [
    "Matemáticas", "Biología", "Sociales", "Inglés", "Física", "Química", "Geometría",
    "Economía Política", "Lengua Castellana", "Comprensión Lectora", "Filosofía", "Historia",
    "Geografía", "Artística", "Informática", "Ética", "Religión", "C. Ciudadanas", "Ed. Física",
    "Pre Ciencias"]

  /** Indigo is the colour of exactly the subjects outside the list. */
  lemma {:induction false} SubjectColorDefault(name: string)
    ensures SubjectColor(name) == "bg-indigo-600" <==> name !in ColoredSubjects
  {
  }
}
