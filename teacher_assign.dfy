/** The bulk assignment dialog: the administrator picks a subject and ticks
    grades; saving adds the subject to each ticked grade of a copy of the
    teacher's academic load, without duplicates, and hands the copy back.
    The fixed grade list is sorted in place when the dialog first renders. */
module TeacherAssign {
  import opened Wrappers
  import opened Seqs
  import opened Records
  import opened Sorting
  import opened GradeOrder

  /** `cargaAcademica`: grade to the subjects taught there. */
  type Load = seq<(string, seq<string>)>

  /** `selected`: grade to its tick. */
  type Ticks = seq<(string, bool)>

  /** `toggleGrade(g)`: `{ ...prev, [g]: !prev[g] }`, an unticked grade
      (absent or false) becoming ticked. */
  function Toggled(prev: Ticks, g: string): (next: Ticks)
    ensures GetOr(next, g, false) == !GetOr(prev, g, false)
    ensures forall k :: k != g ==> Get(next, k) == Get(prev, k)
    ensures Keys(next) == if g in Keys(prev) then Keys(prev) else Keys(prev) + [g]
  {
    Set(prev, g, !GetOr(prev, g, false))
  }

  /** Toggling a grade twice leaves every tick as it was. */
  lemma {:induction false} ToggleTwice(prev: Ticks, g: string, k: string)
    ensures GetOr(Toggled(Toggled(prev, g), g), k, false) == GetOr(prev, k, false)
  {
  }

  /** Ticks built by toggling keep one entry per grade. */
  lemma {:induction false} ToggledValid(prev: Ticks, g: string)
    requires Valid(prev)
    ensures Valid(Toggled(prev, g))
  {
    SetValid(prev, g, !GetOr(prev, g, false));
  }

  /** The new list of a ticked grade: `Array.from(new Set([...old, materia]))`. */
  function WithSubject(list: seq<string>, materia: string): seq<string>
  {
    Dedupe(list + [materia])
  }

  /** One grade of the `forEach`: a ticked grade gets the subject, an
      unticked one is skipped. */
  function SaveStep(carga: Load, tick: (string, bool), materia: string): Load
  {
    if !tick.1 then carga
    else Set(carga, tick.0, WithSubject(GetOr(carga, tick.0, []), materia))
  }

  /** The load `save` hands back: the steps over the ticks in key order,
      starting from a shallow copy of the teacher's load. */
  function Merged(carga: Load, ticks: Ticks, materia: string): Load
  {
    if ticks == [] then carga
    else SaveStep(Merged(carga, ticks[..|ticks| - 1], materia), ticks[|ticks| - 1], materia)
  }

  /** `save`: copy the load (`teacher.cargaAcademica || {}`), then update
      the copy grade by grade. The teacher's own load is a value and is
      left as it was. */
  method Save(teacherLoad: Option<Load>, ticks: Ticks, materia: string) returns (carga: Load)
    ensures carga == Merged(if teacherLoad.Some? then teacherLoad.value else [], ticks, materia)
  {
    var start := if teacherLoad.Some? then teacherLoad.value else [];
    carga := start;
    for i := 0 to |ticks|
      invariant carga == Merged(start, ticks[..i], materia)
    {
      assert ticks[..i + 1][..i] == ticks[..i];
      var g := ticks[i].0;
      if ticks[i].1 {
        var arr := WithSubject(GetOr(carga, g, []), materia);
        carga := Set(carga, g, arr);
      }
    }
    assert ticks[..|ticks|] == ticks;
  }

  /** One step changes at most the ticked grade's list. */
  lemma {:induction false} SaveStepGet(carga: Load, tick: (string, bool), materia: string, g: string)
    ensures Get(SaveStep(carga, tick, materia), g)
         == if tick.1 && tick.0 == g then Some(WithSubject(GetOr(carga, g, []), materia)) else Get(carga, g)
  {
  }

  /** After saving, a ticked grade holds `WithSubject` of its old list;
      any other grade keeps its list, or stays absent. */
  lemma {:induction false} MergedGet(carga: Load, ticks: Ticks, materia: string, g: string)
    requires Valid(ticks)
    ensures Get(Merged(carga, ticks, materia), g)
         == if GetOr(ticks, g, false) then Some(WithSubject(GetOr(carga, g, []), materia)) else Get(carga, g)
  {
    if ticks != [] {
      var init := ticks[..|ticks| - 1];
      var last := ticks[|ticks| - 1];
      ValidInit(ticks);
      MergedGet(carga, init, materia, g);
      SaveStepGet(Merged(carga, init, materia), last, materia, g);
      if last.0 == g {
        GetAt(ticks, |ticks| - 1);
      } else {
        GetInit(ticks, g);
      }
    }
  }

  /** The new list of a ticked grade is its old list de-duplicated in
      first-occurrence order, followed by the chosen subject if it was not
      among them. */
  lemma {:induction false} WithSubjectShape(list: seq<string>, materia: string)
    ensures WithSubject(list, materia) == Dedupe(list) + (if materia in list then [] else [materia])
  {
    DedupeAppend(list, materia);
  }

  /** Adding the subject again changes nothing: it is never listed twice. */
  lemma {:induction false} WithSubjectIdempotent(list: seq<string>, materia: string)
    ensures WithSubject(WithSubject(list, materia), materia) == WithSubject(list, materia)
  {
    var once := WithSubject(list, materia);
    assert materia in once;
    DedupeAppend(once, materia);
    DedupeOfNoDups(once);
  }

  /** Saving twice with the same ticks and subject gives the same lists as
      saving once. */
  lemma {:induction false} MergedIdempotent(carga: Load, ticks: Ticks, materia: string, g: string)
    requires Valid(ticks)
    ensures Get(Merged(Merged(carga, ticks, materia), ticks, materia), g) == Get(Merged(carga, ticks, materia), g)
  {
    var once := Merged(carga, ticks, materia);
    MergedGet(carga, ticks, materia, g);
    MergedGet(once, ticks, materia, g);
    if GetOr(ticks, g, false) {
      WithSubjectIdempotent(GetOr(carga, g, []), materia);
    }
  }

  /** `GRADES.sort(...)`: the module's grade array, sorted where it lies;
      the memo holds the same array. */
  method SortGrades(grades: array<string>) returns (sorted: array<string>)
    modifies grades
    ensures sorted == grades
    ensures grades[..] == SortBy(old(grades[..]), GradeLe())
  {
    var s := SortBy(grades[..], GradeLe());
    forall i | 0 <= i < grades.Length {
      grades[i] := s[i];
    }
    sorted := grades;
  }
}
