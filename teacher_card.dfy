/** The teacher card: the teacher's weekly hours (the hours of every
    subject of the academic load, grade by grade), the badge that turns red
    above 22 hours, the tutor badge and the rows of the load's PDF export.
    The academic load is a dictionary from grade to subject names; the hours
    dictionary gives each subject's weekly hours. The roles list is
    `Roles.CardRoles` and the grade order `GradeOrder.GradeCompare`. */
module TeacherCard {
  import opened Wrappers
  import opened Records

  /** `cargaAcademica`: grade to the subjects taught there. */
  type Load = seq<(string, seq<string>)>

  /** `hoursMap`: subject to weekly hours. */
  type HoursMap = seq<(string, int)>

  /** One row of the PDF table: grade, subject, hours. */
  datatype PdfRow = PdfRow(grade: string, subject: string, hours: int)

  /** `carga || {}`: an undefined load reads as the empty one. */
  function LoadOrEmpty(carga: Option<Load>): Load
  {
    if carga.Some? then carga.value else []
  }

  /** `hoursMap[m] || 0`: a subject without hours counts 0. */
  function HoursOf(hm: HoursMap, m: string): int
  {
    GetOr(hm, m, 0)
  }

  /** The hours of a list of subjects, one term per entry. */
  function ListHours(ms: seq<string>, hm: HoursMap): int
  {
    if ms == [] then 0 else ListHours(ms[..|ms| - 1], hm) + HoursOf(hm, ms[|ms| - 1])
  }

  /** The hours of a whole load: the sum over its grades. */
  function LoadHours(c: Load, hm: HoursMap): int
  {
    if c == [] then 0 else LoadHours(c[..|c| - 1], hm) + ListHours(c[|c| - 1].1, hm)
  }

  /** `computeHours`: `h` accumulates the hours of every subject of every
      grade, in the order of `Object.values`. */
  method ComputeHours(carga: Option<Load>, hm: HoursMap) returns (h: int)
    ensures h == LoadHours(LoadOrEmpty(carga), hm)
  {
    var c := LoadOrEmpty(carga);
    h := 0;
    for i := 0 to |c|
      invariant h == LoadHours(c[..i], hm)
    {
      var arr := c[i].1;
      for j := 0 to |arr|
        invariant h == LoadHours(c[..i], hm) + ListHours(arr[..j], hm)
      {
        assert arr[..j + 1][..j] == arr[..j];
        h := h + HoursOf(hm, arr[j]);
      }
      assert c[..i + 1][..i] == c[..i];
      assert arr[..|arr|] == arr;
    }
    assert c[..|c|] == c;
  }

  /** An undefined or empty load, or one whose grades list no subject, is
      worth no hours. */
  lemma {:induction false} EmptyLoadHours(c: Load, hm: HoursMap)
    requires forall i :: 0 <= i < |c| ==> c[i].1 == []
    ensures LoadHours(c, hm) == 0
  {
    if c != [] {
      EmptyLoadHours(c[..|c| - 1], hm);
    }
  }

  lemma {:induction false} ListHoursAppend(a: seq<string>, b: seq<string>, hm: HoursMap)
    ensures ListHours(a + b, hm) == ListHours(a, hm) + ListHours(b, hm)
  {
    if b != [] {
      assert (a + b)[..|a + b| - 1] == a + b[..|b| - 1];
      ListHoursAppend(a, b[..|b| - 1], hm);
    } else {
      assert a + b == a;
    }
  }

  /** The load's hours split over any split of its grades. */
  lemma {:induction false} LoadHoursAppend(a: Load, b: Load, hm: HoursMap)
    ensures LoadHours(a + b, hm) == LoadHours(a, hm) + LoadHours(b, hm)
  {
    if b != [] {
      assert (a + b)[..|a + b| - 1] == a + b[..|b| - 1];
      LoadHoursAppend(a, b[..|b| - 1], hm);
    } else {
      assert a + b == a;
    }
  }

  /** Adding a subject to a grade's list adds its hours once more, whether
      or not that grade, or another, already lists it: nothing is
      de-duplicated. */
  lemma {:induction false} AddSubjectCountsAgain(c: Load, i: nat, m: string, hm: HoursMap)
    requires i < |c|
    ensures LoadHours(c[i := (c[i].0, c[i].1 + [m])], hm) == LoadHours(c, hm) + HoursOf(hm, m)
  {
    var c' := c[i := (c[i].0, c[i].1 + [m])];
    assert c == c[..i] + [c[i]] + c[i + 1..];
    assert c' == c[..i] + [c'[i]] + c[i + 1..];
    LoadHoursAppend(c[..i] + [c[i]], c[i + 1..], hm);
    LoadHoursAppend(c[..i] + [c'[i]], c[i + 1..], hm);
    assert (c[..i] + [c[i]])[..i] == c[..i];
    assert (c[..i] + [c'[i]])[..i] == c[..i];
    ListHoursAppend(c[i].1, [m], hm);
    assert ListHours([m], hm) == HoursOf(hm, m) by { assert [m][..0] == []; }
  }

  /** With no negative hours in the dictionary the total is never
      negative. */
  lemma {:induction false} LoadHoursNonNegative(c: Load, hm: HoursMap)
    requires forall p :: p in hm ==> p.1 >= 0
    ensures LoadHours(c, hm) >= 0
  {
    if c != [] {
      LoadHoursNonNegative(c[..|c| - 1], hm);
      ListHoursNonNegative(c[|c| - 1].1, hm);
    }
  }

  lemma {:induction false} ListHoursNonNegative(ms: seq<string>, hm: HoursMap)
    requires forall p :: p in hm ==> p.1 >= 0
    ensures ListHours(ms, hm) >= 0
  {
    if ms != [] {
      ListHoursNonNegative(ms[..|ms| - 1], hm);
      var m := ms[|ms| - 1];
      if Get(hm, m).Some? { GetFound(hm, m); }
    }
  }

  /** The class of the hours badge. */
  function HoursBadgeClass(total: int): (cls: string)
    ensures cls == "bg-red-600 text-white" <==> total > 22
    ensures cls == "bg-indigo-600 text-white" <==> total <= 22
  {
    if total > 22 then "bg-red-600 text-white" else "bg-indigo-600 text-white"
  }

  /** The tutor badge: shown for a tutored course other than "NO". */
  function TutorBadge(tutorDe: Option<string>): (b: Option<string>)
    ensures b.Some? <==> tutorDe.Some? && tutorDe.value != "" && tutorDe.value != "NO"
    ensures b.Some? ==> b.value == "Tutor " + tutorDe.value
  {
    if tutorDe.Some? && tutorDe.value != "" && tutorDe.value != "NO" then Some("Tutor " + tutorDe.value) else None
  }

  /** The PDF rows of one grade, one per subject in its order. */
  function GradeRows(grade: string, ms: seq<string>, hm: HoursMap): seq<PdfRow>
  {
    if ms == [] then [] else GradeRows(grade, ms[..|ms| - 1], hm) + [PdfRow(grade, ms[|ms| - 1], HoursOf(hm, ms[|ms| - 1]))]
  }

  /** The PDF rows of a load, grade after grade. */
  function BodyRows(c: Load, hm: HoursMap): seq<PdfRow>
  {
    if c == [] then [] else BodyRows(c[..|c| - 1], hm) + GradeRows(c[|c| - 1].0, c[|c| - 1].1, hm)
  }

  /** The export's `body`: a row pushed for each subject of each grade. */
  method PdfBody(carga: Option<Load>, hm: HoursMap) returns (body: seq<PdfRow>)
    ensures body == BodyRows(LoadOrEmpty(carga), hm)
  {
    var c := LoadOrEmpty(carga);
    body := [];
    for i := 0 to |c|
      invariant body == BodyRows(c[..i], hm)
    {
      var grado := c[i].0;
      var materias := c[i].1;
      for j := 0 to |materias|
        invariant body == BodyRows(c[..i], hm) + GradeRows(grado, materias[..j], hm)
      {
        assert materias[..j + 1][..j] == materias[..j];
        body := body + [PdfRow(grado, materias[j], HoursOf(hm, materias[j]))];
      }
      assert c[..i + 1][..i] == c[..i];
      assert materias[..|materias|] == materias;
    }
    assert c[..|c|] == c;
  }

  /** The hours column of a table. */
  function RowsHours(rows: seq<PdfRow>): int
  {
    if rows == [] then 0 else RowsHours(rows[..|rows| - 1]) + rows[|rows| - 1].hours
  }

  lemma {:induction false} RowsHoursAppend(a: seq<PdfRow>, b: seq<PdfRow>)
    ensures RowsHours(a + b) == RowsHours(a) + RowsHours(b)
  {
    if b != [] {
      assert (a + b)[..|a + b| - 1] == a + b[..|b| - 1];
      RowsHoursAppend(a, b[..|b| - 1]);
    } else {
      assert a + b == a;
    }
  }

  lemma {:induction false} GradeRowsFacts(grade: string, ms: seq<string>, hm: HoursMap)
    ensures |GradeRows(grade, ms, hm)| == |ms|
    ensures forall k :: 0 <= k < |ms| ==> GradeRows(grade, ms, hm)[k] == PdfRow(grade, ms[k], HoursOf(hm, ms[k]))
    ensures RowsHours(GradeRows(grade, ms, hm)) == ListHours(ms, hm)
  {
    if ms != [] {
      var init := ms[..|ms| - 1];
      GradeRowsFacts(grade, init, hm);
      RowsHoursAppend(GradeRows(grade, init, hm), [PdfRow(grade, ms[|ms| - 1], HoursOf(hm, ms[|ms| - 1]))]);
      assert [PdfRow(grade, ms[|ms| - 1], HoursOf(hm, ms[|ms| - 1]))][..0] == [];
    }
  }

  /** The number of (grade, subject) pairs of a load. */
  function PairCount(c: Load): nat
  {
    if c == [] then 0 else PairCount(c[..|c| - 1]) + |c[|c| - 1].1|
  }

  /** The table has one row per (grade, subject) pair, and its hours column
      adds up to the hours on the badge. */
  lemma {:induction false} BodyMatchesBadge(c: Load, hm: HoursMap)
    ensures |BodyRows(c, hm)| == PairCount(c)
    ensures RowsHours(BodyRows(c, hm)) == LoadHours(c, hm)
  {
    if c != [] {
      var init := c[..|c| - 1];
      var last := c[|c| - 1];
      BodyMatchesBadge(init, hm);
      GradeRowsFacts(last.0, last.1, hm);
      RowsHoursAppend(BodyRows(init, hm), GradeRows(last.0, last.1, hm));
    }
  }

  /** A row of the table is a grade of the load, a subject listed under it
      and that subject's hours (0 when it has none); each such pair gives a
      row. */
  lemma {:induction false} BodyRowsMembers(c: Load, hm: HoursMap, r: PdfRow)
    ensures r in BodyRows(c, hm) <==>
      r.hours == HoursOf(hm, r.subject) && exists i :: 0 <= i < |c| && c[i].0 == r.grade && r.subject in c[i].1
  {
    if c != [] {
      var init := c[..|c| - 1];
      var last := c[|c| - 1];
      BodyRowsMembers(init, hm, r);
      GradeRowsFacts(last.0, last.1, hm);
      var rows := GradeRows(last.0, last.1, hm);
      assert r in rows <==> r.hours == HoursOf(hm, r.subject) && r.grade == last.0 && r.subject in last.1 by {
        if r in rows {
          var k :| 0 <= k < |rows| && rows[k] == r;
          assert r == PdfRow(last.0, last.1[k], HoursOf(hm, last.1[k]));
        }
        if r.hours == HoursOf(hm, r.subject) && r.grade == last.0 && r.subject in last.1 {
          var k :| 0 <= k < |last.1| && last.1[k] == r.subject;
          assert rows[k] == r;
        }
      }
      if exists i :: 0 <= i < |c| && c[i].0 == r.grade && r.subject in c[i].1 {
        var i :| 0 <= i < |c| && c[i].0 == r.grade && r.subject in c[i].1;
        if i < |c| - 1 { assert init[i] == c[i]; }
      }
      assert forall i :: 0 <= i < |init| ==> init[i] == c[i];
    }
  }
}
