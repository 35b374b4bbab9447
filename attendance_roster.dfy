/** The attendance page of a class: the roster with an absent flag per
    student, cleared on load and flipped by a tap; the absent ids sent with
    the submission; the counters and the colour of the progress bar. */
module AttendanceRoster {
  import opened Seqs

  datatype StudentInfo = StudentInfo(id: int, name: string)
  datatype RosterStudent = RosterStudent(id: int, name: string, isAbsent: bool)

  /** `data.map(s => ({...s, is_absent: false}))`. */
  function Loaded(data: seq<StudentInfo>): (r: seq<RosterStudent>)
    ensures |r| == |data|
    ensures forall i :: 0 <= i < |data| ==> r[i] == RosterStudent(data[i].id, data[i].name, false)
  {
    Map(data, (s: StudentInfo) => RosterStudent(s.id, s.name, false))
  }

  function Flip(s: RosterStudent, id: int): RosterStudent
  {
    if s.id == id then s.(isAbsent := !s.isAbsent) else s
  }

  /** `prev.map(s => s.id === id ? {...s, is_absent: !s.is_absent} : s)`. */
  function Toggled(roster: seq<RosterStudent>, id: int): seq<RosterStudent>
  {
    Map(roster, (s: RosterStudent) => Flip(s, id))
  }

  /** A tap flips the flag of the students with that id and changes nothing
      else. */
  lemma {:induction false} ToggledAt(roster: seq<RosterStudent>, id: int)
    ensures |Toggled(roster, id)| == |roster|
    ensures forall i :: 0 <= i < |roster| ==>
      Toggled(roster, id)[i].id == roster[i].id && Toggled(roster, id)[i].name == roster[i].name
      && (Toggled(roster, id)[i].isAbsent <==> (roster[i].isAbsent != (roster[i].id == id)))
  {
  }

  /** Two taps on the same student give the roster back. */
  lemma {:induction false} ToggleTwice(roster: seq<RosterStudent>, id: int)
    ensures Toggled(Toggled(roster, id), id) == roster
  {
    var t := Toggled(Toggled(roster, id), id);
    assert |t| == |roster|;
    forall i | 0 <= i < |roster| ensures t[i] == roster[i] {
      assert Toggled(roster, id)[i] == Flip(roster[i], id);
    }
  }

  /** Taps on different students commute. */
  lemma {:induction false} TogglesCommute(roster: seq<RosterStudent>, a: int, b: int)
    ensures Toggled(Toggled(roster, a), b) == Toggled(Toggled(roster, b), a)
  {
    var x := Toggled(Toggled(roster, a), b);
    var y := Toggled(Toggled(roster, b), a);
    forall i | 0 <= i < |roster| ensures x[i] == y[i] {
      assert Toggled(roster, a)[i] == Flip(roster[i], a);
      assert Toggled(roster, b)[i] == Flip(roster[i], b);
    }
  }

  /** `students.filter(s => s.is_absent).map(s => s.id)`. */
  function AbsentIds(roster: seq<RosterStudent>): (ids: seq<int>)
    ensures forall x :: x in ids <==> exists s :: s in roster && s.isAbsent && s.id == x
  {
    var absent := Filter(roster, (s: RosterStudent) => s.isAbsent);
    var ids := Map(absent, (s: RosterStudent) => s.id);
    assert forall s :: s in absent ==> s.id in ids by {
      forall s | s in absent ensures s.id in ids {
        var k :| 0 <= k < |absent| && absent[k] == s;
        assert ids[k] == s.id;
      }
    }
    assert forall x :: x in ids ==> exists s :: s in roster && s.isAbsent && s.id == x by {
      forall x | x in ids ensures exists s :: s in roster && s.isAbsent && s.id == x {
        var k :| 0 <= k < |ids| && ids[k] == x;
        assert absent[k] in absent;
      }
    }
    ids
  }

  /** Right after loading nobody is absent and no id would be sent. */
  lemma {:induction false} LoadedClear(data: seq<StudentInfo>)
    ensures AbsentIds(Loaded(data)) == []
  {
    var r := Loaded(data);
    FilterNone(r, (s: RosterStudent) => s.isAbsent);
  }

  function PresentCount(roster: seq<RosterStudent>): nat
  {
    |Filter(roster, (s: RosterStudent) => !s.isAbsent)|
  }

  function AbsentCount(roster: seq<RosterStudent>): nat
  {
    |Filter(roster, (s: RosterStudent) => s.isAbsent)|
  }

  /** Present and absent students add up to the roster. */
  lemma {:induction false} CountsAddUp(roster: seq<RosterStudent>)
    ensures PresentCount(roster) + AbsentCount(roster) == |roster|
    ensures |AbsentIds(roster)| == AbsentCount(roster)
  {
    FilterPartition(roster, (s: RosterStudent) => !s.isAbsent, (s: RosterStudent) => s.isAbsent);
  }

  /** The attendance percentage, exactly; 0 for an empty roster. */
  function Percentage(roster: seq<RosterStudent>): (p: real)
  {
    if |roster| > 0 then (PresentCount(roster) as real / |roster| as real) * 100.0 else 0.0
  }

  datatype Band = Green | Yellow | Red

  /** The colour of the progress bar. */
  function BarBand(p: real): Band
  {
    if p >= 80.0 then Green else if p >= 50.0 then Yellow else Red
  }

  /** In whole numbers: green when at least four in five are present,
      yellow when at least half are, red otherwise and for an empty
      roster. */
  lemma {:induction false} BarBandCounts(roster: seq<RosterStudent>)
    ensures var present, total := PresentCount(roster), |roster|;
      (BarBand(Percentage(roster)) == Green <==> total > 0 && 5 * present >= 4 * total)
      && (BarBand(Percentage(roster)) == Yellow <==> total > 0 && 5 * present < 4 * total && 2 * present >= total)
      && (total == 0 ==> BarBand(Percentage(roster)) == Red)
  {
    var present, total := PresentCount(roster), |roster|;
    if total > 0 {
      ScaledAtLeast(present, total, 80);
      ScaledAtLeast(present, total, 50);
    }
  }

  /** `present / total * 100 >= c` in whole numbers. */
  lemma {:induction false} ScaledAtLeast(present: nat, total: nat, c: nat)
    requires total > 0
    ensures (present as real / total as real) * 100.0 >= c as real <==> 100 * present >= c * total
  {
    var t := total as real;
    var q := present as real / t;
    assert q * t == present as real;
    if q * 100.0 >= c as real {
      assert (q * 100.0) * t >= (c as real) * t;
    } else {
      assert (q * 100.0) * t < (c as real) * t;
    }
  }

  /** The page's roster. */
  class Roster {
    var students: seq<RosterStudent>

    constructor ()
      ensures students == []
    {
      students := [];
    }

    method Load(data: seq<StudentInfo>)
      modifies this
      ensures students == Loaded(data)
    {
      students := Loaded(data);
    }

    method ToggleAbsent(id: int)
      modifies this
      ensures students == Toggled(old(students), id)
    {
      students := Map(students, (s: RosterStudent) => Flip(s, id));
    }
  }
}
