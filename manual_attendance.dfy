/** The manual attendance form: a list of absences typed in by hand (a
    student name, a subject, a number of hours), the fields of the entry
    being typed, and an error message. The id of a new entry (the clock
    reading `Date.now()` in the page) is a parameter. */
module ManualAttendance {
  import opened Wrappers
  import opened Seqs
  import opened Strings

  datatype Subject = Subject(id: int, name: string)

  datatype AbsenceEntry = AbsenceEntry(id: string, studentName: string, subjectId: int, subjectName: string, hoursCount: int)

  /** An element of the request body. */
  datatype ManualEntry = ManualEntry(studentName: string, subjectId: int, attendanceDate: string, hoursCount: int)

  const IncompleteMessage: string := "Por favor completa todos los campos"
  const EmptyListMessage: string := "Agrega al menos una ausencia antes de enviar"

  /** `subjects.find(s => s.id === id)`. */
  function FindSubject(subjects: seq<Subject>, id: int): (r: Option<Subject>)
    ensures r.Some? ==> r.value in subjects && r.value.id == id
    ensures r.None? ==> forall s :: s in subjects ==> s.id != id
  {
    if subjects == [] then None
    else if subjects[0].id == id then Some(subjects[0])
    else FindSubject(subjects[1..], id)
  }

  /** The hours field: `parseInt(text) || 1`. */
  function HoursInput(text: string): (h: int)
    ensures h != 0
    ensures ParseInt(text).None? || ParseInt(text) == Some(0) ==> h == 1
    ensures ParseInt(text).Some? && ParseInt(text).value != 0 ==> h == ParseInt(text).value
  {
    var v := ParseInt(text);
    if v.None? || v.value == 0 then 1 else v.value
  }

  /** Typing the decimal text of a number other than 0 sets that number. */
  lemma {:induction false} HoursInputOfNumber(n: int)
    requires n != 0
    ensures HoursInput(IntToString(n)) == n
  {
    ParseIntOfIntToString(n);
  }

  /** The body of the submission: an empty list is refused; otherwise one
      entry per listed absence, in order, each stamped with the date. */
  function SubmitPayload(entries: seq<AbsenceEntry>, date: string): (r: Result<seq<ManualEntry>, string>)
    ensures entries == [] <==> r == Err(EmptyListMessage)
    ensures r.Ok? ==> |r.value| == |entries|
    ensures r.Ok? ==> forall i :: 0 <= i < |entries| ==>
      r.value[i] == ManualEntry(entries[i].studentName, entries[i].subjectId, date, entries[i].hoursCount)
  {
    if entries == [] then Err(EmptyListMessage)
    else Ok(Map(entries, (e: AbsenceEntry) => ManualEntry(e.studentName, e.subjectId, date, e.hoursCount)))
  }

  /** The rows left after removing an entry: every entry with another id,
      in order. */
  lemma {:induction false} RemoveKeepsOthers(entries: seq<AbsenceEntry>, id: string)
    ensures forall e :: e in Filter(entries, (x: AbsenceEntry) => x.id != id) <==> e in entries && e.id != id
    ensures IsSubsequence(Filter(entries, (x: AbsenceEntry) => x.id != id), entries)
  {
    FilterIsSubsequence(entries, (x: AbsenceEntry) => x.id != id);
  }

  class ManualForm {
    const subjects: seq<Subject>
    var entries: seq<AbsenceEntry>
    var studentName: string
    var subjectId: Option<int>
    var hoursCount: int
    var error: Option<string>

    constructor (loaded: seq<Subject>)
      ensures subjects == loaded && entries == [] && studentName == "" && subjectId == None
      ensures hoursCount == 1 && error == None
    {
      subjects := loaded;
      entries := [];
      studentName := "";
      subjectId := None;
      hoursCount := 1;
      error := None;
    }

    /** The form cannot add an entry: no name once trimmed, no subject (or
        the id 0), or fewer than one hour. */
    predicate Incomplete()
      reads this
    {
      Trim(studentName) == "" || subjectId.None? || subjectId.value == 0 || hoursCount < 1
    }

    method SetHours(text: string)
      modifies this
      ensures hoursCount == HoursInput(text)
      ensures entries == old(entries) && studentName == old(studentName) && subjectId == old(subjectId)
      ensures error == old(error)
    {
      hoursCount := HoursInput(text);
    }

    /** `addAbsenceEntry`. */
    method AddEntry(newId: string)
      modifies this
      ensures old(Incomplete()) ==>
        error == Some(IncompleteMessage) && entries == old(entries) && studentName == old(studentName)
        && subjectId == old(subjectId) && hoursCount == old(hoursCount)
      ensures !old(Incomplete()) && FindSubject(subjects, old(subjectId).value).None? ==>
        error == old(error) && entries == old(entries) && studentName == old(studentName)
        && subjectId == old(subjectId) && hoursCount == old(hoursCount)
      ensures !old(Incomplete()) && FindSubject(subjects, old(subjectId).value).Some? ==>
        entries == old(entries) + [AbsenceEntry(newId, Trim(old(studentName)), old(subjectId).value,
                                                FindSubject(subjects, old(subjectId).value).value.name, old(hoursCount))]
        && studentName == "" && subjectId == None && hoursCount == 1 && error == None
    {
      if Trim(studentName) == "" || subjectId.None? || subjectId.value == 0 || hoursCount < 1 {
        error := Some(IncompleteMessage);
        return;
      }
      var subject := FindSubject(subjects, subjectId.value);
      if subject.None? {
        return;
      }
      var entry := AbsenceEntry(newId, Trim(studentName), subjectId.value, subject.value.name, hoursCount);
      entries := entries + [entry];
      studentName := "";
      subjectId := None;
      hoursCount := 1;
      error := None;
    }

    /** `removeEntry`. */
    method RemoveEntry(id: string)
      modifies this
      ensures entries == Filter(old(entries), (x: AbsenceEntry) => x.id != id)
      ensures studentName == old(studentName) && subjectId == old(subjectId)
      ensures hoursCount == old(hoursCount) && error == old(error)
    {
      entries := Filter(entries, (x: AbsenceEntry) => x.id != id);
    }

    /** `handleSubmit` up to the request: the body to send, or the error
        shown for an empty list. */
    method Submit(date: string) returns (body: Option<seq<ManualEntry>>)
      modifies this
      ensures entries == old(entries) && studentName == old(studentName) && subjectId == old(subjectId)
      ensures hoursCount == old(hoursCount)
      ensures SubmitPayload(entries, date).Err? ==> body == None && error == Some(EmptyListMessage)
      ensures SubmitPayload(entries, date).Ok? ==> body == Some(SubmitPayload(entries, date).value) && error == None
    {
      var payload := SubmitPayload(entries, date);
      if payload.Err? {
        error := Some(payload.error);
        body := None;
      } else {
        error := None;
        body := Some(payload.value);
      }
    }
  }
}
