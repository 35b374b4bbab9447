/** The student import of the worker (`POST /api/admin/students/import`):
    a CSV upload is split into lines, the header is checked for the required
    columns, and every data line is split, mapped onto the header, validated,
    matched or created against the course table and inserted as a student.
    Database reads are input sequences; the outcome of each database write is
    a parameter indexed by the line. */
module CsvImport {
  import opened Wrappers
  import opened Seqs
  import opened Strings
  import opened Records

  // ---------------------------------------------------------------------
  // Splitting one line into fields
  // ---------------------------------------------------------------------

  /** State of the character loop of the splitter after a prefix of the line:
      the fields closed so far (untrimmed), the field being read, and whether
      the loop is between an opening and a closing double quote. */
  datatype ScanState = ScanState(fields: seq<string>, current: string, inQuotes: bool)

  /** One step of the character loop: a double quote flips the quote flag and
      is dropped, a comma outside quotes closes the current field, any other
      character is appended to the current field. A doubled quote is two flips
      and so reads as nothing. */
  function Step(st: ScanState, c: char): ScanState
  {
    if c == '"' then st.(inQuotes := !st.inQuotes)
    else if c == ',' && !st.inQuotes then ScanState(st.fields + [st.current], "", st.inQuotes)
    else st.(current := st.current + [c])
  }

  /** The loop state after reading all of `s`. */
  function Scan(s: string): ScanState
  {
    if s == [] then ScanState([], "", false) else Step(Scan(s[..|s| - 1]), s[|s| - 1])
  }

  /** The fields before trimming: the closed ones and the last one. */
  function RawFields(s: string): seq<string>
  {
    Scan(s).fields + [Scan(s).current]
  }

  /** The values the splitter produces for a line. */
  function CsvFields(line: string): seq<string>
  {
    Map(RawFields(line), Trim)
  }

  /** The splitter's character loop. */
  method SplitCsvLine(line: string) returns (values: seq<string>)
    ensures values == CsvFields(line)
  {
    values := [];
    var currentValue := "";
    var inQuotes := false;
    var j := 0;
    while j < |line|
      invariant 0 <= j <= |line|
      invariant Scan(line[..j]).current == currentValue
      invariant Scan(line[..j]).inQuotes == inQuotes
      invariant values == Map(Scan(line[..j]).fields, Trim)
    {
      ghost var st := Scan(line[..j]);
      var c := line[j];
      assert Scan(line[..j + 1]) == Step(st, c) by {
        assert line[..j + 1][..j] == line[..j];
      }
      if c == '"' {
        inQuotes := !inQuotes;
      } else if c == ',' && !inQuotes {
        MapSnoc(st.fields, currentValue, Trim);
        values := values + [Trim(currentValue)];
        currentValue := "";
      } else {
        currentValue := currentValue + [c];
      }
      j := j + 1;
    }
    assert line[..j] == line;
    MapSnoc(Scan(line).fields, currentValue, Trim);
    values := values + [Trim(currentValue)];
  }

  /** The line with its double quotes removed. */
  function StripQuotes(s: string): (r: string)
    ensures '"' !in r
  {
    if s == [] then [] else StripQuotes(s[..|s| - 1]) + (if s[|s| - 1] == '"' then [] else [s[|s| - 1]])
  }

  /** Number of commas that the splitter reads outside quotes: those preceded
      by an even number of double quotes. */
  function UnquotedCommas(s: string): nat
  {
    if s == [] then 0
    else
      var init := s[..|s| - 1];
      UnquotedCommas(init) + (if s[|s| - 1] == ',' && Count(init, '"') % 2 == 0 then 1 else 0)
  }

  /** The quote flag tells whether an odd number of quotes has been read, and
      each comma read outside quotes closed exactly one field. */
  lemma {:induction false} ScanCounts(s: string)
    ensures Scan(s).inQuotes <==> Count(s, '"') % 2 == 1
    ensures |Scan(s).fields| == UnquotedCommas(s)
  {
    if s != [] { ScanCounts(s[..|s| - 1]); }
  }

  /** Nothing but double quotes is lost: the raw fields joined back with commas
      give the line without its quotes, so a comma inside quotes stays in the
      text of its field. */
  lemma {:induction false} ScanKeepsText(s: string)
    ensures Join(RawFields(s), ",") == StripQuotes(s)
  {
    if s != [] {
      var init := s[..|s| - 1];
      var c := s[|s| - 1];
      var st := Scan(init);
      ScanKeepsText(init);
      if c == '"' {
      } else if c == ',' && !st.inQuotes {
        JoinSnoc(st.fields + [st.current], "", ",");
        assert RawFields(s) == (st.fields + [st.current]) + [""];
      } else {
        JoinExtendLast(st.fields, st.current, [c], ",");
      }
    }
  }

  /** No raw field holds a double quote. */
  lemma {:induction false} ScanDropsQuotes(s: string)
    ensures forall i :: 0 <= i < |RawFields(s)| ==> '"' !in RawFields(s)[i]
  {
    if s != [] {
      var init := s[..|s| - 1];
      var c := s[|s| - 1];
      var st := Scan(init);
      ScanDropsQuotes(init);
      assert forall i :: 0 <= i < |st.fields| ==> '"' !in st.fields[i] by {
        assert forall i :: 0 <= i < |st.fields| ==> st.fields[i] == RawFields(init)[i];
      }
      assert '"' !in st.current by { assert st.current == RawFields(init)[|st.fields|]; }
      if c == '"' {
      } else if c == ',' && !st.inQuotes {
      } else {
        assert '"' !in st.current + [c];
      }
    }
  }

  /** What the splitter promises: one more value than commas outside quotes,
      no value holds a double quote, and every value is already trimmed. */
  lemma {:induction false} CsvFieldsShape(line: string)
    ensures |CsvFields(line)| == UnquotedCommas(line) + 1
    ensures forall i :: 0 <= i < |CsvFields(line)| ==> '"' !in CsvFields(line)[i]
    ensures forall i :: 0 <= i < |CsvFields(line)| ==> Trim(CsvFields(line)[i]) == CsvFields(line)[i]
  {
    ScanCounts(line);
    ScanDropsQuotes(line);
    var raw := RawFields(line);
    var vs := CsvFields(line);
    forall i | 0 <= i < |vs| ensures '"' !in vs[i] && Trim(vs[i]) == vs[i] {
      assert vs[i] == Trim(raw[i]);
      TrimChars(raw[i]);
      TrimIdempotent(raw[i]);
    }
  }

  /** On a line without double quotes every comma separates two values. */
  lemma {:induction false} UnquotedCommasPlain(s: string)
    requires '"' !in s
    ensures UnquotedCommas(s) == Count(s, ',')
  {
    if s != [] {
      UnquotedCommasPlain(s[..|s| - 1]);
      CountZero(s[..|s| - 1], '"');
    }
  }

  // ---------------------------------------------------------------------
  // Lines, header and rows
  // ---------------------------------------------------------------------

  /** An error answer of the handler: status code and message. */
  datatype HttpError = HttpError(status: int, message: string)

  /** `text.split("\n").filter((line) => line.trim())`. */
  function NonBlankLines(text: string): (ls: seq<string>)
    ensures forall l :: l in ls ==> Trim(l) != []
  {
    Filter(Split(text, '\n'), (l: string) => Trim(l) != [])
  }

  function HeaderColumn(h: string): string
  {
    Lower(Trim(h))
  }

  /** Column names of the first line: split on every comma, trimmed, lower-cased. */
  function Header(line: string): seq<string>
  {
    Map(Split(line, ','), HeaderColumn)
  }

  const RequiredColumns: seq<string> := ["nombre", "curso"]

  /** The required columns the header lacks, in the order they are listed. */
  function MissingColumns(header: seq<string>): (m: seq<string>)
    ensures forall c :: c in m <==> c in RequiredColumns && c !in header
    ensures IsSubsequence(m, RequiredColumns)
  {
    FilterIsSubsequence(RequiredColumns, (c: string) => c !in header);
    Filter(RequiredColumns, (c: string) => c !in header)
  }

  const NoFileMessage := "No se proporcion\U{F3} un archivo v\U{E1}lido"
  const EmptyFileMessage := "El archivo est\U{E1} vac\U{ED}o o no tiene datos"
  const MissingColumnsPrefix := "Faltan columnas requeridas: "

  /** The checks made before any line is processed. On success, the non-blank
      lines and the header; an upload is rejected with 400 when there is no
      file, when it has fewer than two non-blank lines, or when its header
      lacks a required column, and then the message names exactly those. */
  function CheckUpload(file: Option<string>): (r: Result<(seq<string>, seq<string>), HttpError>)
    ensures file.None? ==> r == Err(HttpError(400, NoFileMessage))
    ensures file.Some? && |NonBlankLines(file.value)| < 2 ==> r == Err(HttpError(400, EmptyFileMessage))
    ensures r.Ok? <==> file.Some? && |NonBlankLines(file.value)| >= 2
                       && "nombre" in Header(NonBlankLines(file.value)[0])
                       && "curso" in Header(NonBlankLines(file.value)[0])
    ensures r.Ok? ==> r.value.0 == NonBlankLines(file.value) && r.value.1 == Header(r.value.0[0])
    ensures file.Some? && |NonBlankLines(file.value)| >= 2 && r.Err? ==>
              var missing := MissingColumns(Header(NonBlankLines(file.value)[0]));
              missing != [] && r.error == HttpError(400, MissingColumnsPrefix + Join(missing, ", "))
  {
    if file.None? then Err(HttpError(400, NoFileMessage))
    else
      var lines := NonBlankLines(file.value);
      if |lines| < 2 then Err(HttpError(400, EmptyFileMessage))
      else
        var header := Header(lines[0]);
        var missing := MissingColumns(header);
        assert missing == [] <==> "nombre" in header && "curso" in header by {
          if "nombre" !in header { assert "nombre" in missing; }
          if "curso" !in header { assert "curso" in missing; }
        }
        if missing != [] then Err(HttpError(400, MissingColumnsPrefix + Join(missing, ", ")))
        else Ok((lines, header))
  }

  /** `values[index] || ""`. */
  function Cell(values: seq<string>, j: nat): string
  {
    if j < |values| then values[j] else ""
  }

  /** The row object: each header column set in turn to the value at its
      position, so a repeated column keeps the value of its last position. */
  function MapRow(header: seq<string>, values: seq<string>): seq<(string, string)>
  {
    if header == [] then []
    else Set(MapRow(header[..|header| - 1], values), header[|header| - 1], Cell(values, |header| - 1))
  }

  /** The row has one key per distinct column, in first-occurrence order. */
  lemma {:induction false} MapRowKeys(header: seq<string>, values: seq<string>)
    ensures Keys(MapRow(header, values)) == Dedupe(header)
  {
    if header != [] {
      var init := header[..|header| - 1];
      var last := header[|header| - 1];
      MapRowKeys(init, values);
      assert MapRow(header, values) == Set(MapRow(init, values), last, Cell(values, |init|));
      assert Dedupe(header) == if last in Dedupe(init) then Dedupe(init) else Dedupe(init) + [last];
    }
  }

  /** A column that is not in the header is not in the row. */
  lemma {:induction false} MapRowAbsent(header: seq<string>, values: seq<string>, c: string)
    requires c !in header
    ensures Get(MapRow(header, values), c).None?
  {
    MapRowKeys(header, values);
  }

  /** Each column holds the value at the last position where it appears. */
  lemma {:induction false} MapRowLast(header: seq<string>, values: seq<string>, j: nat)
    requires j < |header| && header[j] !in header[j + 1..]
    ensures Get(MapRow(header, values), header[j]) == Some(Cell(values, j))
  {
    var init := header[..|header| - 1];
    var last := header[|header| - 1];
    if j < |header| - 1 {
      assert last in header[j + 1..];
      assert init[j + 1..] == header[j + 1..|header| - 1];
      assert header[j + 1..|header| - 1] <= header[j + 1..];
      MapRowLast(init, values, j);
    }
  }

  /** `row.x || ""` for a column that may be missing from the header. */
  function Field(row: seq<(string, string)>, column: string): string
  {
    match Get(row, column)
    case Some(v) => v
    case None => ""
  }

  // ---------------------------------------------------------------------
  // The student record built from a row
  // ---------------------------------------------------------------------

  /** The optional columns of a student row. */
  datatype Details = Details(
    phone: Option<string>,
    email: Option<string>,
    guardianName: Option<string>,
    guardianPhone: Option<string>,
    address: Option<string>,
    hasStudentInsurance: Option<int>,
    bloodType: Option<string>,
    gender: Option<string>,
    requirePiar: Option<bool>)

  /** The student row sent to the database. */
  datatype Payload = Payload(name: string, courseId: int, details: Details)

  /** `value || null`. */
  function OrNull(s: string): Option<string>
  {
    if s == "" then None else Some(s)
  }

  /** The gender column: "m" or a word starting "mas" is male, "f" or a word
      starting "fem" is female, in any letter case; anything else is unset. */
  function Gender(raw: string): Option<string>
  {
    var g := Lower(raw);
    if g == "m" || StartsWith(g, "mas") then Some("Masculino")
    else if g == "f" || StartsWith(g, "fem") then Some("Femenino")
    else None
  }

  lemma {:induction false} GenderIgnoresCase(raw: string)
    ensures Gender(Lower(raw)) == Gender(raw)
  {
    LowerIdempotent(raw);
  }

  /** The PIAR flag: the first non-empty of three alternative columns, read as
      yes (si, s\U{ED}, yes, true), no (no, false) or unset, in any letter case. */
  function Piar(row: seq<(string, string)>): Option<bool>
  {
    var raw := if Field(row, "piar") != "" then Field(row, "piar")
               else if Field(row, "requiere_piar") != "" then Field(row, "requiere_piar")
               else Field(row, "con_piar");
    var p := Lower(raw);
    if p == "si" || p == "s\U{ED}" || p == "yes" || p == "true" then Some(true)
    else if p == "no" || p == "false" then Some(false)
    else None
  }

  /** The insurance column: unset when empty, otherwise 1 for yes (si, s\U{ED},
      yes, in any letter case) and 0 for anything else. */
  function Insurance(raw: string): (r: Option<int>)
    ensures r.None? <==> raw == ""
    ensures r.Some? ==> r.value == 0 || r.value == 1
  {
    if raw == "" then None
    else
      var v := Lower(raw);
      Some(if v == "si" || v == "s\U{ED}" || v == "yes" then 1 else 0)
  }

  /** The optional columns read from a row; an empty cell is unset. */
  function RowDetails(row: seq<(string, string)>): Details
  {
    Details(
      OrNull(Field(row, "telefono")), OrNull(Field(row, "correo")),
      OrNull(Field(row, "nombre_acudiente")), OrNull(Field(row, "telefono_acudiente")),
      OrNull(Field(row, "direccion")), Insurance(Field(row, "seguro_estudiantil")),
      OrNull(Field(row, "tipo_sangre")), Gender(Field(row, "genero")), Piar(row))
  }

  /** The retry payload: the same row without gender and PIAR. */
  function Fallback(p: Payload): Payload
  {
    p.(details := p.details.(gender := None, requirePiar := None))
  }

  // ---------------------------------------------------------------------
  // Processing the data lines
  // ---------------------------------------------------------------------

  /** Outcome of the student insert for one line: the first insert succeeds,
      or it fails and the retry without gender and PIAR succeeds, or both fail. */
  datatype InsertOutcome = Inserted | InsertedFallback | InsertFailed

  /** A course row read from the database. */
  datatype Course = Course(id: int, name: string)

  /** The state the import loop carries: the course map (lower-cased name to
      id), the (name, course id) pairs of the students table, the rows this
      import inserted, the number imported and the error messages. */
  datatype ImportState = ImportState(
    courses: seq<(string, int)>,
    students: seq<(string, int)>,
    inserted: seq<Payload>,
    imported: nat,
    errors: seq<string>)

  /** `courses.map((c) => [c.name.toLowerCase(), c.id])`. */
  function CoursePairs(courses: seq<Course>): (ps: seq<(string, int)>)
    ensures |ps| == |courses|
    ensures forall i :: 0 <= i < |ps| ==> ps[i] == (Lower(courses[i].name), courses[i].id)
  {
    seq(|courses|, i requires 0 <= i < |courses| => (Lower(courses[i].name), courses[i].id))
  }

  /** `new Map(courses.map((c) => [c.name.toLowerCase(), c.id]))`: a later
      course overwrites an earlier one with the same lower-cased name. */
  function CourseMap(courses: seq<Course>): (m: seq<(string, int)>)
    ensures Valid(m)
  {
    FromPairsValid(CoursePairs(courses));
    FromPairs(CoursePairs(courses))
  }

  /** Every course of the table can be found under its lower-cased name. */
  lemma {:induction false} CourseMapFinds(courses: seq<Course>, c: Course)
    requires c in courses
    ensures Get(CourseMap(courses), Lower(c.name)).Some?
  {
    var i :| 0 <= i < |courses| && courses[i] == c;
    CourseMapValue(courses, Lower(c.name));
  }

  /** Course `i` is the last one whose lower-cased name is `k`. */
  predicate LastNamed(courses: seq<Course>, i: int, k: string)
  {
    0 <= i < |courses| && Lower(courses[i].name) == k
    && forall j :: i < j < |courses| ==> Lower(courses[j].name) != k
  }

  /** A name is in the course map exactly when some course has it as its
      lower-cased name, and it holds the id of the last such course. */
  lemma {:induction false} CourseMapValue(courses: seq<Course>, k: string)
    ensures Get(CourseMap(courses), k).Some? <==> exists i :: 0 <= i < |courses| && Lower(courses[i].name) == k
    ensures forall i :: LastNamed(courses, i, k) ==> Get(CourseMap(courses), k) == Some(courses[i].id)
  {
    var ps := CoursePairs(courses);
    FromPairsHas(ps, k);
    CoursePairsKeys(courses, k);
    forall i | LastNamed(courses, i, k) ensures Get(CourseMap(courses), k) == Some(courses[i].id) {
      CourseMapLast(courses, i, k);
    }
  }

  lemma {:induction false} CoursePairsKeys(courses: seq<Course>, k: string)
    ensures k in Keys(CoursePairs(courses)) <==> exists i :: 0 <= i < |courses| && Lower(courses[i].name) == k
  {
    var ks := Keys(CoursePairs(courses));
    if k in ks {
      var i :| 0 <= i < |ks| && ks[i] == k;
      assert Lower(courses[i].name) == k;
    }
    if i :| 0 <= i < |courses| && Lower(courses[i].name) == k {
      assert ks[i] == k;
    }
  }

  lemma {:induction false} CourseMapLast(courses: seq<Course>, i: int, k: string)
    requires LastNamed(courses, i, k)
    ensures Get(CourseMap(courses), k) == Some(courses[i].id)
  {
    var ps := CoursePairs(courses);
    forall j | i < j < |ps| ensures ps[j].0 != ps[i].0 { }
    FromPairsLast(ps, i);
  }

  /** "L\U{ED}nea n: text". */
  function LineError(n: nat, text: string): string
  {
    "L\U{ED}nea " + NatToString(n) + ": " + text
  }

  function Quoted(s: string): string
  {
    "\"" + s + "\""
  }

  function MissingFieldError(i: nat): string
  {
    LineError(i + 1, "Falta nombre o curso")
  }

  function CourseError(i: nat, curso: string): string
  {
    LineError(i + 1, "No se pudo crear el curso " + Quoted(curso))
  }

  function DuplicateError(i: nat, nombre: string, curso: string): string
  {
    LineError(i + 1, "El estudiante " + Quoted(nombre) + " ya existe en el curso " + Quoted(curso))
  }

  function InsertError(i: nat, nombre: string): string
  {
    LineError(i + 1, "No se pudo crear el estudiante " + Quoted(nombre))
  }

  /** Find-or-create of the course named in a line. A known name (compared in
      lower case) with a non-zero id is reused; otherwise the course is
      created, and on success its id is recorded under the lower-cased name.
      `None` when the creation fails. */
  function ResolveCourse(courses: seq<(string, int)>, curso: string, created: Option<int>): (r: Option<(int, seq<(string, int)>)>)
    ensures r.Some? ==> Get(r.value.1, Lower(curso)) == Some(r.value.0)
    ensures r.None? <==> (Get(courses, Lower(curso)).None? || Get(courses, Lower(curso)).value == 0) && created.None?
    ensures Get(courses, Lower(curso)).Some? && Get(courses, Lower(curso)).value != 0 ==>
              r == Some((Get(courses, Lower(curso)).value, courses))
    ensures r.Some? && r.value.1 != courses ==> created.Some? && r.value == (created.value, Set(courses, Lower(curso), created.value))
  {
    var found := Get(courses, Lower(curso));
    if found.Some? && found.value != 0 then Some((found.value, courses))
    else if created.None? then None
    else Some((created.value, Set(courses, Lower(curso), created.value)))
  }

  /** Two course names that agree in lower case resolve to the same course. */
  lemma {:induction false} ResolveIgnoresCase(courses: seq<(string, int)>, a: string, b: string, created: Option<int>)
    requires Lower(a) == Lower(b)
    ensures ResolveCourse(courses, a, created) == ResolveCourse(courses, b, created)
  {
  }

  /** The row object of a data line. */
  function LineRow(header: seq<string>, line: string): seq<(string, string)>
  {
    MapRow(header, CsvFields(Trim(line)))
  }

  /** One iteration of the import loop, for the line at index `i` of the
      non-blank lines (reported as line `i + 1`). */
  function ProcessLine(st: ImportState, header: seq<string>, line: string, i: nat,
                       created: Option<int>, outcome: InsertOutcome): ImportState
  {
    var row := LineRow(header, line);
    ProcessRow(st, row, RowDetails(row), i, created, outcome)
  }

  /** The body of the loop once the line has been split into its row. */
  function ProcessRow(st: ImportState, row: seq<(string, string)>, details: Details, i: nat,
                      created: Option<int>, outcome: InsertOutcome): ImportState
  {
    var nombre := Field(row, "nombre");
    var curso := Field(row, "curso");
    if nombre == "" || curso == "" then
      st.(errors := st.errors + [MissingFieldError(i)])
    else
      match ResolveCourse(st.courses, curso, created)
      case None =>
        st.(errors := st.errors + [CourseError(i, curso)])
      case Some((courseId, courses)) =>
        InsertResolved(st.(courses := courses), nombre, curso, courseId, details, i, outcome)
  }

  /** The rest of a data line once its course is resolved: the duplicate
      check, then the insert and its outcome. */
  function InsertResolved(st: ImportState, nombre: string, curso: string, courseId: int, details: Details, i: nat,
                          outcome: InsertOutcome): ImportState
  {
    if (nombre, courseId) in st.students then
      st.(errors := st.errors + [DuplicateError(i, nombre, curso)])
    else
      var payload := Payload(nombre, courseId, details);
      match outcome
      case InsertFailed =>
        st.(errors := st.errors + [InsertError(i, nombre)])
      case Inserted =>
        st.(students := st.students + [(nombre, courseId)],
            inserted := st.inserted + [payload], imported := st.imported + 1)
      case InsertedFallback =>
        st.(students := st.students + [(nombre, courseId)],
            inserted := st.inserted + [Fallback(payload)], imported := st.imported + 1)
  }

  /** Every data line gives exactly one outcome: one more import, or one more
      error message. */
  lemma {:induction false} ProcessRowOneOutcome(st: ImportState, row: seq<(string, string)>, details: Details, i: nat,
                             created: Option<int>, outcome: InsertOutcome)
    ensures var st' := ProcessRow(st, row, details, i, created, outcome);
      (st'.imported == st.imported + 1 && st'.errors == st.errors
       && |st'.students| == |st.students| + 1 && |st'.inserted| == |st.inserted| + 1)
      || (st'.imported == st.imported && |st'.errors| == |st.errors| + 1
       && st'.students == st.students && st'.inserted == st.inserted)
  {
    var nombre, curso := Field(row, "nombre"), Field(row, "curso");
    if nombre != "" && curso != "" {
      var r := ResolveCourse(st.courses, curso, created);
      if r.Some? {
        InsertResolvedOneOutcome(st.(courses := r.value.1), nombre, curso, r.value.0, details, i, outcome);
      }
    }
  }

  lemma {:induction false} InsertResolvedOneOutcome(st: ImportState, nombre: string, curso: string, courseId: int,
                                                   details: Details, i: nat, outcome: InsertOutcome)
    ensures var st' := InsertResolved(st, nombre, curso, courseId, details, i, outcome);
      (st'.imported == st.imported + 1 && st'.errors == st.errors
       && |st'.students| == |st.students| + 1 && |st'.inserted| == |st.inserted| + 1)
      || (st'.imported == st.imported && |st'.errors| == |st.errors| + 1
       && st'.students == st.students && st'.inserted == st.inserted)
  {
  }

  /** A line without a name or a course is rejected with its line number,
      and only the error list changes. */
  lemma {:induction false} ProcessRowMissingField(st: ImportState, row: seq<(string, string)>, details: Details, i: nat,
                               created: Option<int>, outcome: InsertOutcome)
    requires Field(row, "nombre") == "" || Field(row, "curso") == ""
    ensures ProcessRow(st, row, details, i, created, outcome)
            == st.(errors := st.errors + [MissingFieldError(i)])
  {
  }

  /** A student already in the table under the same name and course is not
      inserted again. */
  lemma {:induction false} ProcessRowDuplicate(st: ImportState, row: seq<(string, string)>, details: Details, i: nat,
                            created: Option<int>, outcome: InsertOutcome)
    requires var r := ResolveCourse(st.courses, Field(row, "curso"), created);
      Field(row, "nombre") != "" && Field(row, "curso") != "" && r.Some?
      && (Field(row, "nombre"), r.value.0) in st.students
    ensures var st' := ProcessRow(st, row, details, i, created, outcome);
      st'.students == st.students && st'.imported == st.imported && |st'.errors| == |st.errors| + 1
  {
  }

  /** The rows of the students table from position `n` on were each new when
      they were added: none repeats an earlier (name, course) pair. */
  predicate FreshFrom(students: seq<(string, int)>, n: nat)
  {
    forall a, b :: 0 <= a < b < |students| && n <= b ==> students[a] != students[b]
  }

  lemma {:induction false} FreshAppend(students: seq<(string, int)>, n: nat, x: (string, int))
    requires FreshFrom(students, n) && x !in students
    ensures FreshFrom(students + [x], n)
  {
    var t := students + [x];
    forall a, b | 0 <= a < b < |t| && n <= b ensures t[a] != t[b] {
      if b < |students| { assert t[a] == students[a] && t[b] == students[b]; }
      else { assert t[a] == students[a]; }
    }
  }

  lemma {:induction false} ProcessRowKeepsFresh(st: ImportState, row: seq<(string, string)>, details: Details, i: nat,
                             created: Option<int>, outcome: InsertOutcome, n: nat)
    requires FreshFrom(st.students, n)
    ensures FreshFrom(ProcessRow(st, row, details, i, created, outcome).students, n)
  {
    var nombre := Field(row, "nombre");
    var curso := Field(row, "curso");
    var r := ResolveCourse(st.courses, curso, created);
    if nombre != "" && curso != "" && r.Some? && (nombre, r.value.0) !in st.students && outcome != InsertFailed {
      FreshAppend(st.students, n, (nombre, r.value.0));
    }
  }

  /** The state after the data lines `1 .. k-1`; the outcome of the course and
      student inserts for line `i` are `createCourse(i)` and `insertStudent(i)`. */
  function Run(header: seq<string>, lines: seq<string>, k: nat, init: ImportState,
               createCourse: nat -> Option<int>, insertStudent: nat -> InsertOutcome): ImportState
    requires 1 <= k <= |lines|
  {
    if k == 1 then init
    else ProcessLine(Run(header, lines, k - 1, init, createCourse, insertStudent),
                     header, lines[k - 1], k - 1, createCourse(k - 1), insertStudent(k - 1))
  }

  /** Import accounting: the imported count and the error messages together
      number the data lines processed; the students table grows by the number
      imported, without a repeated pair among the new rows. */
  lemma {:induction false} RunAccounting(header: seq<string>, lines: seq<string>, k: nat, init: ImportState,
                                         createCourse: nat -> Option<int>, insertStudent: nat -> InsertOutcome)
    requires 1 <= k <= |lines|
    ensures var st := Run(header, lines, k, init, createCourse, insertStudent);
      st.imported + |st.errors| == init.imported + |init.errors| + (k - 1)
      && |st.students| == |init.students| + (st.imported - init.imported)
      && |st.inserted| == |init.inserted| + (st.imported - init.imported)
      && (FreshFrom(init.students, |init.students|) ==> FreshFrom(st.students, |init.students|))
  {
    if k > 1 {
      var prev := Run(header, lines, k - 1, init, createCourse, insertStudent);
      RunAccounting(header, lines, k - 1, init, createCourse, insertStudent);
      var row := LineRow(header, lines[k - 1]);
      ProcessRowOneOutcome(prev, row, RowDetails(row), k - 1, createCourse(k - 1), insertStudent(k - 1));
      if FreshFrom(init.students, |init.students|) {
        ProcessRowKeepsFresh(prev, row, RowDetails(row), k - 1, createCourse(k - 1), insertStudent(k - 1), |init.students|);
      }
    }
  }

  /** The successful answer of the handler. */
  datatype ImportReport = ImportReport(imported: nat, errors: seq<string>, message: string, inserted: seq<Payload>)

  function SuccessMessage(imported: nat): string
  {
    "Se importaron " + NatToString(imported) + " estudiantes exitosamente"
  }

  /** The whole import as a function of the upload, the course and student
      tables, and the outcomes of the database writes. */
  function Import(file: Option<string>, courses: seq<Course>, students: seq<(string, int)>,
                  createCourse: nat -> Option<int>, insertStudent: nat -> InsertOutcome): Result<ImportReport, HttpError>
  {
    match CheckUpload(file)
    case Err(e) => Err(e)
    case Ok((lines, header)) =>
      var st := Run(header, lines, |lines|, ImportState(CourseMap(courses), students, [], 0, []), createCourse, insertStudent);
      Ok(ImportReport(st.imported, st.errors, SuccessMessage(st.imported), st.inserted))
  }

  /** Every data line of an accepted upload is accounted for once: the
      number imported and the number of error messages add up to the
      non-blank lines after the header, and one row was inserted per import. */
  lemma {:induction false} ImportAccounting(file: Option<string>, courses: seq<Course>, students: seq<(string, int)>,
                         createCourse: nat -> Option<int>, insertStudent: nat -> InsertOutcome)
    ensures var r := Import(file, courses, students, createCourse, insertStudent);
      r.Ok? ==> r.value.imported + |r.value.errors| == |NonBlankLines(file.value)| - 1
                && |r.value.inserted| == r.value.imported
  {
    var check := CheckUpload(file);
    if check.Ok? {
      var (lines, header) := check.value;
      RunAccounting(header, lines, |lines|, ImportState(CourseMap(courses), students, [], 0, []), createCourse, insertStudent);
    }
  }

  /** An upload the checks reject imports nothing. */
  lemma {:induction false} ImportRejects(file: Option<string>, courses: seq<Course>, students: seq<(string, int)>,
                      createCourse: nat -> Option<int>, insertStudent: nat -> InsertOutcome)
    requires file.None? || |NonBlankLines(file.value)| < 2
             || "nombre" !in Header(NonBlankLines(file.value)[0])
             || "curso" !in Header(NonBlankLines(file.value)[0])
    ensures var r := Import(file, courses, students, createCourse, insertStudent);
      r.Err? && r.error.status == 400
  {
  }

  /** One pass of the loop body over a data line, updating the course map,
      the students table, the inserted rows, the count and the errors. */
  method ImportLine(coursesMap: seq<(string, int)>, table: seq<(string, int)>, inserted: seq<Payload>,
                    imported: nat, errors: seq<string>, header: seq<string>, rawLine: string, i: nat,
                    created: Option<int>, outcome: InsertOutcome)
    returns (coursesMap': seq<(string, int)>, table': seq<(string, int)>, inserted': seq<Payload>,
             imported': nat, errors': seq<string>)
    ensures ImportState(coursesMap', table', inserted', imported', errors')
            == ProcessLine(ImportState(coursesMap, table, inserted, imported, errors), header, rawLine, i, created, outcome)
  {
    var line := Trim(rawLine);
    var values := SplitCsvLine(line);
    var row := MapRow(header, values);
    var details := RowDetails(row);
    coursesMap', table', inserted', imported', errors' :=
      ImportRow(coursesMap, table, inserted, imported, errors, row, details, i, created, outcome);
  }

  /** The loop body once the line has been split and mapped onto the header. */
  method ImportRow(coursesMap: seq<(string, int)>, table: seq<(string, int)>, inserted: seq<Payload>,
                   imported: nat, errors: seq<string>, row: seq<(string, string)>, details: Details, i: nat,
                   created: Option<int>, outcome: InsertOutcome)
    returns (coursesMap': seq<(string, int)>, table': seq<(string, int)>, inserted': seq<Payload>,
             imported': nat, errors': seq<string>)
    ensures ImportState(coursesMap', table', inserted', imported', errors')
            == ProcessRow(ImportState(coursesMap, table, inserted, imported, errors), row, details, i, created, outcome)
  {
    ghost var st := ImportState(coursesMap, table, inserted, imported, errors);
    coursesMap', table', inserted', imported', errors' := coursesMap, table, inserted, imported, errors;
    var nombre := Field(row, "nombre");
    var curso := Field(row, "curso");
    if nombre == "" || curso == "" {
      errors' := errors + [MissingFieldError(i)];
      assert ProcessRow(st, row, details, i, created, outcome) == st.(errors := errors');
      return;
    }
    var resolved := ResolveCourse(coursesMap, curso, created);
    if resolved.None? {
      errors' := errors + [CourseError(i, curso)];
      assert ProcessRow(st, row, details, i, created, outcome) == st.(errors := errors');
      return;
    }
    var courseId := resolved.value.0;
    assert ProcessRow(st, row, details, i, created, outcome)
           == InsertResolved(st.(courses := resolved.value.1), nombre, curso, courseId, details, i, outcome);
    coursesMap', table', inserted', imported', errors' :=
      InsertRow(resolved.value.1, table, inserted, imported, errors, nombre, curso, courseId, details, i, outcome);
  }

  /** The duplicate check and the insert of one resolved data line. */
  method InsertRow(coursesMap: seq<(string, int)>, table: seq<(string, int)>, inserted: seq<Payload>,
                   imported: nat, errors: seq<string>, nombre: string, curso: string, courseId: int,
                   details: Details, i: nat, outcome: InsertOutcome)
    returns (coursesMap': seq<(string, int)>, table': seq<(string, int)>, inserted': seq<Payload>,
             imported': nat, errors': seq<string>)
    ensures ImportState(coursesMap', table', inserted', imported', errors')
            == InsertResolved(ImportState(coursesMap, table, inserted, imported, errors), nombre, curso, courseId,
                              details, i, outcome)
  {
    coursesMap', table', inserted', imported', errors' := coursesMap, table, inserted, imported, errors;
    if (nombre, courseId) in table {
      errors' := errors + [DuplicateError(i, nombre, curso)];
      return;
    }
    var payload := Payload(nombre, courseId, details);
    if outcome == InsertFailed {
      errors' := errors + [InsertError(i, nombre)];
      return;
    } else if outcome == InsertedFallback {
      payload := Fallback(payload);
    }
    table' := table + [(nombre, courseId)];
    inserted' := inserted + [payload];
    imported' := imported + 1;
  }

  /** The loop over the data lines `1 .. |lines| - 1`, starting from the
      course map and the students table read from the database. */
  method ImportLines(header: seq<string>, lines: seq<string>, coursesMap0: seq<(string, int)>,
                     students: seq<(string, int)>,
                     createCourse: nat -> Option<int>, insertStudent: nat -> InsertOutcome)
    returns (imported: nat, errors: seq<string>, inserted: seq<Payload>)
    requires |lines| >= 1
    ensures var st := Run(header, lines, |lines|, ImportState(coursesMap0, students, [], 0, []), createCourse, insertStudent);
      imported == st.imported && errors == st.errors && inserted == st.inserted
  {
    var coursesMap := coursesMap0;
    var table := students;
    inserted := [];
    imported := 0;
    errors := [];
    ghost var init := ImportState(coursesMap, students, [], 0, []);
    for i := 1 to |lines|
      invariant ImportState(coursesMap, table, inserted, imported, errors)
                == Run(header, lines, i, init, createCourse, insertStudent)
    {
      coursesMap, table, inserted, imported, errors :=
        ImportLine(coursesMap, table, inserted, imported, errors, header, lines[i], i, createCourse(i), insertStudent(i));
    }
  }

  /** The handler: the checks, then the loop over the data lines. */
  method ImportStudents(file: Option<string>, courses: seq<Course>, students: seq<(string, int)>,
                        createCourse: nat -> Option<int>, insertStudent: nat -> InsertOutcome)
    returns (r: Result<ImportReport, HttpError>)
    ensures r == Import(file, courses, students, createCourse, insertStudent)
  {
    var check := CheckUpload(file);
    if check.Err? {
      return Err(check.error);
    }
    var (lines, header) := check.value;
    var imported, errors, inserted := ImportLines(header, lines, CourseMap(courses), students, createCourse, insertStudent);
    r := Ok(ImportReport(imported, errors, SuccessMessage(imported), inserted));
  }
}
