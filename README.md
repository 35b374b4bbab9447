# School attendance system — verified model of its core

This project models the deterministic core of a school attendance
application. It has a worker back end (a single HTTP handler file), a React
front end, and a database. The database is not modelled: every table a
handler reads becomes an input sequence, and every write becomes a
returned value or a parameter that says how the write went.

What is modelled:

- **Worker kernels** (`src/worker/index.ts`):
  - the CSV student import: the quote-aware line splitter, the header check, row mapping, course find-or-create and per-line accounting;
  - the consecutive-absence alerts and the per-student attendance summary;
  - the school-wide daily absences with their two-key sort;
  - the daily report's present/absent partition;
  - the subject-hours profile summary (the mode per subject);
  - the administrator/coordinator role check;
  - the subject-hours row normalisation;
  - the attendance submission (duplicate rejection and the more-than-half advisory);
  - the teacher and student delete guards.
- **Front-end state**:
  - the subject-hours grid editor (`Admin.tsx`);
  - the attendance roster (`Attendance.tsx`);
  - the manual absence form (`ManualAttendance.tsx`);
  - the teacher card (`TeacherCard.tsx`) and the bulk assignment dialog (`TeacherAssignModal.tsx`);
  - the students panel with its CSV export (`StudentsPanel.tsx`);
  - the course grouping of absences (`SchoolAbsences.tsx`);
  - the mobile course list and age calculation (`MobileStudents.tsx`);
  - the report colour bands (`Reports.tsx`);
  - the subject metadata table (`subjects.ts`).
- **Address handling**: `apiFetch`'s path rewrite and authorization header (`api.ts`), and the `API_BASE` / `SITE_URL` normalisation (`config.ts`).

JavaScript objects and `Map`s become insertion-ordered key/value lists
(module `Records`). `localeCompare` becomes code-point order
(`Strings.StrLe`, `Strings.Compare`). `toLowerCase` is ASCII plus the
Latin-1 letters (`Strings.Lower`). Plain objects whose fields a page
updates in place are classes: `AdminGrid.HoursGrid`,
`AttendanceRoster.Roster`, `ManualAttendance.ManualForm` and
`ApiFetch.Headers`. Loops in the source are methods with loop invariants.
Each method is proved equal to a specification function, and the
properties are proved about that function.

Where the system's documented behaviour and its code disagree, the model
follows the code. The documentation describes the absence "streak" as the
unbroken run of most recent absences. The handler instead counts every
record that lists the student. See "## Findings".

The grid editor (`Admin.tsx`) keeps its own `subjectColor` chain. Its
colours differ from those in `subjects.ts`, and both are modelled
separately.

Shared modules:

| module | role |
|---|---|
| `Wrappers` | `Option` and `Result` |
| `Seqs` | `Count`, `Dedupe`, `Filter`, `Map`, `FirstIndex`, subsequences |
| `Records` | JS objects and maps, as insertion-ordered lists |
| `Strings` | `trim`, lower case, `split`/`join`, decimal text, `parseInt`, code-point order |
| `Sorting` | a stable insertion sort, standing in for `Array.prototype.sort` |
| `Json` | JSON values, for request bodies and the `roles` column |
| `GradeOrder` | the grade-name comparator shared by the teacher card and the assignment dialog |

## Model

| member | source | states |
|---|---|---|
| CsvImport.SplitCsvLine | src/worker/index.ts:806-821 | the character loop (quote toggling, splitting on commas outside quotes, a final push) yields exactly `CsvFields(line)` |
| CsvImport.CsvFieldsShape | src/worker/index.ts:806-821 | a line splits into one more field than it has commas outside quotes; no field holds a double quote; every field is already trimmed |
| CsvImport.ScanCounts | src/worker/index.ts:810-820 | after a prefix the scanner is inside quotes exactly when it has seen an odd number of `"`; it has closed one field per comma outside quotes |
| CsvImport.ScanKeepsText | src/worker/index.ts:810-821 | joining the raw fields with "," gives the line with its quotes removed: no character other than `"` is lost, and `""` is not an escaped quote |
| CsvImport.ScanDropsQuotes | src/worker/index.ts:812-813 | no raw field contains a double quote |
| CsvImport.UnquotedCommasPlain | src/worker/index.ts:814 | on a line without quotes every comma separates fields |
| CsvImport.NonBlankLines | src/worker/index.ts:769 | every kept line has non-blank trimmed text |
| CsvImport.MissingColumns | src/worker/index.ts:778-781 | the missing required columns are exactly those of ["nombre","curso"] absent from the header, in that order |
| CsvImport.CheckUpload | src/worker/index.ts:763-790 | no file → 400 with the no-file message; fewer than two non-blank lines → 400 "vacío"; accepted iff both required columns are in the lower-cased, trimmed header; a header rejection is 400 naming exactly the missing columns joined by ", " |
| CsvImport.MapRowKeys | src/worker/index.ts:824-827 | the row object has one key per distinct header column, in first-occurrence order |
| CsvImport.MapRowAbsent | src/worker/index.ts:824-827 | a column not in the header is not in the row |
| CsvImport.MapRowLast | src/worker/index.ts:825-826 | a column holds the value at its last header position, `""` when the line is short |
| CsvImport.GenderIgnoresCase | src/worker/index.ts:866-870 | the gender read from a cell does not depend on its letter case |
| CsvImport.Insurance | src/worker/index.ts:848-852 | an empty insurance cell is null; any other cell is 1 or 0 |
| CsvImport.CoursePairs | src/worker/index.ts:794 | the pairs list each course, in order, as its lower-cased name with its id |
| CsvImport.CourseMap | src/worker/index.ts:794 | the course map has one entry per lower-cased course name |
| CsvImport.CourseMapValue | src/worker/index.ts:794 | a lower-cased name is in the course map exactly when some course has it, and its value is the id of the last such course |
| CsvImport.CoursePairsKeys | src/worker/index.ts:794 | a name is a key of the pairs exactly when some course has it as its lower-cased name |
| CsvImport.CourseMapLast | src/worker/index.ts:794 | the last course with a given lower-cased name is the one whose id the map holds |
| CsvImport.CourseMapFinds | src/worker/index.ts:794 | every course of the table is found under its lower-cased name |
| CsvImport.ResolveCourse | src/worker/index.ts:836-845 | a known course with a non-zero id is used as is; otherwise the created course's id is stored under the lower-cased name; with no course and a failed creation the line fails |
| CsvImport.ResolveIgnoresCase | src/worker/index.ts:836 | two course names equal in lower case resolve to the same course |
| CsvImport.ProcessRowOneOutcome | src/worker/index.ts:829-901 | each data line either imports one student (counter +1, one insert, no error) or adds exactly one error and inserts nothing |
| CsvImport.ProcessRowMissingField | src/worker/index.ts:830-833 | a row with an empty name or course only adds the "Falta nombre o curso" error |
| CsvImport.ProcessRowDuplicate | src/worker/index.ts:854-864 | a (name, course) pair already in the table adds one error and inserts nothing |
| CsvImport.ProcessRowKeepsFresh | src/worker/index.ts:854-901 | students inserted by the import are never duplicates of each other or of the existing table |
| CsvImport.RunAccounting | src/worker/index.ts:800-905 | after k lines: imported + errors grows by k − 1; inserts match the import count; inserted students stay distinct |
| CsvImport.ImportAccounting | src/worker/index.ts:800-910 | an accepted upload answers imported + errors = non-blank lines − 1, with one inserted row per imported student |
| CsvImport.ImportRejects | src/worker/index.ts:763-790 | an upload failing the checks is answered 400 and imports nothing |
| CsvImport.ImportLine | src/worker/index.ts:801-904 | the loop body on one line equals the specification step `ProcessLine` |
| CsvImport.ImportRow | src/worker/index.ts:829-901 | the loop body after row mapping equals `ProcessRow` |
| CsvImport.InsertRow | src/worker/index.ts:854-901 | after the course is resolved, the duplicate check and the insert give `InsertResolved`: a duplicate or a failed insert adds one error, an insert (or its fallback without details) appends the student and the payload and counts one more |
| CsvImport.ImportLines | src/worker/index.ts:800-905 | the loop over the data lines computes the fold `Run` |
| CsvImport.ImportStudents | src/worker/index.ts:757-911 | the handler equals the specification `Import` |
| AbsenceAlerts.AbsentIn | src/worker/index.ts:225-229 | the absent set of a record: exactly the students its absence rows list, each once |
| AbsenceAlerts.PushAllFacts | src/worker/index.ts:230-234 | pushing the absent set adds one entry to each listed student's history and to no other |
| AbsenceAlerts.ByStudentFacts | src/worker/index.ts:222-235 | every history holds only absent entries; a student's history length is the number of records listing them; only such students are keys |
| AbsenceAlerts.CollectHistories | src/worker/index.ts:222-235 | the loop over the records builds exactly `ByStudent` |
| AbsenceAlerts.CountLeading | src/worker/index.ts:239-243 | `consec` is the length of the leading run of absent entries |
| AbsenceAlerts.PermutedAllAbsent | src/worker/index.ts:238 | sorting an absent-only history keeps it absent-only |
| AbsenceAlerts.StreaksOf | src/worker/index.ts:236-245 | one alert per history, in key order, whose count is the history's length |
| AbsenceAlerts.StudentAlerts | src/worker/index.ts:205-246 | no course, subjects or records → []; otherwise alert ids are distinct, a student is alerted iff some record lists them absent, and the count is the number of such records |
| AbsenceAlerts.ListedAbsentCount | src/worker/index.ts:225-234 | a student is listed absent somewhere iff the number of records listing them is positive |
| AbsenceAlerts.IntendedStreakRun | src/worker/index.ts:236-245 | the intended streak is an unbroken run of the newest records ending before the first record without the student |
| AbsenceAlerts.IntendedStreakResets | src/worker/index.ts:236-245 | a student present in the newest record has intended streak 0 |
| AbsenceAlerts.IntendedStreakBound | src/worker/index.ts:236-245 | the intended streak never exceeds the count the handler reports |
| AbsenceAlerts.CorrectedAlerts | src/worker/index.ts:236-245 | the corrected answer: the same students, each with the intended streak |
| AbsenceAlerts.AsWrittenCountsOlderAbsence | src/worker/index.ts:222-245 | a student absent only in the older of two records is reported with 1 where the intended streak is 0 |
| AttendanceSummary.RoundHalfUp | src/worker/index.ts:278 | `Math.round(n/d)`: the nearest integer, halves rounding up |
| AttendanceSummary.Clamp | src/worker/index.ts:278 | the result lies in 0..100 and equals x inside it, 0 below, 100 above |
| AttendanceSummary.Percentage | src/worker/index.ts:278 | the percentage is always within 0..100 |
| AttendanceSummary.PercentageEnds | src/worker/index.ts:278 | no absences give 100; absences ≥ sessions give 0 |
| AttendanceSummary.PercentageMonotone | src/worker/index.ts:278 | more absences never raise the percentage |
| AttendanceSummary.CountAbsences | src/worker/index.ts:271-275 | the map gives each student their number of absence rows (0 when absent from the map) |
| AttendanceSummary.Summaries | src/worker/index.ts:251-281 | no course or no subjects → []; zero sessions → every student {0,0,0}; otherwise one entry per student, in order, with sessions, absence count and clamped rounded percentage |
| DailyAbsences.StudentIds | src/worker/index.ts:553 | the ids are exactly those of some absence row |
| DailyAbsences.NoRowsZero | src/worker/index.ts:563-581 | a student without rows has no count and no hours |
| DailyAbsences.AggregateKeys | src/worker/index.ts:563-581 | the aggregate has one entry per distinct absent student, in first-row order |
| DailyAbsences.AggregateEntry | src/worker/index.ts:563-581 | an entry's count is the student's number of rows; its hours sum `hours_count`, a null counting 1; name and course come from the student's first row |
| DailyAbsences.AbsenceOrderIsTotalPreorder | src/worker/index.ts:582-587 | the comparator (course name or "Sin curso", then student name) is total and transitive |
| DailyAbsences.NameCompare | src/worker/index.ts:582-587 | one comparator call raises exactly when the course names tie and the receiver has no name; otherwise it answers the course-then-name order, a missing argument name read as "undefined" |
| DailyAbsences.AnswerComparesWithoutThrow | src/worker/index.ts:573-586 | when every absent student has a student row, every entry of the answer has a name, so no comparator call raises |
| DailyAbsences.DailyAbsenceListFacts | src/worker/index.ts:559-588 | the answer is sorted by the comparator, has one entry per distinct absent student, and each entry holds that student's count and hours |
| DailyAbsences.AggregateRows | src/worker/index.ts:563-581 | the aggregation loop computes `Aggregate` |
| DailyAbsences.GetDailyAbsences | src/worker/index.ts:547-588 | the handler computes `DailyAbsenceList` (empty when there are no records) |
| DailyReport.ReportPartition | src/worker/index.ts:650-656 | present and absent lists are the roster students without and with an absence row, each in roster order, and their sizes add up to the roster |
| DailyReport.UnknownAbsenceIgnored | src/worker/index.ts:650-652 | an absent id not in the roster changes neither list |
| GroupSummary.RangeSubjects | src/worker/index.ts:1332-1339 | the subjects of the entries whose grade is within [from, to] |
| GroupSummary.GroupsKeys | src/worker/index.ts:1331-1340 | the map's keys are the distinct in-range subjects in first-entry order |
| GroupSummary.GroupsHours | src/worker/index.ts:1331-1340 | each subject's list holds its in-range hours in entry order |
| GroupSummary.BuildGroups | src/worker/index.ts:1331-1340 | the grouping loop computes `Groups` |
| GroupSummary.CountPairsCount | src/worker/index.ts:1345-1346 | `counts` gives each value its number of occurrences |
| GroupSummary.CountValues | src/worker/index.ts:1345-1346 | the counting loop computes `CountPairs` |
| GroupSummary.ModeIndexFacts | src/worker/index.ts:1347-1354 | the strict-greater scan finds a maximal count, the first one in key order |
| GroupSummary.PickMode | src/worker/index.ts:1347-1354 | the scan loop returns the value at `ModeIndex` (or `arr[0]` when none) |
| GroupSummary.ModeFacts | src/worker/index.ts:1343-1355 | the reported hours occur in the list, occur most often, and any value seen earlier occurs strictly less often |
| GroupSummary.ModeOf | src/worker/index.ts:1345-1355 | the two loops compute `Mode` |
| GroupSummary.RowsSubjects | src/worker/index.ts:1342-1357 | one row per subject with a non-empty list, in key order |
| GroupSummary.RowsPick | src/worker/index.ts:1342-1357 | each row holds the pick of its own subject's list |
| GroupSummary.BySubjectIsTotalPreorder | src/worker/index.ts:1358 | ordering rows by subject is total and transitive |
| GroupSummary.SummarizeFacts | src/worker/index.ts:1330-1360 | the output is sorted by subject, lists each in-range subject exactly once, and gives it the mode of its in-range hours |
| GroupSummary.RowsOf | src/worker/index.ts:1342-1357 | the row loop computes `Rows` with the mode |
| GroupSummary.GroupSummaryOf | src/worker/index.ts:1330-1360 | `groupSummary(from, to)` computes `Summarize` |
| Roles.FindTeacher | src/worker/index.ts:37-41 | the row found by user id wins; without it the row found by e-mail, when the user has an e-mail; else none |
| Roles.AnyIncludesMeaning | src/worker/index.ts:46-50 | on an array, `includes` is membership of one of the names; on a string it is substring search; on anything else it throws |
| Roles.AdminByRoleArray | src/worker/index.ts:42-51 | an array column grants access iff it lists one of "Admin.", "Coord.", "Administrativo", "Administrador" |
| Roles.AdminByRoleText | src/worker/index.ts:44-51 | a text column holding a JSON array is judged as that array |
| Roles.AdminDenied | src/worker/index.ts:37-51 | no teacher, no roles, or text that does not parse → denied |
| Roles.AdminBySubstring | src/worker/index.ts:44-51 | text that parses to a string grants access iff a privileged name is a substring |
| Roles.AdminThrows | src/worker/index.ts:44-51 | text that parses to a number, boolean, null or object makes the check throw |
| Roles.CardRoles | src/react-app/components/TeacherCard.tsx:32-39 | an array is used as is; a string parsing to an array gives that array; anything else gives [] |
| Roles.CardAgreesWithWorker | src/react-app/components/TeacherCard.tsx:32-39 | when the text parses to an array (or fails), card and worker read the same roles |
| HoursNormalize.NormalizeIsFilterThenMap | src/worker/index.ts:1173-1175 | the normalised list is the kept rows, each converted, in order |
| HoursNormalize.KeptRow | src/worker/index.ts:1174-1175 | a kept row is an object whose hours come out as the integer sent |
| HoursNormalize.NonArrayBody | src/worker/index.ts:1172 | a body that is not an array saves nothing |
| HoursNormalize.EncodedFields | src/worker/index.ts:1175 | the JSON object of a saved row carries its subject, grade and hours |
| HoursNormalize.EncodeRoundTrip | src/worker/index.ts:1173-1175 | re-sending a saved row keeps it iff it has a non-empty subject, a non-zero grade and hours; then it comes back unchanged |
| HoursNormalize.Renormalize | src/worker/index.ts:1221-1223 | normalising encoded rows keeps exactly the stable ones |
| HoursNormalize.NormalizeIdempotent | src/worker/index.ts:1173-1175 | normalising the encoding of a normalised body gives the same rows |
| AttendanceWrites.FindSubject | src/worker/index.ts:426 | the first subject with the id, or none when there is none |
| AttendanceWrites.AbsentRowsFor | src/worker/index.ts:418-425 | one absence row per listed id, in order, repeats included |
| AttendanceWrites.SubmitOutcomes | src/worker/index.ts:383-440 | an error writes nothing; no teacher → 403; success iff teacher, own subject and no record for that subject, schedule and date; a 400 means the class is already registered; success appends the record and its rows, and alerts iff absent > 50% of the course |
| AttendanceWrites.SecondSubmissionRejected | src/worker/index.ts:398-406 | resubmitting the same class and date is rejected with 400 |
| AttendanceWrites.SubmitKeepsOneRecordPerClass | src/worker/index.ts:398-416 | submissions keep at most one record per subject, schedule and date |
| AttendanceWrites.AdvisoryMonotone | src/worker/index.ts:431-439 | more absentees never remove the advisory |
| AttendanceWrites.DeleteTeacherGuard | src/worker/index.ts:742-750 | deletion fails iff the teacher has subjects; otherwise only that teacher goes and every subject keeps its teacher |
| AttendanceWrites.DeleteStudentGuard | src/worker/index.ts:979-987 | deletion fails iff the student has absence rows; otherwise only that student goes and every absence row keeps its student |
| Json.ParseIntOfNumber | src/worker/index.ts:1175 | `parseInt` of an integer-valued number gives that integer |
| AdminGrid.FindRow | src/react-app/pages/Admin.tsx:440 | `findIndex`: the first row with that subject and grade, or −1 when none |
| AdminGrid.BumpShape | src/react-app/pages/Admin.tsx:440-447 | an existing row gains one hour and every other row is unchanged; otherwise `{subject, grade, 1}` is appended |
| AdminGrid.BumpHours | src/react-app/pages/Admin.tsx:440-447 | the key gains exactly one hour and no other key changes |
| AdminGrid.BumpGradeTotal | src/react-app/pages/Admin.tsx:440-447 | the grade's total rises by one; other totals stay |
| AdminGrid.BumpKeepsKeysUnique | src/react-app/pages/Admin.tsx:440-446 | neither click nor drop creates a second row for a key |
| AdminGrid.RemoveKeyHours | src/react-app/pages/Admin.tsx:475 | after a long press the key has no hours and every other key keeps its hours |
| AdminGrid.RemoveKeyGradeTotal | src/react-app/pages/Admin.tsx:475 | the grade's total drops by exactly the removed hours |
| AdminGrid.RemoveKeyRows | src/react-app/pages/Admin.tsx:475 | the remaining rows are exactly those of other keys, in their order |
| AdminGrid.SumWhereFilter | src/react-app/pages/Admin.tsx:464 | the column total sums the hours of the rows with that grade |
| AdminGrid.HoursGrid.constructor | src/react-app/pages/Admin.tsx:68 | the grid starts with the given rows and no subject selected |
| AdminGrid.HoursGrid.Select | src/react-app/pages/Admin.tsx:68 | choosing a subject changes only the selection |
| AdminGrid.HoursGrid.AddHour | src/react-app/pages/Admin.tsx:440-447 | the rows become `Bump` of the old rows |
| AdminGrid.HoursGrid.Click | src/react-app/pages/Admin.tsx:449-459 | with no (or an empty) subject selected nothing changes; otherwise the rows are bumped for the selected subject |
| AdminGrid.HoursGrid.Drop | src/react-app/pages/Admin.tsx:438-448 | the rows are bumped for the dragged text, with no emptiness check |
| AdminGrid.HoursGrid.LongPress | src/react-app/pages/Admin.tsx:473-476 | the rows lose every row of that subject and grade |
| AdminGrid.CourseNameById | src/react-app/pages/Admin.tsx:201-204 | the name of the first course with the id, or "Sin asignar" |
| AdminGrid.SubjectColorDefault | src/react-app/pages/Admin.tsx:71-93 | indigo is returned exactly for names outside the twenty listed subjects |
| AttendanceRoster.Loaded | src/react-app/pages/Attendance.tsx:41 | after loading, every student is present, in fetch order |
| AttendanceRoster.ToggledAt | src/react-app/pages/Attendance.tsx:53-59 | a toggle flips exactly the students with that id and changes nothing else |
| AttendanceRoster.ToggleTwice | src/react-app/pages/Attendance.tsx:53-59 | two toggles of the same id restore the roster |
| AttendanceRoster.TogglesCommute | src/react-app/pages/Attendance.tsx:53-59 | toggles of two ids commute |
| AttendanceRoster.AbsentIds | src/react-app/pages/Attendance.tsx:73-75 | the sent ids are exactly those of flagged students |
| AttendanceRoster.LoadedClear | src/react-app/pages/Attendance.tsx:41 | right after loading no id would be sent |
| AttendanceRoster.CountsAddUp | src/react-app/pages/Attendance.tsx:126-128 | present + absent = total, and the sent id list has one id per absent student |
| AttendanceRoster.BarBandCounts | src/react-app/pages/Attendance.tsx:126-216 | green iff ≥ 80% present, yellow iff 50–80%, and an empty roster (0%) is red |
| AttendanceRoster.Roster.constructor | src/react-app/pages/Attendance.tsx:11 | the roster starts empty |
| AttendanceRoster.Roster.Load | src/react-app/pages/Attendance.tsx:41 | loading sets the roster to `Loaded(data)` |
| AttendanceRoster.Roster.ToggleAbsent | src/react-app/pages/Attendance.tsx:53-59 | a tap sets the roster to `Toggled` of the old one |
| ManualAttendance.FindSubject | src/react-app/pages/ManualAttendance.tsx:66 | the first loaded subject with the id, or none |
| ManualAttendance.HoursInput | src/react-app/pages/ManualAttendance.tsx:231 | unparseable or zero text gives 1; any other number is kept |
| ManualAttendance.HoursInputOfNumber | src/react-app/pages/ManualAttendance.tsx:231 | typing a non-zero number sets that number |
| ManualAttendance.SubmitPayload | src/react-app/pages/ManualAttendance.tsx:88-103 | an empty list is the error; otherwise one body entry per entry, in order, stamped with the date |
| ManualAttendance.RemoveKeepsOthers | src/react-app/pages/ManualAttendance.tsx:84-86 | removal keeps exactly the entries with another id, in order |
| ManualAttendance.ManualForm.SetHours | src/react-app/pages/ManualAttendance.tsx:231 | the hours field becomes `HoursInput(text)`; nothing else changes |
| ManualAttendance.ManualForm.AddEntry | src/react-app/pages/ManualAttendance.tsx:60-82 | blank name, no subject or hours < 1 → error, nothing else changes; unknown subject → nothing changes; else one entry appended and the form reset to ("", none, 1) with no error |
| ManualAttendance.ManualForm.RemoveEntry | src/react-app/pages/ManualAttendance.tsx:84-86 | the list loses every entry with the id; the form is unchanged |
| ManualAttendance.ManualForm.Submit | src/react-app/pages/ManualAttendance.tsx:88-103 | an empty list sets the error and sends nothing; otherwise the payload is sent and the error cleared |
| MobileStudents.FindByName | src/react-app/pages/MobileStudents.tsx:58 | the first course with the name, or none when no course has it |
| MobileStudents.InOrderMembers | src/react-app/pages/MobileStudents.tsx:58 | every shown course is a fetched course whose name is listed |
| MobileStudents.InOrderNames | src/react-app/pages/MobileStudents.tsx:58 | a listed name is shown iff some fetched course carries it |
| MobileStudents.InOrderFollowsOrder | src/react-app/pages/MobileStudents.tsx:58 | the shown names follow COURSE_ORDER |
| MobileStudents.OrderCoursesFallback | src/react-app/pages/MobileStudents.tsx:58-59 | if no name matches, the fetched list is kept; else the ordered list is shown |
| MobileStudents.CourseStudents | src/react-app/pages/MobileStudents.tsx:69-73 | no course with the selected name → []; otherwise exactly that course's students, in order |
| MobileStudents.AlertIds | src/react-app/pages/MobileStudents.tsx:74 | exactly the ids with at least 3 consecutive absences |
| MobileStudents.AgeCountsBirthdays | src/react-app/pages/MobileStudents.tsx:93-97 | the age is the number of birthdays reached: the birthday at that age has passed, the next has not |
| MobileStudents.AgeShown | src/react-app/pages/MobileStudents.tsx:89-97 | a birth date not after today shows a non-negative age as decimal text |
| StudentsPanel.BuildPctMap | src/react-app/pages/StudentsPanel.tsx:48-52 | the loop computes `PctMapOf` |
| StudentsPanel.PctMapLookup | src/react-app/pages/StudentsPanel.tsx:48-52 | a student's entry is the percentage of their last summary entry |
| StudentsPanel.FilteredFacts | src/react-app/pages/StudentsPanel.tsx:56-61 | a student is kept iff in the selected course and, for a non-empty query, matching name or id; order is kept; an empty query gives the course filter |
| StudentsPanel.TotalsOf | src/react-app/pages/StudentsPanel.tsx:63-68 | total = activos = the list's length; alerts and PIAR count the matching students and are ≤ total |
| StudentsPanel.AlertedStudents | src/react-app/pages/StudentsPanel.tsx:54 | a listed student counts as alerted iff an alert gives them ≥ 3 absences |
| StudentsPanel.QuoteRoundTrip | src/react-app/pages/StudentsPanel.tsx:74 | reading an exported field by RFC 4180 section 2 rule 7 gives back its text |
| StudentsPanel.UnescapeEscape | src/react-app/pages/StudentsPanel.tsx:74 | undoubling the quotes of an escaped text gives the text back |
| StudentsPanel.CourseNameOf | src/react-app/pages/StudentsPanel.tsx:73 | "" when no course has the id; a non-empty name is that of a course with the id |
| StudentsPanel.ExportLines | src/react-app/pages/StudentsPanel.tsx:71-75 | one line per filtered student, in order |
| StudentsPanel.ExportReadsBack | src/react-app/pages/StudentsPanel.tsx:71-76 | split on line breaks, the export is the header followed by each student's line; a missing percentage is written "0%" |
| StudentsPanel.PadStart | src/react-app/pages/StudentsPanel.tsx:188 | the padded text has length max(len, n) |
| StudentsPanel.DisplayCodeValue | src/react-app/pages/StudentsPanel.tsx:188 | the displayed code has at least 6 digits and reads as the id |
| SchoolAbsences.GroupByCourse | src/react-app/pages/SchoolAbsences.tsx:53-59 | the reduce loop computes `Grouped` |
| SchoolAbsences.PushSteps | src/react-app/pages/SchoolAbsences.tsx:54-57 | creating the missing list and pushing is one step |
| SchoolAbsences.GroupOf | src/react-app/pages/SchoolAbsences.tsx:53-59 | a course's group is exactly its absences, in input order |
| SchoolAbsences.GroupedKeys | src/react-app/pages/SchoolAbsences.tsx:53-59 | the groups are the distinct course names, in first-seen order |
| SchoolAbsences.GroupsExact | src/react-app/pages/SchoolAbsences.tsx:53-59 | each course appears once and its group is its absences |
| SchoolAbsences.GroupSizesSum | src/react-app/pages/SchoolAbsences.tsx:53-59 | the group sizes add up to the number of absences |
| SchoolAbsences.AffectedCourses | src/react-app/pages/SchoolAbsences.tsx:123 | "Cursos Afectados" is the number of distinct course names: at most the absences, 0 iff none |
| SchoolAbsences.AveragePerCourse | src/react-app/pages/SchoolAbsences.tsx:134-138 | there is an average exactly when there are absences |
| SchoolAbsences.AverageFacts | src/react-app/pages/SchoolAbsences.tsx:134-138 | the average per course is at least 1 |
| SchoolAbsences.Badge | src/react-app/pages/SchoolAbsences.tsx:196-200 | the "Nx" badge is shown iff the count exceeds 1 |
| Reports.AttendanceBand | src/react-app/pages/Reports.tsx:81-86 | green iff ≥ 90, blue iff 75–90, yellow iff 60–75, red iff < 60 |
| Reports.AttendanceTrend | src/react-app/pages/Reports.tsx:88-93 | the icon points up iff p ≥ 75 |
| Reports.TrendFollowsBand | src/react-app/pages/Reports.tsx:81-93 | up exactly on the green and blue bands |
| Reports.BandMonotone | src/react-app/pages/Reports.tsx:81-86 | a higher percentage never gets a worse band |
| Reports.ClassesDistinct | src/react-app/pages/Reports.tsx:82-85 | each band has its own classes |
| GradeOrder.GradeKeyOfText | src/react-app/components/TeacherCard.tsx:106-110 | digits followed by one letter match the pattern with that number and letter |
| GradeOrder.GradeKeyNone | src/react-app/components/TeacherCard.tsx:106 | a name fails the pattern iff it is too short, does not end in a letter, or has a non-digit before it |
| GradeOrder.GradeCompare | src/react-app/components/TeacherCard.tsx:104-115 | two matching names compare by number, then letter; otherwise by string order; zero exactly on equal keys or equal strings |
| GradeOrder.GradeCompareAntisymmetric | src/react-app/components/TeacherCard.tsx:104-115 | swapping the arguments flips the sign |
| GradeOrder.NineBeforeTen | src/react-app/components/TeacherCard.tsx:108-111 | "9A" sorts before "10A", where plain comparison puts it after |
| GradeOrder.LeadingZeroTies | src/react-app/components/TeacherCard.tsx:109-112 | "09A" and "9A" compare equal |
| GradeOrder.KeyedTotalPreorder | src/react-app/components/TeacherCard.tsx:104-115 | on well-formed grade names the order is total and transitive |
| GradeOrder.MixedKeysNotTransitive | src/react-app/components/TeacherCard.tsx:104-115 | mixing matching and non-matching names breaks transitivity |
| GradeOrder.KeyedGradesSorted | src/react-app/components/TeacherCard.tsx:104-115 | sorting well-formed names yields a sorted permutation |
| GradeOrder.GradesAlreadySorted | src/react-app/components/TeacherAssignModal.tsx:15-30 | GRADES is already in order, so sorting it changes nothing |
| GradeOrder.GradesKeyed | src/react-app/components/TeacherAssignModal.tsx:15 | every grade of the list has the digits-and-letter form |
| GradeOrder.GradesNeighbours | src/react-app/components/TeacherAssignModal.tsx:15 | neighbouring grades of the list are in order |
| TeacherCard.ComputeHours | src/react-app/components/TeacherCard.tsx:24-28 | the nested loops compute `LoadHours` of the load (an undefined load reads as empty) |
| TeacherCard.EmptyLoadHours | src/react-app/components/TeacherCard.tsx:24-28 | a load listing no subjects is worth no hours |
| TeacherCard.LoadHoursAppend | src/react-app/components/TeacherCard.tsx:26 | the hours of a load split over any split of its grades |
| TeacherCard.AddSubjectCountsAgain | src/react-app/components/TeacherCard.tsx:26 | adding a subject to a grade adds its hours again, even when listed elsewhere |
| TeacherCard.LoadHoursNonNegative | src/react-app/components/TeacherCard.tsx:26 | with no negative hours the total is never negative |
| TeacherCard.HoursBadgeClass | src/react-app/components/TeacherCard.tsx:69-70 | red iff more than 22 hours, indigo otherwise |
| TeacherCard.TutorBadge | src/react-app/components/TeacherCard.tsx:99-101 | shown iff a tutored course is set and not "NO", reading "Tutor " + course |
| TeacherCard.PdfBody | src/react-app/components/TeacherCard.tsx:57-61 | the nested loops compute `BodyRows` |
| TeacherCard.GradeRowsFacts | src/react-app/components/TeacherCard.tsx:59-60 | one row per subject of the grade, in order, with its hours (0 when missing) |
| TeacherCard.BodyMatchesBadge | src/react-app/components/TeacherCard.tsx:24-61 | the table has one row per (grade, subject) pair and its hours add up to the badge |
| TeacherCard.BodyRowsMembers | src/react-app/components/TeacherCard.tsx:57-61 | a row is in the table iff its grade is in the load, its subject is listed under it and its hours are that subject's |
| TeacherAssign.Toggled | src/react-app/components/TeacherAssignModal.tsx:34-36 | the grade's tick flips (absent counts as false); other ticks are unchanged |
| TeacherAssign.ToggleTwice | src/react-app/components/TeacherAssignModal.tsx:34-36 | two toggles restore every tick |
| TeacherAssign.ToggledValid | src/react-app/components/TeacherAssignModal.tsx:34-36 | toggling keeps one entry per grade |
| TeacherAssign.Save | src/react-app/components/TeacherAssignModal.tsx:38-47 | the loop over the ticks computes `Merged` from a copy of the teacher's load |
| TeacherAssign.SaveStepGet | src/react-app/components/TeacherAssignModal.tsx:40-44 | one step changes at most the ticked grade's list |
| TeacherAssign.MergedGet | src/react-app/components/TeacherAssignModal.tsx:38-47 | a ticked grade holds its old list plus the subject, without repeats; any other grade keeps its list or stays absent |
| TeacherAssign.WithSubjectShape | src/react-app/components/TeacherAssignModal.tsx:42-43 | the new list is the old one de-duplicated, followed by the subject if it was not there |
| TeacherAssign.WithSubjectIdempotent | src/react-app/components/TeacherAssignModal.tsx:42-43 | adding the subject again changes nothing |
| TeacherAssign.MergedIdempotent | src/react-app/components/TeacherAssignModal.tsx:38-47 | saving twice gives the same lists as saving once |
| TeacherAssign.SortGrades | src/react-app/components/TeacherAssignModal.tsx:22-30 | the array is sorted in place by the grade order and returned |
| Subjects.SubjectBadge | src/react-app/lib/subjects.ts:31-34 | a listed name gets its table entry; any other gets the grey "Otras" badge |
| Subjects.ListedExactly | src/react-app/lib/subjects.ts:6-29 | the table has an entry for exactly the 22 listed names |
| Subjects.AliasesAgree | src/react-app/lib/subjects.ts:10-27 | "Pre Ciencias"/"Preciencias" and "C. Ciudadanas"/"Ciudadanas" share their badge |
| Subjects.UnknownIsGrey | src/react-app/lib/subjects.ts:6-34 | the badge is grey iff the name is not listed, and then it is in "Otras" |
| ApiFetch.NormalizePath | src/react-app/lib/api.ts:11 | a leading "/api/" becomes "/" (the rest is kept); any other input is unchanged |
| ApiFetch.TargetOf | src/react-app/lib/api.ts:9-15 | non-strings are forwarded; "http…" is used verbatim; anything else is resolved against API_BASE |
| ApiFetch.ApiPrefixOptional | src/react-app/lib/api.ts:11-14 | a path with and without the "/api" prefix reach the same target |
| ApiFetch.AbsoluteAddressVerbatim | src/react-app/lib/api.ts:11-13 | an absolute address is neither rewritten nor resolved |
| ApiFetch.Headers.constructor | src/react-app/lib/api.ts:7 | the headers are the caller's, by lower-case name, repeated names joined by ", " |
| ApiFetch.Headers.SetHeader | src/react-app/lib/api.ts:8 | `set` replaces the lower-cased name's value |
| ApiFetch.Fetch | src/react-app/lib/api.ts:4-16 | the target is `TargetOf`; with a token, authorization is "Bearer " + token; without one, the caller's headers go as they are; no other header changes |
| Config.StripTrailingSlashes | src/react-app/lib/config.ts:5-7 | the result is a prefix, what was cut is all slashes, and it does not end in a slash |
| Config.StripApiSuffix | src/react-app/lib/config.ts:5 | a trailing "/api" in any case is removed once; otherwise nothing changes |
| Config.ApiBase | src/react-app/lib/config.ts:1-5 | a set variable gives a prefix of it; an unset or empty one gives origin + "/api" |
| Config.SiteUrl | src/react-app/lib/config.ts:6-7 | a set variable gives a prefix of it; otherwise the origin |
| Config.StripSlashesRoundTrip | src/react-app/lib/config.ts:5-7 | adding slashes to an address without one and stripping them gives it back |
| Config.PlainAddressUnchanged | src/react-app/lib/config.ts:5-7 | an address with no trailing slash or "/api" is used as it is |
| Config.ApiSuffixRemoved | src/react-app/lib/config.ts:5 | an address followed by "/api" (any case) and slashes loses exactly that ending |
| Config.OnlyOneApiRemoved | src/react-app/lib/config.ts:5 | "/api/api" loses only one "/api" |
| Config.SiteKeepsApi | src/react-app/lib/config.ts:7 | the site address keeps an "/api" ending; only slashes go |

## Left out

- Database access, authentication, CORS and request validation (zod schemas) are not modelled. Table reads are input sequences. Write outcomes (course creation, student insert, insert fallback) are parameters indexed by line.
- Concurrency is not modelled: two simultaneous submissions both passing the duplicate check is outside a sequential model.
- Floating point is not modelled. Percentages are exact rationals (`real`) or integers with explicit half-up rounding. `toFixed` formatting, the NaN percentage of the daily report for an empty roster, and the Dashboard page are left out.
- Json.ParseIntOfNumber: request-body numbers are modelled as integers (`JNum(n: int)`), so `parseInt` truncating a fractional or exponent-written number (2.5 gives 2, 5e-7 gives 5) is not modelled. An integer of 10^21 or more is printed by `String` in exponent form ("1e+21"), so `parseInt` does not give it back either (it gives 1); the lemma holds for integers the source prints as plain digits, and the model does not bound `n`.
- HoursNormalize.KeptRow: for the same reason, a fractional, exponent-written or 10^21-and-above `hours` value, which the source keeps and changes through `parseInt`, is not modelled; the contract covers integer-valued hours printed as plain digits only.
- PDF generation, `Blob`/download, timers (the 2-second long press is an event), `window` and `Date.now()` ids are not modelled. New entry ids and the current date are parameters.
- `new URL(path, base)` resolution is not modelled: `ApiFetch.Target.Resolved` records the path and base it would be given.
- Date parsing is not modelled. `calcAge` takes dates as (year, month, day) integers, and an unparseable date is `None`.
- `localeCompare` is modelled as code-point order. Locale collation rules are not modelled.
- `toLowerCase` is modelled as ASCII plus the Latin-1 letters. Other scripts are left out.
- Subjects.SubjectBadge: a name that is an `Object.prototype` member (`"toString"`, `"constructor"`) finds an inherited value in the source; the model returns the grey default for it.
- SchoolAbsences.GroupByCourse: the source groups into a plain `{}` object, so a course named after an `Object.prototype` member (`"constructor"`, `"toString"`, `"__proto__"`) finds an inherited value there and the `.push` on it throws a `TypeError`. The model, and `Grouped`, `GroupOf` and `GroupsExact` with it, start a fresh list for such a name.
- TeacherCard.ComputeHours: `hoursMap[m] || 0` reads an inherited function for a subject named after an `Object.prototype` member, and `h +=` then turns the total into a string. The model, and `HoursOf`, `LoadHours`, `BodyRows` and `PdfBody` with it, count such a subject as 0 hours.
- Records: JavaScript enumerates integer-like object keys (such as "10") first, in numeric order, before the other keys. The model keeps insertion order for every key. This applies to any integer-like key, not only grade keys (the fixed grade names are not integer-like): SchoolAbsences.GroupedKeys states first-seen order, while the page renders `Object.entries(groupedByCourse)` (SchoolAbsences.tsx line 167), so a course named "10" would be listed first; CsvImport.MapRowKeys states first-occurrence header order, while the CSV row object (index.ts lines 824-827) puts an integer-like header first. Neither order changes which values the keys hold.
- ApiFetch.Headers: the `TypeError` that `Headers` throws on an invalid header name is not modelled.
- TeacherCard and TeacherAssign sort with a comparator that is not transitive on mixed names (`GradeOrder.MixedKeysNotTransitive`). The result of a JavaScript engine's sort on such input is engine-specific; the model uses one stable insertion sort.
- AdminGrid.HoursGrid: the source copies the array but increments the shared row object, so the previous state's row changes too. The model treats rows as values, so that aliasing is not captured.
- TeacherAssign.SortGrades: the array is sorted by writing the sorted sequence back, not by the engine's element moves. The `useMemo` caching is not modelled.
- CsvImport: the `catch` at lines 902-904 (an unexpected exception while processing a line) is not modelled. Every modelled failure is one of the explicit errors.
- AbsenceAlerts.StudentAlerts: `StreaksOf` sorts each history newest first with the dates compared in code-point order (the `localeCompare` rule above) and then counts the leading absent run. Every history holds only absent entries, and sorting keeps it that way (`PermutedAllAbsent`), so the count is the history length whatever the date order.
- DailyAbsences.DailyAbsenceListFacts: states its facts for a day with records. The empty day is the `[]` branch of `DailyAbsenceList` itself.
- DailyAbsences.GetDailyAbsences: an absence row whose student has no student row gives an entry without a name (line 574). When that entry's course name ties with another entry's, the source's comparator throws a `TypeError` if the engine passes that entry as the receiver (line 586). Which pairs the engine compares is engine-specific, so the model still returns the sorted list. It sorts the missing name as the text "undefined", which is what `localeCompare` does when that entry is the argument. `NameCompare` records which calls raise, and `AnswerComparesWithoutThrow` shows that none can when every absent student has a row.
- DailyAbsences.DailyAbsenceListFacts: its facts are about that sorted list, which the source may not produce when an entry without a name ties with another entry on course (see the line above).
- DailyAbsences.AbsenceOrderIsTotalPreorder: proves the order with a missing name read as "undefined"; the source's comparator raises instead when such an entry is the receiver and the course names tie.

## Findings

| source | as written | input that shows it | evidently intended | confidence | as-written member | corrected member |
|---|---|---|---|---|---|---|
| src/worker/index.ts:222-245 | only absent entries are ever pushed into a student's history, so `consecutive_absences` counts every record listing the student, however old | records 2 (newest) and 1; student 7 absent only in record 1 → reported 1 | the run of most recent records listing the student, reset by the first record without them (0 here) | high; not executed | AbsenceAlerts.AsWrittenCountsOlderAbsence | AbsenceAlerts.CorrectedAlerts |
