/** The summary of a subject-hours profile over a range of grades
    (`groupSummary` in `GET /api/admin/subject-hours/history`): the profile's
    entries whose grade lies in the range are grouped by subject, each
    subject is given the most frequent hour value of its entries (a tie goes
    to the value that appeared first), and the rows are sorted by subject. */
module GroupSummary {
  import opened Wrappers
  import opened Seqs
  import opened Strings
  import opened Records
  import opened Sorting

  /** An entry of a profile: a subject's weekly hours in one grade. */
  datatype ProfileEntry = ProfileEntry(subject: string, grade: int, hours: int)

  /** A row of the summary. */
  datatype SubjectHours = SubjectHours(subject: string, hours: int)

  predicate InRange(e: ProfileEntry, fromG: int, toG: int)
  {
    fromG <= e.grade <= toG
  }

  /** The subjects of the entries in the range, in entry order, repeats included. */
  function RangeSubjects(entries: seq<ProfileEntry>, fromG: int, toG: int): (r: seq<string>)
    ensures forall s :: s in r <==> exists e :: e in entries && InRange(e, fromG, toG) && e.subject == s
  {
    if entries == [] then []
    else
      var init := entries[..|entries| - 1];
      var e := entries[|entries| - 1];
      assert entries == init + [e];
      RangeSubjects(init, fromG, toG) + (if InRange(e, fromG, toG) then [e.subject] else [])
  }

  /** The hours of the entries in the range with subject `s`, in entry order. */
  function RangeHours(entries: seq<ProfileEntry>, fromG: int, toG: int, s: string): seq<int>
  {
    if entries == [] then []
    else
      var e := entries[|entries| - 1];
      RangeHours(entries[..|entries| - 1], fromG, toG, s)
        + (if InRange(e, fromG, toG) && e.subject == s then [e.hours] else [])
  }

  /** The `map` of the summariser after the entries `entries`: subject to
      the list of its hours. */
  function Groups(entries: seq<ProfileEntry>, fromG: int, toG: int): seq<(string, seq<int>)>
  {
    if entries == [] then []
    else
      var m := Groups(entries[..|entries| - 1], fromG, toG);
      var e := entries[|entries| - 1];
      if InRange(e, fromG, toG) then Set(m, e.subject, GetOr(m, e.subject, []) + [e.hours]) else m
  }

  /** The groups hold every subject of the range once, in order of first
      appearance. */
  lemma {:induction false} GroupsKeys(entries: seq<ProfileEntry>, fromG: int, toG: int)
    ensures Keys(Groups(entries, fromG, toG)) == Dedupe(RangeSubjects(entries, fromG, toG))
  {
    if entries != [] {
      var init := entries[..|entries| - 1];
      var e := entries[|entries| - 1];
      GroupsKeys(init, fromG, toG);
      if InRange(e, fromG, toG) {
        DedupeAppend(RangeSubjects(init, fromG, toG), e.subject);
      } else {
        assert RangeSubjects(entries, fromG, toG) == RangeSubjects(init, fromG, toG);
      }
    }
  }

  /** A subject's group holds all of its hours in the range, in entry order. */
  lemma {:induction false} GroupsHours(entries: seq<ProfileEntry>, fromG: int, toG: int, s: string)
    ensures GetOr(Groups(entries, fromG, toG), s, []) == RangeHours(entries, fromG, toG, s)
  {
    if entries != [] {
      var init := entries[..|entries| - 1];
      var e := entries[|entries| - 1];
      var m := Groups(init, fromG, toG);
      GroupsHours(init, fromG, toG, s);
      if InRange(e, fromG, toG) {
        if e.subject == s {
          assert Get(Groups(entries, fromG, toG), s) == Some(GetOr(m, s, []) + [e.hours]);
        } else {
          assert Get(Groups(entries, fromG, toG), s) == Get(m, s);
        }
      }
    }
  }

  /** A subject of the range has at least one hour value. */
  lemma {:induction false} RangeHoursNonEmpty(entries: seq<ProfileEntry>, fromG: int, toG: int, s: string)
    requires s in RangeSubjects(entries, fromG, toG)
    ensures RangeHours(entries, fromG, toG, s) != []
  {
    var init := entries[..|entries| - 1];
    var e := entries[|entries| - 1];
    if !(InRange(e, fromG, toG) && e.subject == s) {
      assert s in RangeSubjects(init, fromG, toG);
      RangeHoursNonEmpty(init, fromG, toG, s);
    }
  }

  /** The first loop of the summariser: append each in-range entry's hours
      to its subject's list. */
  method BuildGroups(entries: seq<ProfileEntry>, fromG: int, toG: int) returns (m: seq<(string, seq<int>)>)
    ensures m == Groups(entries, fromG, toG)
  {
    m := [];
    for i := 0 to |entries|
      invariant m == Groups(entries[..i], fromG, toG)
    {
      var e := entries[i];
      assert entries[..i + 1][..i] == entries[..i];
      if fromG <= e.grade <= toG {
        var arr := GetOr(m, e.subject, []);
        m := Set(m, e.subject, arr + [e.hours]);
      }
    }
    assert entries[..|entries|] == entries;
  }

  /** The `counts` map: each hour value with its number of occurrences, in
      order of first appearance. */
  function CountPairs(arr: seq<int>): seq<(int, nat)>
  {
    if arr == [] then []
    else
      var m := CountPairs(arr[..|arr| - 1]);
      var h := arr[|arr| - 1];
      Set(m, h, GetOr(m, h, 0) + 1)
  }

  /** The values of `counts` in order of first appearance. */
  lemma {:induction false} CountPairsKeys(arr: seq<int>)
    ensures Keys(CountPairs(arr)) == Dedupe(arr)
  {
    if arr != [] {
      var init, h := arr[..|arr| - 1], arr[|arr| - 1];
      var m := CountPairs(init);
      CountPairsKeys(init);
      calc {
        Keys(CountPairs(arr));
        Keys(Set(m, h, GetOr(m, h, 0) + 1));
        if h in Keys(m) then Keys(m) else Keys(m) + [h];
        if h in Dedupe(init) then Dedupe(init) else Dedupe(init) + [h];
        Dedupe(arr);
      }
    }
  }

  /** `counts` holds each value's number of occurrences. */
  lemma {:induction false} CountPairsCount(arr: seq<int>, h: int)
    ensures GetOr(CountPairs(arr), h, 0) == Count(arr, h)
  {
    if arr != [] {
      var init := arr[..|arr| - 1];
      var m := CountPairs(init);
      var x := arr[|arr| - 1];
      CountPairsCount(init, h);
      SetGetOr(m, x, GetOr(m, x, 0) + 1, h, 0);
    }
  }

  /** The loop filling `counts`. */
  method CountValues(arr: seq<int>) returns (counts: seq<(int, nat)>)
    ensures counts == CountPairs(arr)
  {
    counts := [];
    for i := 0 to |arr|
      invariant counts == CountPairs(arr[..i])
    {
      var h := arr[i];
      assert arr[..i + 1][..i] == arr[..i];
      counts := Set(counts, h, GetOr(counts, h, 0) + 1);
    }
    assert arr[..|arr|] == arr;
  }

  /** The position in `ps` of the entry the `modeC` scan keeps: the first
      count larger than every earlier one and than `c0`, or -1 when no count
      exceeds `c0`. */
  function ModeIndex(ps: seq<(int, nat)>, c0: int): (i: int)
    ensures -1 <= i < |ps|
  {
    if ps == [] then -1
    else
      var i := ModeIndex(ps[..|ps| - 1], c0);
      var best := if i < 0 then c0 else ps[i].1;
      if ps[|ps| - 1].1 > best then |ps| - 1 else i
  }

  /** The scan keeps a largest count, and every earlier count is strictly
      smaller. */
  lemma {:induction false} ModeIndexFacts(ps: seq<(int, nat)>, c0: int)
    ensures var i := ModeIndex(ps, c0);
      var best := if i < 0 then c0 else ps[i].1;
      best >= c0
      && (forall k :: 0 <= k < |ps| ==> ps[k].1 <= best)
      && (i >= 0 ==> ps[i].1 > c0 && forall k :: 0 <= k < i ==> ps[k].1 < best)
  {
    if ps != [] {
      ModeIndexFacts(ps[..|ps| - 1], c0);
    }
  }

  /** The second loop of the summariser: the first value of largest count,
      starting from `h0` with count 0. */
  method PickMode(ps: seq<(int, nat)>, h0: int) returns (modeH: int)
    ensures var i := ModeIndex(ps, 0); modeH == if i < 0 then h0 else ps[i].0
  {
    modeH := h0;
    var modeC := 0;
    ghost var idx := -1;
    for j := 0 to |ps|
      invariant idx == ModeIndex(ps[..j], 0)
      invariant idx < 0 ==> modeH == h0 && modeC == 0
      invariant idx >= 0 ==> idx < j && modeH == ps[idx].0 && modeC == ps[idx].1
    {
      var (h, c) := ps[j];
      assert ps[..j + 1][..j] == ps[..j];
      if c > modeC {
        modeC := c;
        modeH := h;
        idx := j;
      }
    }
    assert ps[..|ps|] == ps;
  }

  /** The hour value the summariser reports for a non-empty list. */
  function Mode(arr: seq<int>): int
    requires arr != []
  {
    var ps := CountPairs(arr);
    var i := ModeIndex(ps, 0);
    if i < 0 then arr[0] else ps[i].0
  }

  /** The reported value occurs in the list, no value occurs more often, and
      every value that first appears earlier occurs strictly less often. */
  lemma {:induction false} ModeFacts(arr: seq<int>)
    requires arr != []
    ensures Mode(arr) in arr
    ensures forall h :: Count(arr, h) <= Count(arr, Mode(arr))
    ensures forall h :: h in arr && FirstIndex(arr, h) < FirstIndex(arr, Mode(arr)) ==> Count(arr, h) < Count(arr, Mode(arr))
  {
    var ps := CountPairs(arr);
    CountPairsKeys(arr);
    ModeIndexFacts(ps, 0);
    var d := Dedupe(arr);
    assert Valid(ps);
    assert arr[0] in d;
    assert |ps| > 0;
    GetAt(ps, 0);
    CountPairsCount(arr, ps[0].0);
    CountZero(arr, ps[0].0);
    var i := ModeIndex(ps, 0);
    assert i >= 0;
    var m := ps[i].0;
    assert m == d[i];
    GetAt(ps, i);
    CountPairsCount(arr, m);
    assert Count(arr, m) == ps[i].1;
    forall h ensures Count(arr, h) <= Count(arr, m)
      && (h in arr && FirstIndex(arr, h) < FirstIndex(arr, m) ==> Count(arr, h) < Count(arr, m))
    {
      if h in arr {
        assert h in d;
        var k :| 0 <= k < |d| && d[k] == h;
        GetAt(ps, k);
        CountPairsCount(arr, h);
        assert Count(arr, h) == ps[k].1;
        if FirstIndex(arr, h) < FirstIndex(arr, m) {
          if k > i {
            DedupeFirstOccurrenceOrder(arr, i, k);
          }
          assert k != i;
        }
      } else {
        CountZero(arr, h);
      }
    }
  }

  /** The hour value of a non-empty list, computed as the summariser does. */
  method ModeOf(arr: seq<int>) returns (modeH: int)
    requires arr != []
    ensures modeH == Mode(arr)
  {
    var counts := CountValues(arr);
    modeH := PickMode(counts, arr[0]);
  }

  /** The value reported for a list: its mode, or 0 for an empty list
      (which the summariser skips). */
  function ListMode(arr: seq<int>): int
  {
    if arr == [] then 0 else Mode(arr)
  }

  /** The summary rows of the groups, in group order, the hours of each
      non-empty list given by `pick`; an empty list gives no row. */
  function Rows(m: seq<(string, seq<int>)>, pick: seq<int> -> int): seq<SubjectHours>
  {
    if m == [] then []
    else (if m[0].1 != [] then [SubjectHours(m[0].0, pick(m[0].1))] else []) + Rows(m[1..], pick)
  }

  /** The rows of two collections one after the other. */
  lemma {:induction false} RowsAppend(a: seq<(string, seq<int>)>, b: seq<(string, seq<int>)>, pick: seq<int> -> int)
    ensures Rows(a + b, pick) == Rows(a, pick) + Rows(b, pick)
  {
    if a == [] {
      assert a + b == b;
    } else {
      assert (a + b)[1..] == a[1..] + b;
      RowsAppend(a[1..], b, pick);
    }
  }

  /** The subjects of the rows, in row order. */
  function SubjectsOf(r: seq<SubjectHours>): (ss: seq<string>)
    ensures |ss| == |r| && forall i :: 0 <= i < |r| ==> ss[i] == r[i].subject
  {
    if r == [] then [] else [r[0].subject] + SubjectsOf(r[1..])
  }

  /** The keys whose list is not empty, in key order. */
  function NonEmptyKeys(m: seq<(string, seq<int>)>): (ks: seq<string>)
    ensures forall s :: s in ks ==> s in Keys(m)
  {
    if m == [] then []
    else
      assert Keys(m) == [m[0].0] + Keys(m[1..]);
      (if m[0].1 != [] then [m[0].0] else []) + NonEmptyKeys(m[1..])
  }

  /** A well-formed collection without its first pair. */
  lemma {:induction false} TailValid(m: seq<(string, seq<int>)>)
    requires Valid(m) && m != []
    ensures Valid(m[1..]) && m[0].0 !in Keys(m[1..])
    ensures Keys(m) == [m[0].0] + Keys(m[1..])
  {
    var tail := m[1..];
    assert Keys(m) == [m[0].0] + Keys(tail);
    forall a, b | 0 <= a < b < |Keys(tail)| ensures Keys(tail)[a] != Keys(tail)[b] {
      assert Keys(m)[a + 1] != Keys(m)[b + 1];
    }
    forall a | 0 <= a < |Keys(tail)| ensures Keys(tail)[a] != m[0].0 {
      assert Keys(m)[0] != Keys(m)[a + 1];
    }
  }

  /** There is one row per key with a non-empty list, in key order. */
  lemma {:induction false} RowsSubjects(m: seq<(string, seq<int>)>, pick: seq<int> -> int)
    ensures SubjectsOf(Rows(m, pick)) == NonEmptyKeys(m)
  {
    if m != [] {
      RowsSubjects(m[1..], pick);
      var rt := Rows(m[1..], pick);
      if m[0].1 != [] {
        assert SubjectsOf(Rows(m, pick)) == [m[0].0] + SubjectsOf(rt);
      }
    }
  }

  /** In a well-formed collection the non-empty keys are distinct. */
  lemma {:induction false} NonEmptyKeysDistinct(m: seq<(string, seq<int>)>)
    requires Valid(m)
    ensures NoDups(NonEmptyKeys(m))
  {
    if m != [] {
      TailValid(m);
      NonEmptyKeysDistinct(m[1..]);
    }
  }

  /** In a well-formed collection a key is listed exactly when its list is
      not empty. */
  lemma {:induction false} NonEmptyKeysGet(m: seq<(string, seq<int>)>, s: string)
    requires Valid(m)
    ensures s in NonEmptyKeys(m) <==> GetOr(m, s, []) != []
  {
    if m != [] {
      TailValid(m);
      NonEmptyKeysGet(m[1..], s);
      if s == m[0].0 {
        assert s !in NonEmptyKeys(m[1..]);
      }
    }
  }

  /** In a well-formed collection each row holds `pick` of its subject's list. */
  lemma {:induction false} RowsPick(m: seq<(string, seq<int>)>, pick: seq<int> -> int)
    requires Valid(m)
    ensures forall i :: 0 <= i < |Rows(m, pick)| ==>
      Rows(m, pick)[i].hours == pick(GetOr(m, Rows(m, pick)[i].subject, []))
  {
    if m != [] {
      TailValid(m);
      RowsPick(m[1..], pick);
      RowsSubjects(m[1..], pick);
      var rt := Rows(m[1..], pick);
      forall i | 0 <= i < |rt| ensures GetOr(m, rt[i].subject, []) == GetOr(m[1..], rt[i].subject, []) {
        assert rt[i].subject == SubjectsOf(rt)[i];
      }
    }
  }

  /** The order the summariser sorts by: `localeCompare` on the subject. */
  function BySubject(): (SubjectHours, SubjectHours) -> bool
  {
    (a: SubjectHours, b: SubjectHours) => StrLe(a.subject, b.subject)
  }

  lemma {:induction false} BySubjectIsTotalPreorder()
    ensures Total(BySubject()) && Transitive(BySubject())
  {
    forall a: SubjectHours, b: SubjectHours ensures StrLe(a.subject, b.subject) || StrLe(b.subject, a.subject) {
      StrLeTotal(a.subject, b.subject);
    }
    forall a: SubjectHours, b: SubjectHours, c: SubjectHours | StrLe(a.subject, b.subject) && StrLe(b.subject, c.subject)
      ensures StrLe(a.subject, c.subject)
    {
      StrLeTransitive(a.subject, b.subject, c.subject);
    }
  }

  /** `groupSummary(fromG, toG)` over the entries of one profile. */
  function Summarize(entries: seq<ProfileEntry>, fromG: int, toG: int): seq<SubjectHours>
  {
    SortBy(Rows(Groups(entries, fromG, toG), ListMode), BySubject())
  }

  /** Reordering keeps the subjects distinct. */
  lemma {:induction false} PermutedDistinct(rs: seq<SubjectHours>, r: seq<SubjectHours>)
    requires multiset(rs) == multiset(r) && NoDups(SubjectsOf(rs))
    ensures NoDups(SubjectsOf(r))
  {
    assert forall p, q :: 0 <= p < q < |rs| ==> rs[p].subject != rs[q].subject by {
      forall p, q | 0 <= p < q < |rs| ensures rs[p].subject != rs[q].subject {
        assert SubjectsOf(rs)[p] != SubjectsOf(rs)[q];
      }
    }
    PermutationDistinctKeys(rs, r, (e: SubjectHours) => e.subject);
    forall i, j | 0 <= i < j < |r| ensures SubjectsOf(r)[i] != SubjectsOf(r)[j] {
    }
  }

  /** Reordering keeps the subjects. */
  lemma {:induction false} PermutedSubjects(rs: seq<SubjectHours>, r: seq<SubjectHours>, s: string)
    requires multiset(rs) == multiset(r)
    ensures s in SubjectsOf(r) <==> s in SubjectsOf(rs)
  {
    if s in SubjectsOf(rs) {
      var p :| 0 <= p < |rs| && SubjectsOf(rs)[p] == s;
      assert rs[p] in multiset(r);
      var i :| 0 <= i < |r| && r[i] == rs[p];
      assert SubjectsOf(r)[i] == s;
    }
    if s in SubjectsOf(r) {
      var i :| 0 <= i < |r| && SubjectsOf(r)[i] == s;
      assert r[i] in multiset(rs);
      var p :| 0 <= p < |rs| && rs[p] == r[i];
      assert SubjectsOf(rs)[p] == s;
    }
  }

  /** A subject has hours in the range exactly when it is a subject of the range. */
  lemma {:induction false} RangeHoursEmpty(entries: seq<ProfileEntry>, fromG: int, toG: int, s: string)
    ensures RangeHours(entries, fromG, toG, s) != [] <==> s in RangeSubjects(entries, fromG, toG)
  {
    if entries != [] {
      RangeHoursEmpty(entries[..|entries| - 1], fromG, toG, s);
    }
  }

  /** What the summary promises: sorted by subject, one row per subject of
      the range, each holding the mode of that subject's hours in the range. */
  lemma {:induction false} SummarizeFacts(entries: seq<ProfileEntry>, fromG: int, toG: int)
    ensures var r := Summarize(entries, fromG, toG);
      SortedBy(r, BySubject())
      && NoDups(SubjectsOf(r))
      && (forall s :: s in SubjectsOf(r) <==> s in RangeSubjects(entries, fromG, toG))
      && (forall i :: 0 <= i < |r| ==>
            RangeHours(entries, fromG, toG, r[i].subject) != []
            && r[i].hours == Mode(RangeHours(entries, fromG, toG, r[i].subject)))
  {
    var g := Groups(entries, fromG, toG);
    var rs := Rows(g, ListMode);
    var r := SortBy(rs, BySubject());
    GroupsKeys(entries, fromG, toG);
    assert Valid(g);
    BySubjectIsTotalPreorder();
    SortBySorted(rs, BySubject());
    RowsSubjects(g, ListMode);
    NonEmptyKeysDistinct(g);
    PermutedDistinct(rs, r);
    forall s ensures s in SubjectsOf(r) <==> s in RangeSubjects(entries, fromG, toG) {
      PermutedSubjects(rs, r, s);
      NonEmptyKeysGet(g, s);
      GroupsHours(entries, fromG, toG, s);
      RangeHoursEmpty(entries, fromG, toG, s);
    }
    RowsPick(g, ListMode);
    forall i | 0 <= i < |r| ensures RangeHours(entries, fromG, toG, r[i].subject) != []
      && r[i].hours == Mode(RangeHours(entries, fromG, toG, r[i].subject))
    {
      assert r[i] in multiset(rs);
      var p :| 0 <= p < |rs| && rs[p] == r[i];
      var subj := r[i].subject;
      assert subj in SubjectsOf(rs) by { assert SubjectsOf(rs)[p] == subj; }
      NonEmptyKeysGet(g, subj);
      GroupsHours(entries, fromG, toG, subj);
    }
  }

  /** The loop over the groups, pushing one row per non-empty list. */
  method RowsOf(m: seq<(string, seq<int>)>) returns (rows: seq<SubjectHours>)
    ensures rows == Rows(m, ListMode)
  {
    rows := [];
    for i := 0 to |m|
      invariant rows == Rows(m[..i], ListMode)
    {
      var subject, arr := m[i].0, m[i].1;
      assert m[..i + 1] == m[..i] + [m[i]];
      RowsAppend(m[..i], [m[i]], ListMode);
      assert Rows([m[i]], ListMode) == if arr != [] then [SubjectHours(subject, ListMode(arr))] else [];
      if |arr| > 0 {
        var modeH := ModeOf(arr);
        rows := rows + [SubjectHours(subject, modeH)];
      }
    }
    assert m[..|m|] == m;
  }

  /** The summariser: group, take each group's mode, sort by subject. */
  method GroupSummaryOf(entries: seq<ProfileEntry>, fromG: int, toG: int) returns (out: seq<SubjectHours>)
    ensures out == Summarize(entries, fromG, toG)
  {
    var m := BuildGroups(entries, fromG, toG);
    var rows := RowsOf(m);
    out := SortBy(rows, BySubject());
  }
}
