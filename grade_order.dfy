/** The order in which grades ("6A", "10B", ...) are listed: a key made of
    digits and one letter sorts by the number and then by the letter, so
    "9A" comes before "10A"; any other pair falls back to plain string
    comparison. The teacher card sorts a teacher's grades with it, and the
    assignment dialog its fixed list of grades. */
module GradeOrder {
  import opened Wrappers
  import opened Strings
  import opened Sorting

  predicate IsLetter(c: char)
  {
    'a' <= c <= 'z' || 'A' <= c <= 'Z'
  }

  predicate AllDigits(s: string)
  {
    forall i :: 0 <= i < |s| ==> IsDigit(s[i])
  }

  /** `/^(\d+)([A-Za-z])$/.exec(s)`: the number the digits spell and the
      letter, or `None` when `s` has another form. */
  function GradeKey(s: string): Option<(nat, char)>
  {
    if |s| >= 2 && AllDigits(s[..|s| - 1]) && IsLetter(s[|s| - 1])
    then Some((DigitsValue(s[..|s| - 1]), s[|s| - 1]))
    else None
  }

  /** A number written in decimal followed by a letter reads back as that
      number and letter. */
  lemma {:induction false} GradeKeyOfText(n: nat, c: char)
    requires IsLetter(c)
    ensures GradeKey(NatToString(n) + [c]) == Some((n, c))
  {
    var s := NatToString(n) + [c];
    assert s[..|s| - 1] == NatToString(n);
    NatToStringRoundTrip(n);
  }

  /** The text has one of the other forms: no digits, another character than
      a digit before the last, or no letter at the end. */
  lemma {:induction false} GradeKeyNone(s: string)
    ensures GradeKey(s).None? <==> |s| < 2 || !IsLetter(s[|s| - 1]) || exists i :: 0 <= i < |s| - 1 && !IsDigit(s[i])
  {
    if |s| >= 2 {
      assert forall i :: 0 <= i < |s| - 1 ==> s[..|s| - 1][i] == s[i];
    }
  }

  /** Number first, then letter. */
  predicate KeyBefore(p: (nat, char), q: (nat, char))
  {
    p.0 < q.0 || (p.0 == q.0 && p.1 < q.1)
  }

  /** The comparator, as a sign. */
  function GradeCompare(a: string, b: string): (r: int)
    ensures GradeKey(a).Some? && GradeKey(b).Some? ==>
      (r < 0 <==> KeyBefore(GradeKey(a).value, GradeKey(b).value))
      && (r == 0 <==> GradeKey(a) == GradeKey(b))
    ensures GradeKey(a).None? || GradeKey(b).None? ==>
      (r < 0 <==> StrLe(a, b) && a != b) && (r == 0 <==> a == b)
  {
    match (GradeKey(a), GradeKey(b))
    case (Some(ka), Some(kb)) =>
      if ka.0 != kb.0 then ka.0 - kb.0 else Compare([ka.1], [kb.1])
    case _ => Compare(a, b)
  }

  /** The comparator as "may stay before". */
  function GradeLe(): (string, string) -> bool
  {
    (a: string, b: string) => GradeCompare(a, b) <= 0
  }

  /** Swapping the arguments flips the sign. */
  lemma {:induction false} GradeCompareAntisymmetric(a: string, b: string)
    ensures GradeCompare(a, b) < 0 <==> GradeCompare(b, a) > 0
  {
    StrLeAntisymmetric(a, b);
  }

  /** "9A" comes before "10A", where plain string comparison puts it after. */
  lemma {:induction false} NineBeforeTen()
    ensures GradeCompare("9A", "10A") < 0
    ensures Compare("9A", "10A") > 0
  {
    OneDigitGrade('9', 'A');
    TwoDigitGrade('1', '0', 'A');
    assert StrLe("10A", "9A");
  }

  /** Leading zeros do not count: "09A" and "9A" tie, and the sort keeps
      them in their input order. */
  lemma {:induction false} LeadingZeroTies()
    ensures GradeCompare("09A", "9A") == 0
  {
    TwoDigitGrade('0', '9', 'A');
    OneDigitGrade('9', 'A');
  }

  /** On keys of the digits-and-letter form the comparator is a total
      preorder. */
  lemma {:induction false} KeyedTotalPreorder(s: seq<string>)
    requires forall g :: g in s ==> GradeKey(g).Some?
    ensures TotalOn(GradeLe(), s) && TransitiveOn(GradeLe(), s)
  {
  }

  /** Mixing the two forms breaks transitivity: "9A" before "10A" by
      number, "10A" before "9" and "9" before "9A" as text, yet "10A" does
      not come before "9A". */
  lemma {:induction false} MixedKeysNotTransitive()
    ensures GradeLe()("9A", "10A") && GradeLe()("10A", "9") && GradeLe()("9", "9A")
    ensures !GradeLe()("10A", "9A")
  {
    NineBeforeTen();
    assert GradeKey("9").None?;
    assert StrLe("10A", "9");
    assert StrLe("", "A");
    assert StrLe("9", "9A");
  }

  /** Grades of the digits-and-letter form come out of the sort in order
      of number and then letter, and none is lost or added. */
  lemma {:induction false} KeyedGradesSorted(keys: seq<string>)
    requires forall g :: g in keys ==> GradeKey(g).Some?
    ensures SortedBy(SortBy(keys, GradeLe()), GradeLe())
    ensures multiset(SortBy(keys, GradeLe())) == multiset(keys)
  {
    KeyedTotalPreorder(keys);
    SortBySortedOn(keys, GradeLe());
  }

  /** The fixed grade list of the assignment dialog. */
  const Grades: seq<string> := ["6A", "6B", "6C", "7A", "7B", "7C", "8A", "8B", "8C",
                                "9A", "9B", "9C", "10A", "10B", "10C", "11A", "11B", "11C"]

  /** The list is already in order, so sorting it changes nothing. */
  lemma {:induction false} GradesAlreadySorted()
    ensures SortedBy(Grades, GradeLe())
    ensures SortBy(Grades, GradeLe()) == Grades
  {
    GradesKeyed();
    GradesNeighbours();
    KeyedTotalPreorder(Grades);
    SortedFromNeighbours(Grades, GradeLe());
    SortBySortedInput(Grades, GradeLe());
  }

  lemma {:induction false} OneDigitGrade(d: char, c: char)
    requires IsDigit(d) && IsLetter(c)
    ensures GradeKey([d, c]) == Some((d as int - '0' as int, c))
  {
    assert [d, c][..1] == [d];
    assert DigitsValue([d]) == DigitsValue([]) * 10 + (d as int - '0' as int) by {
      assert [d][..0] == [];
    }
  }

  lemma {:induction false} TwoDigitGrade(d: char, e: char, c: char)
    requires IsDigit(d) && IsDigit(e) && IsLetter(c)
    ensures GradeKey([d, e, c]) == Some(((d as int - '0' as int) * 10 + (e as int - '0' as int), c))
  {
    assert [d, e, c][..2] == [d, e];
    assert [d, e][..1] == [d];
    assert [d][..0] == [];
    assert AllDigits([d, e]);
    assert DigitsValue([d]) == d as int - '0' as int;
    assert DigitsValue([d, e]) == DigitsValue([d]) * 10 + (e as int - '0' as int);
  }

  /** The number and letter of each one-digit grade of the list. */
  lemma {:induction false} KeysOfOneDigitGrades()
    ensures forall i :: 0 <= i < 12 ==>
      GradeKey(Grades[i]).Some? && GradeKey(Grades[i]).value.0 == 6 + i / 3 && GradeKey(Grades[i]).value.1 == "ABC"[i % 3]
  {
    OneDigitGrade('6', 'A'); OneDigitGrade('6', 'B'); OneDigitGrade('6', 'C');
    OneDigitGrade('7', 'A'); OneDigitGrade('7', 'B'); OneDigitGrade('7', 'C');
    OneDigitGrade('8', 'A'); OneDigitGrade('8', 'B'); OneDigitGrade('8', 'C');
    OneDigitGrade('9', 'A'); OneDigitGrade('9', 'B'); OneDigitGrade('9', 'C');
  }

  /** The number and letter of each two-digit grade of the list. */
  lemma {:induction false} KeysOfTwoDigitGrades()
    ensures forall i :: 12 <= i < |Grades| ==>
      GradeKey(Grades[i]).Some? && GradeKey(Grades[i]).value.0 == 6 + i / 3 && GradeKey(Grades[i]).value.1 == "ABC"[i % 3]
  {
    TwoDigitGrade('1', '0', 'A'); TwoDigitGrade('1', '0', 'B'); TwoDigitGrade('1', '0', 'C');
    TwoDigitGrade('1', '1', 'A'); TwoDigitGrade('1', '1', 'B'); TwoDigitGrade('1', '1', 'C');
  }

  /** The number and letter of each grade of the list. */
  lemma {:induction false} KeysOfGrades()
    ensures forall i :: 0 <= i < |Grades| ==>
      GradeKey(Grades[i]).Some? && GradeKey(Grades[i]).value.0 == 6 + i / 3 && GradeKey(Grades[i]).value.1 == "ABC"[i % 3]
  {
    KeysOfOneDigitGrades();
    KeysOfTwoDigitGrades();
  }

  /** Every grade of the list has the digits-and-letter form. */
  lemma {:induction false} GradesKeyed()
    ensures forall g :: g in Grades ==> GradeKey(g).Some?
  {
    KeysOfGrades();
  }

  /** Neighbours in the list are in order. */
  lemma {:induction false} GradesNeighbours()
    ensures forall i :: 0 <= i < |Grades| - 1 ==> GradeLe()(Grades[i], Grades[i + 1])
  {
    KeysOfGrades();
    forall i | 0 <= i < |Grades| - 1 ensures GradeLe()(Grades[i], Grades[i + 1]) {
      assert KeyBefore(GradeKey(Grades[i]).value, GradeKey(Grades[i + 1]).value);
    }
  }
}
