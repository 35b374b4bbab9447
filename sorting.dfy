/** `Array.prototype.sort` with a comparator, as a function on sequences.
    The comparator is given as a "less than or equal" relation `le`; the
    sort is an insertion sort that places an element before the first
    element it is `le` to, so elements the comparator ties keep their
    input order, as the stable sort of the JavaScript runtime does. */
module Sorting {
  import opened Seqs

  /** Any two elements are comparable. */
  ghost predicate Total<T(!new)>(le: (T, T) -> bool)
  {
    forall a, b :: le(a, b) || le(b, a)
  }

  ghost predicate Transitive<T(!new)>(le: (T, T) -> bool)
  {
    forall a, b, c :: le(a, b) && le(b, c) ==> le(a, c)
  }

  /** Every element is `le` to every later element. */
  predicate SortedBy<T>(s: seq<T>, le: (T, T) -> bool)
  {
    forall i, j :: 0 <= i < j < |s| ==> le(s[i], s[j])
  }

  /** `x` placed before the first element of `s` that it is `le` to. */
  function Insert<T>(x: T, s: seq<T>, le: (T, T) -> bool): (r: seq<T>)
    ensures multiset(r) == multiset(s) + multiset{x}
    ensures |r| == |s| + 1
  {
    if s == [] then [x]
    else if le(x, s[0]) then [x] + s
    else
      var t := Insert(x, s[1..], le);
      assert s == [s[0]] + s[1..];
      [s[0]] + t
  }

  /** The sorted sequence. */
  function SortBy<T>(s: seq<T>, le: (T, T) -> bool): (r: seq<T>)
    ensures multiset(r) == multiset(s)
    ensures |r| == |s|
  {
    if s == [] then []
    else
      assert s == [s[0]] + s[1..];
      Insert(s[0], SortBy(s[1..], le), le)
  }

  /** Any two elements of `s` are comparable. */
  ghost predicate TotalOn<T>(le: (T, T) -> bool, s: seq<T>)
  {
    forall a, b :: a in s && b in s ==> le(a, b) || le(b, a)
  }

  /** `le` is transitive on the elements of `s`. */
  ghost predicate TransitiveOn<T>(le: (T, T) -> bool, s: seq<T>)
  {
    forall a, b, c :: a in s && b in s && c in s && le(a, b) && le(b, c) ==> le(a, c)
  }

  lemma {:induction false} InsertSorted<T>(x: T, s: seq<T>, le: (T, T) -> bool)
    requires TotalOn(le, [x] + s) && TransitiveOn(le, [x] + s)
    requires SortedBy(s, le)
    ensures SortedBy(Insert(x, s, le), le)
  {
    if s != [] && !le(x, s[0]) {
      var t := Insert(x, s[1..], le);
      assert forall y :: y in [x] + s[1..] ==> y in [x] + s;
      InsertSorted(x, s[1..], le);
      var r := [s[0]] + t;
      assert le(s[0], x);
      forall j | 0 < j < |r| ensures le(r[0], r[j]) {
        assert r[j] in multiset(t);
        assert r[j] in multiset(s[1..]) + multiset{x};
        if r[j] in multiset(s[1..]) {
          var k :| 0 <= k < |s[1..]| && s[1..][k] == r[j];
          assert s[k + 1] == r[j];
        }
      }
    } else if s != [] {
      var r := [x] + s;
      forall j | 0 < j < |r| ensures le(r[0], r[j]) {
        assert r[j] == s[j - 1];
        if j > 1 { assert le(s[0], s[j - 1]); }
      }
    }
  }

  /** With a comparator total and transitive on the elements, the result is
      sorted. */
  lemma {:induction false} SortBySortedOn<T>(s: seq<T>, le: (T, T) -> bool)
    requires TotalOn(le, s) && TransitiveOn(le, s)
    ensures SortedBy(SortBy(s, le), le)
  {
    if s != [] {
      var t := SortBy(s[1..], le);
      assert forall y :: y in s[1..] ==> y in s;
      SortBySortedOn(s[1..], le);
      assert forall y :: y in [s[0]] + t ==> y in s by {
        forall y | y in [s[0]] + t ensures y in s {
          if y != s[0] {
            assert y in multiset(t);
          }
        }
      }
      InsertSorted(s[0], t, le);
    }
  }

  /** With a total, transitive comparator the result is sorted. */
  lemma {:induction false} SortBySorted<T(!new)>(s: seq<T>, le: (T, T) -> bool)
    requires Total(le) && Transitive(le)
    ensures SortedBy(SortBy(s, le), le)
  {
    SortBySortedOn(s, le);
  }

  /** A sequence whose neighbours are in order is in order, when the
      comparator is transitive on its elements. */
  lemma {:induction false} SortedFromNeighbours<T>(s: seq<T>, le: (T, T) -> bool)
    requires TransitiveOn(le, s)
    requires forall i :: 0 <= i < |s| - 1 ==> le(s[i], s[i + 1])
    ensures SortedBy(s, le)
  {
    if |s| > 1 {
      var init := s[..|s| - 1];
      assert forall y :: y in init ==> y in s;
      SortedFromNeighbours(init, le);
      forall i, j | 0 <= i < j < |s| ensures le(s[i], s[j]) {
        if j < |s| - 1 {
          assert le(init[i], init[j]);
        } else if i < j - 1 {
          assert le(init[i], init[j - 1]);
          assert le(s[j - 1], s[j]);
        }
      }
    }
  }

  /** A sequence that is already in order is left as it is. */
  lemma {:induction false} SortBySortedInput<T>(s: seq<T>, le: (T, T) -> bool)
    requires SortedBy(s, le)
    ensures SortBy(s, le) == s
  {
    if s != [] {
      assert SortedBy(s[1..], le) by {
        forall i, j | 0 <= i < j < |s[1..]| ensures le(s[1..][i], s[1..][j]) {
          assert s[1..][i] == s[i + 1] && s[1..][j] == s[j + 1];
        }
      }
      SortBySortedInput(s[1..], le);
      if |s| > 1 {
        assert le(s[0], s[1]);
        assert s == [s[0]] + s[1..];
      }
    }
  }

  /** Sorting keeps an element's membership. */
  lemma {:induction false} SortByMembers<T>(s: seq<T>, le: (T, T) -> bool, x: T)
    ensures x in SortBy(s, le) <==> x in s
  {
    var r := SortBy(s, le);
    assert x in r <==> x in multiset(r);
    assert x in s <==> x in multiset(s);
  }

  lemma {:induction false} MultisetNoDups<T>(s: seq<T>, x: T)
    requires NoDups(s)
    ensures multiset(s)[x] <= 1
  {
    if s != [] {
      var init := s[..|s| - 1];
      assert s == init + [s[|s| - 1]];
      assert NoDups(init);
      MultisetNoDups(init, x);
      if x == s[|s| - 1] {
        assert x !in init;
        assert multiset(init)[x] == 0;
      }
    }
  }

  lemma {:induction false} MultisetRepeat<T>(t: seq<T>, i: nat, j: nat)
    requires i < j < |t| && t[i] == t[j]
    ensures multiset(t)[t[i]] >= 2
  {
    assert t == t[..j] + [t[j]] + t[j + 1..];
    assert t[i] in t[..j];
    assert multiset(t[..j])[t[i]] >= 1;
  }

  /** Reordering keeps distinct keys distinct. */
  lemma {:induction false} PermutationDistinctKeys<T, K>(s: seq<T>, t: seq<T>, key: T -> K)
    requires multiset(s) == multiset(t)
    requires forall p, q :: 0 <= p < q < |s| ==> key(s[p]) != key(s[q])
    ensures forall i, j :: 0 <= i < j < |t| ==> key(t[i]) != key(t[j])
  {
    forall i, j | 0 <= i < j < |t| ensures key(t[i]) != key(t[j]) {
      assert t[i] in multiset(s) && t[j] in multiset(s);
      var p :| 0 <= p < |s| && s[p] == t[i];
      var q :| 0 <= q < |s| && s[q] == t[j];
      if t[i] == t[j] {
        assert NoDups(s) by {
          forall a, b | 0 <= a < b < |s| ensures s[a] != s[b] {
            assert key(s[a]) != key(s[b]);
          }
        }
        MultisetNoDups(s, t[i]);
        MultisetRepeat(t, i, j);
      } else {
        assert p != q;
        if p > q { assert key(s[q]) != key(s[p]); }
      }
    }
  }
}
