/** Sequence helpers shared by the model: first index, occurrence count,
    order-preserving filter and first-occurrence de-duplication (what
    `new Set(array)` followed by `Array.from` gives in JavaScript). */
module Seqs {

  /** Index of the first occurrence of `x` in `s`. */
  function FirstIndex<T(==)>(s: seq<T>, x: T): (i: nat)
    requires x in s
    ensures i < |s| && s[i] == x && x !in s[..i]
  {
    if s[0] == x then 0 else FirstIndex(s[1..], x) + 1
  }

  /** Number of occurrences of `x` in `s`. */
  function Count<T(==)>(s: seq<T>, x: T): nat
  {
    if s == [] then 0
    else Count(s[..|s| - 1], x) + (if s[|s| - 1] == x then 1 else 0)
  }

  lemma {:induction false} CountZero<T>(s: seq<T>, x: T)
    ensures Count(s, x) == 0 <==> x !in s
  {
    if s != [] {
      CountZero(s[..|s| - 1], x);
      assert s == s[..|s| - 1] + [s[|s| - 1]];
    }
  }

  lemma {:induction false} CountAppend<T>(a: seq<T>, b: seq<T>, x: T)
    ensures Count(a + b, x) == Count(a, x) + Count(b, x)
  {
    if b != [] {
      assert (a + b)[..|a + b| - 1] == a + b[..|b| - 1];
      CountAppend(a, b[..|b| - 1], x);
    } else {
      assert a + b == a;
    }
  }

  lemma {:induction false} CountBound<T>(s: seq<T>, x: T)
    ensures Count(s, x) <= |s|
  {
    if s != [] { CountBound(s[..|s| - 1], x); }
  }

  predicate NoDups<T(==)>(s: seq<T>)
  {
    forall i, j :: 0 <= i < j < |s| ==> s[i] != s[j]
  }

  /** Elements of `s` in the order of their first occurrence, each once. */
  function Dedupe<T(==,!new)>(s: seq<T>): (r: seq<T>)
    ensures forall x :: x in r <==> x in s
    ensures NoDups(r)
    ensures |r| <= |s|
  {
    if s == [] then []
    else
      var d := Dedupe(s[..|s| - 1]);
      if s[|s| - 1] in d then d else d + [s[|s| - 1]]
  }

  lemma {:induction false} DedupeAppend<T(!new)>(s: seq<T>, x: T)
    ensures Dedupe(s + [x]) == if x in s then Dedupe(s) else Dedupe(s) + [x]
  {
    assert (s + [x])[..|s + [x]| - 1] == s;
  }

  lemma {:induction false} DedupeOfNoDups<T(!new)>(s: seq<T>)
    requires NoDups(s)
    ensures Dedupe(s) == s
  {
    if s != [] {
      var init := s[..|s| - 1];
      DedupeOfNoDups(init);
      assert s[|s| - 1] !in init;
      assert s == init + [s[|s| - 1]];
    }
  }

  /** The order `Dedupe` produces is the order of first occurrence. */
  lemma {:induction false} DedupeFirstOccurrenceOrder<T(!new)>(s: seq<T>, i: nat, j: nat)
    requires i < j < |Dedupe(s)|
    ensures FirstIndex(s, Dedupe(s)[i]) < FirstIndex(s, Dedupe(s)[j])
  {
    var init := s[..|s| - 1];
    var last := s[|s| - 1];
    var d := Dedupe(init);
    assert s == init + [last];
    FirstIndexPrefix(init, last, Dedupe(s)[i]);
    if last in d {
      FirstIndexPrefix(init, last, Dedupe(s)[j]);
      DedupeFirstOccurrenceOrder(init, i, j);
    } else if j < |d| {
      FirstIndexPrefix(init, last, Dedupe(s)[j]);
      DedupeFirstOccurrenceOrder(init, i, j);
    } else {
      assert Dedupe(s)[j] == last && last !in init;
      FirstIndexLast(init, last);
    }
  }

  lemma {:induction false} FirstIndexPrefix<T>(init: seq<T>, last: T, x: T)
    requires x in init
    ensures FirstIndex(init + [last], x) == FirstIndex(init, x)
  {
    var k := FirstIndex(init, x);
    var k' := FirstIndex(init + [last], x);
    assert (init + [last])[..k] == init[..k];
    assert (init + [last])[k] == x;
  }

  lemma {:induction false} FirstIndexLast<T>(init: seq<T>, last: T)
    requires last !in init
    ensures FirstIndex(init + [last], last) == |init|
  {
    assert (init + [last])[..|init|] == init;
  }

  /** In `a + [x] + b` with `x` not in `a`, the first `x` is the one after `a`. */
  lemma {:induction false} FirstIndexAfter<T>(a: seq<T>, x: T, b: seq<T>)
    requires x !in a
    ensures x in a + [x] + b
    ensures FirstIndex(a + [x] + b, x) == |a|
    ensures (a + [x] + b)[..|a|] == a && (a + [x] + b)[|a| + 1..] == b
  {
    var s := a + [x] + b;
    assert s[|a|] == x;
    assert s[..|a|] == a;
    assert s[|a| + 1..] == b;
  }

  /** Order-preserving filter, as `Array.prototype.filter` does. */
  function Filter<T(!new)>(s: seq<T>, p: T -> bool): (r: seq<T>)
    ensures |r| <= |s|
    ensures forall x :: x in r <==> x in s && p(x)
  {
    if s == [] then []
    else Filter(s[..|s| - 1], p) + (if p(s[|s| - 1]) then [s[|s| - 1]] else [])
  }

  lemma {:induction false} FilterAppend<T(!new)>(a: seq<T>, b: seq<T>, p: T -> bool)
    ensures Filter(a + b, p) == Filter(a, p) + Filter(b, p)
  {
    if b != [] {
      assert (a + b)[..|a + b| - 1] == a + b[..|b| - 1];
      FilterAppend(a, b[..|b| - 1], p);
    } else {
      assert a + b == a;
    }
  }

  /** Two complementary filters split a sequence without loss. */
  lemma {:induction false} FilterPartition<T(!new)>(s: seq<T>, p: T -> bool, q: T -> bool)
    requires forall i :: 0 <= i < |s| ==> q(s[i]) == !p(s[i])
    ensures |Filter(s, p)| + |Filter(s, q)| == |s|
  {
    if s != [] {
      var init := s[..|s| - 1];
      assert forall i :: 0 <= i < |init| ==> init[i] == s[i];
      FilterPartition(init, p, q);
    }
  }

  /** Two tests that agree on every element select the same elements. */
  lemma {:induction false} FilterAgree<T(!new)>(s: seq<T>, p: T -> bool, q: T -> bool)
    requires forall i :: 0 <= i < |s| ==> q(s[i]) == p(s[i])
    ensures Filter(s, p) == Filter(s, q)
  {
    if s != [] {
      var init := s[..|s| - 1];
      assert forall i :: 0 <= i < |init| ==> init[i] == s[i];
      FilterAgree(init, p, q);
    }
  }

  /** A test no element passes selects nothing. */
  lemma {:induction false} FilterNone<T(!new)>(s: seq<T>, p: T -> bool)
    requires forall i :: 0 <= i < |s| ==> !p(s[i])
    ensures Filter(s, p) == []
  {
    if s != [] {
      var init := s[..|s| - 1];
      assert forall i :: 0 <= i < |init| ==> init[i] == s[i];
      FilterNone(init, p);
    }
  }

  /** `a` is `b` with some elements left out, in their original order. */
  predicate IsSubsequence<T(==)>(a: seq<T>, b: seq<T>)
    decreases |b|
  {
    if a == [] then true
    else if b == [] then false
    else if a[|a| - 1] == b[|b| - 1] then IsSubsequence(a[..|a| - 1], b[..|b| - 1])
    else IsSubsequence(a, b[..|b| - 1])
  }

  lemma {:induction false} FilterIsSubsequence<T(!new)>(s: seq<T>, p: T -> bool)
    ensures IsSubsequence(Filter(s, p), s)
  {
    if s != [] {
      var init := s[..|s| - 1];
      FilterIsSubsequence(init, p);
      var f := Filter(init, p);
      if p(s[|s| - 1]) {
        assert Filter(s, p) == f + [s[|s| - 1]];
        assert (f + [s[|s| - 1]])[..|f|] == f;
      } else {
        assert Filter(s, p) == f;
        if f != [] { SubsequenceExtend(f, init, s[|s| - 1]); }
      }
    }
  }

  lemma {:induction false} SubsequenceExtend<T>(a: seq<T>, b: seq<T>, x: T)
    requires IsSubsequence(a, b)
    ensures IsSubsequence(a, b + [x])
    decreases |b|, 1
  {
    if a != [] {
      assert (b + [x])[..|b|] == b;
      if a[|a| - 1] == x {
        assert b != [];
        SubsequenceDropLast(a, b);
      }
    }
  }

  /** A subsequence of a subsequence. */
  lemma {:induction false} SubsequenceTrans<T>(a: seq<T>, b: seq<T>, c: seq<T>)
    requires IsSubsequence(a, b) && IsSubsequence(b, c)
    ensures IsSubsequence(a, c)
    decreases |c|
  {
    if a != [] && b != [] && c != [] {
      var b' := b[..|b| - 1];
      var c' := c[..|c| - 1];
      if b[|b| - 1] == c[|c| - 1] {
        if a[|a| - 1] == b[|b| - 1] {
          SubsequenceTrans(a[..|a| - 1], b', c');
        } else {
          SubsequenceTrans(a, b', c');
          SubsequenceExtend(a, c', c[|c| - 1]);
          assert c' + [c[|c| - 1]] == c;
        }
      } else {
        SubsequenceTrans(a, b, c');
        SubsequenceExtend(a, c', c[|c| - 1]);
        assert c' + [c[|c| - 1]] == c;
      }
    }
  }

  /** Putting an element in front of both sides, or only in front of the
      longer one, keeps a subsequence. */
  lemma {:induction false} SubsequenceCons<T>(a: seq<T>, b: seq<T>, x: T, both: bool)
    requires IsSubsequence(a, b)
    ensures IsSubsequence((if both then [x] else []) + a, [x] + b)
    decreases |b|
  {
    var a' := (if both then [x] else []) + a;
    if a != [] && b != [] {
      if a[|a| - 1] == b[|b| - 1] {
        SubsequenceCons(a[..|a| - 1], b[..|b| - 1], x, both);
        assert a'[..|a'| - 1] == (if both then [x] else []) + a[..|a| - 1];
        assert ([x] + b)[..|b|] == [x] + b[..|b| - 1];
      } else {
        SubsequenceCons(a, b[..|b| - 1], x, both);
        assert ([x] + b)[..|b|] == [x] + b[..|b| - 1];
      }
    } else if a == [] {
      if both {
        assert a' == [x];
        SubsequenceOfSingleton(x, b);
      } else {
        assert a' == [];
      }
    }
  }

  /** A one-element sequence is a subsequence of anything it starts. */
  lemma {:induction false} SubsequenceOfSingleton<T>(x: T, b: seq<T>)
    ensures IsSubsequence([x], [x] + b)
    decreases |b|
  {
    if b != [] {
      assert ([x] + b)[..|b|] == [x] + b[..|b| - 1];
      if x != b[|b| - 1] {
        SubsequenceOfSingleton(x, b[..|b| - 1]);
      }
    }
  }

  lemma {:induction false} SubsequenceDropLast<T>(a: seq<T>, b: seq<T>)
    requires a != [] && IsSubsequence(a, b)
    ensures IsSubsequence(a[..|a| - 1], b)
    decreases |b|, 0
  {
    var init := b[..|b| - 1];
    if a[|a| - 1] == b[|b| - 1] {
      if a[..|a| - 1] != [] { SubsequenceExtend(a[..|a| - 1], init, b[|b| - 1]); }
    } else {
      SubsequenceDropLast(a, init);
      if a[..|a| - 1] != [] { SubsequenceExtend(a[..|a| - 1], init, b[|b| - 1]); }
    }
  }

  /** `Array.prototype.map`. */
  function Map<A, B>(s: seq<A>, f: A -> B): (r: seq<B>)
    ensures |r| == |s|
    ensures forall i :: 0 <= i < |s| ==> r[i] == f(s[i])
  {
    if s == [] then [] else [f(s[0])] + Map(s[1..], f)
  }

  lemma {:induction false} MapSnoc<A, B>(s: seq<A>, x: A, f: A -> B)
    ensures Map(s + [x], f) == Map(s, f) + [f(x)]
  {
    if s != [] {
      assert (s + [x])[1..] == s[1..] + [x];
      MapSnoc(s[1..], x, f);
    }
  }

  lemma {:induction false} MapInit<A, B>(s: seq<A>, f: A -> B)
    requires s != []
    ensures Map(s, f) == Map(s[..|s| - 1], f) + [f(s[|s| - 1])]
  {
    var init, x := s[..|s| - 1], s[|s| - 1];
    MapSnoc(init, x, f);
    assert init + [x] == s;
  }

  /** Sum of a sequence of integers. */
  function Sum(s: seq<int>): int
  {
    if s == [] then 0 else Sum(s[..|s| - 1]) + s[|s| - 1]
  }

  lemma {:induction false} SumAppend(a: seq<int>, b: seq<int>)
    ensures Sum(a + b) == Sum(a) + Sum(b)
  {
    if b != [] {
      assert (a + b)[..|a + b| - 1] == a + b[..|b| - 1];
      SumAppend(a, b[..|b| - 1]);
    } else {
      assert a + b == a;
    }
  }
}
