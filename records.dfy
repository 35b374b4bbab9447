/** Insertion-ordered key/value collections: a JavaScript `Map`, or a plain
    object used as a dictionary (`Record<string, T>`). Both keep their keys
    in insertion order, `set` on a present key replaces the value in place
    and `set` on a new key appends it. */
module Records {
  import opened Wrappers
  import opened Seqs

  /** The keys, in insertion order (`Object.keys`, `Map.prototype.keys`). */
  function Keys<K, V>(m: seq<(K, V)>): (ks: seq<K>)
    ensures |ks| == |m|
    ensures forall i :: 0 <= i < |m| ==> ks[i] == m[i].0
  {
    if m == [] then [] else [m[0].0] + Keys(m[1..])
  }

  /** The values, in key order (`Object.values`). */
  function Values<K, V>(m: seq<(K, V)>): (vs: seq<V>)
    ensures |vs| == |m|
    ensures forall i :: 0 <= i < |m| ==> vs[i] == m[i].1
  {
    if m == [] then [] else [m[0].1] + Values(m[1..])
  }

  /** A well-formed collection holds every key once. */
  predicate Valid<K(==), V>(m: seq<(K, V)>)
  {
    NoDups(Keys(m))
  }

  /** `m.get(k)` / `m[k]`: the value stored under `k`, if any. */
  function Get<K(==), V>(m: seq<(K, V)>, k: K): (r: Option<V>)
    ensures r.None? <==> k !in Keys(m)
  {
    if m == [] then None
    else if m[0].0 == k then Some(m[0].1)
    else
      assert Keys(m) == [m[0].0] + Keys(m[1..]);
      Get(m[1..], k)
  }

  /** A value found under a key is stored in the collection under that key. */
  lemma {:induction false} GetFound<K, V>(m: seq<(K, V)>, k: K)
    requires Get(m, k).Some?
    ensures (k, Get(m, k).value) in m
  {
    if m[0].0 != k {
      GetFound(m[1..], k);
    }
  }

  /** `m.get(k) || d`: the value under `k`, or `d` when there is none. */
  function GetOr<K(==), V>(m: seq<(K, V)>, k: K, d: V): V
  {
    match Get(m, k)
    case Some(v) => v
    case None => d
  }

  /** In a well-formed collection, the value at a key's position is the one `Get` finds. */
  lemma {:induction false} GetAt<K, V>(m: seq<(K, V)>, i: nat)
    requires Valid(m) && i < |m|
    ensures Get(m, m[i].0) == Some(m[i].1)
  {
    if i > 0 {
      assert Keys(m)[0] != Keys(m)[i];
      assert Keys(m[1..]) == Keys(m)[1..];
      GetAt(m[1..], i - 1);
    }
  }

  /** `m.set(k, v)`: replaces the value of a present key where it stands,
      or appends a new key at the end. */
  function Set<K(==,!new), V>(m: seq<(K, V)>, k: K, v: V): (r: seq<(K, V)>)
    ensures Keys(r) == if k in Keys(m) then Keys(m) else Keys(m) + [k]
    ensures Get(r, k) == Some(v)
    ensures forall k' :: k' != k ==> Get(r, k') == Get(m, k')
  {
    if m == [] then [(k, v)]
    else if m[0].0 == k then [(k, v)] + m[1..]
    else
      var t := Set(m[1..], k, v);
      var r := [m[0]] + t;
      assert r[0] == m[0] && r[1..] == t;
      assert Keys(r) == [m[0].0] + Keys(t);
      assert Keys(m) == [m[0].0] + Keys(m[1..]);
      r
  }

  /** Reading back after `Set`: the new value under the key set, the old
      one under any other key. */
  lemma {:induction false} SetGetOr<K(!new), V>(m: seq<(K, V)>, k: K, v: V, k': K, d: V)
    ensures GetOr(Set(m, k, v), k', d) == if k' == k then v else GetOr(m, k', d)
  {
  }

  /** Setting keeps a collection well formed. */
  lemma {:induction false} SetValid<K(!new), V>(m: seq<(K, V)>, k: K, v: V)
    requires Valid(m)
    ensures Valid(Set(m, k, v))
  {
    var ks := Keys(m);
    if k !in ks {
      var ks' := ks + [k];
      forall i, j | 0 <= i < j < |ks'| ensures ks'[i] != ks'[j] {
        if j < |ks| { assert ks'[i] == ks[i] && ks'[j] == ks[j]; }
        else { assert ks'[i] == ks[i] && ks'[j] == k; }
      }
    }
  }

  /** `new Map(pairs)`: the pairs are set one after another, so a later
      pair overwrites an earlier one with the same key. */
  function FromPairs<K(==,!new), V>(ps: seq<(K, V)>): seq<(K, V)>
  {
    if ps == [] then []
    else
      var last := ps[|ps| - 1];
      Set(FromPairs(ps[..|ps| - 1]), last.0, last.1)
  }

  /** `new Map(pairs)` holds each key once. */
  lemma {:induction false} FromPairsValid<K(!new), V>(ps: seq<(K, V)>)
    ensures Valid(FromPairs(ps))
  {
    if ps != [] {
      var last := ps[|ps| - 1];
      FromPairsValid(ps[..|ps| - 1]);
      SetValid(FromPairs(ps[..|ps| - 1]), last.0, last.1);
    }
  }

  /** The keys of the pairs without the last pair are the keys without the
      last key. */
  lemma {:induction false} KeysInit<K, V>(ps: seq<(K, V)>)
    requires ps != []
    ensures Keys(ps)[..|ps| - 1] == Keys(ps[..|ps| - 1])
  {
    var ks, ks' := Keys(ps)[..|ps| - 1], Keys(ps[..|ps| - 1]);
    forall i | 0 <= i < |ks| ensures ks[i] == ks'[i] {
    }
  }

  /** The keys of `new Map(pairs)` are the pairs' keys in order of first
      appearance. */
  lemma {:induction false} FromPairsKeys<K(!new), V>(ps: seq<(K, V)>)
    ensures Keys(FromPairs(ps)) == Dedupe(Keys(ps))
  {
    if ps != [] {
      var init, last := ps[..|ps| - 1], ps[|ps| - 1];
      var m := FromPairs(init);
      FromPairsKeys(init);
      KeysInit(ps);
      calc {
        Keys(FromPairs(ps));
        Keys(Set(m, last.0, last.1));
        if last.0 in Keys(m) then Keys(m) else Keys(m) + [last.0];
        if last.0 in Dedupe(Keys(init)) then Dedupe(Keys(init)) else Dedupe(Keys(init)) + [last.0];
        Dedupe(Keys(ps));
      }
    }
  }

  /** A key is in `new Map(pairs)` exactly when some pair has it. */
  lemma {:induction false} FromPairsHas<K(!new), V>(ps: seq<(K, V)>, k: K)
    ensures Get(FromPairs(ps), k).Some? <==> k in Keys(ps)
  {
    FromPairsKeys(ps);
  }

  /** The value of the last pair with key `k`, if any. */
  function LastValue<K(==), V>(ps: seq<(K, V)>, k: K): Option<V>
  {
    if ps == [] then None
    else if ps[|ps| - 1].0 == k then Some(ps[|ps| - 1].1)
    else LastValue(ps[..|ps| - 1], k)
  }

  /** `new Map(pairs).get(k)` is the value of the last pair with key `k`. */
  lemma {:induction false} FromPairsGet<K(!new), V>(ps: seq<(K, V)>, k: K)
    ensures Get(FromPairs(ps), k) == LastValue(ps, k)
  {
    if ps != [] {
      FromPairsGet(ps[..|ps| - 1], k);
    }
  }

  /** The value under a key is the one of the last pair with that key. */
  lemma {:induction false} FromPairsLast<K(!new), V>(ps: seq<(K, V)>, i: nat)
    requires i < |ps| && forall j :: i < j < |ps| ==> ps[j].0 != ps[i].0
    ensures Get(FromPairs(ps), ps[i].0) == Some(ps[i].1)
  {
    FromPairsGet(ps, ps[i].0);
    LastValueAt(ps, i);
  }

  lemma {:induction false} LastValueAt<K, V>(ps: seq<(K, V)>, i: nat)
    requires i < |ps| && forall j :: i < j < |ps| ==> ps[j].0 != ps[i].0
    ensures LastValue(ps, ps[i].0) == Some(ps[i].1)
  {
    var n := |ps| - 1;
    if i < n {
      var init := ps[..n];
      assert init[i] == ps[i];
      assert ps[n].0 != ps[i].0;
      LastValueAt(init, i);
    }
  }

  /** Setting a key twice keeps only the second value. */
  lemma {:induction false} SetTwice<K(!new), V>(m: seq<(K, V)>, k: K, v: V, w: V)
    ensures Set(Set(m, k, v), k, w) == Set(m, k, w)
  {
    if m != [] && m[0].0 != k {
      var t := Set(m[1..], k, v);
      assert Set(m, k, v) == [m[0]] + t;
      assert ([m[0]] + t)[1..] == t;
      SetTwice(m[1..], k, v, w);
    }
  }

  /** Looking a key other than the last one up in all but the last entry. */
  lemma {:induction false} GetInit<K, V>(m: seq<(K, V)>, k: K)
    requires m != [] && m[|m| - 1].0 != k
    ensures Get(m, k) == Get(m[..|m| - 1], k)
  {
    if |m| > 1 && m[0].0 != k {
      assert m[1..][..|m| - 2] == m[..|m| - 1][1..];
      GetInit(m[1..], k);
    }
  }

  /** Dropping the last entry of a well-formed collection keeps it well
      formed, and its key is not among the others. */
  lemma {:induction false} ValidInit<K, V>(m: seq<(K, V)>)
    requires Valid(m) && m != []
    ensures Valid(m[..|m| - 1])
    ensures m[|m| - 1].0 !in Keys(m[..|m| - 1])
  {
    var init := m[..|m| - 1];
    var ks := Keys(m);
    assert Keys(init) == ks[..|m| - 1];
    assert NoDups(Keys(init)) by {
      forall i, j | 0 <= i < j < |init| ensures Keys(init)[i] != Keys(init)[j] {
        assert Keys(init)[i] == ks[i] && Keys(init)[j] == ks[j];
      }
    }
    assert m[|m| - 1].0 !in Keys(init) by {
      forall i | 0 <= i < |init| ensures Keys(init)[i] != m[|m| - 1].0 {
        assert Keys(init)[i] == ks[i] && ks[|m| - 1] == m[|m| - 1].0;
      }
    }

  }
}
