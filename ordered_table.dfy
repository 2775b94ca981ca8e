/**
 * A PHP array used as a dictionary: an ordered sequence of key/value
 * pairs.  Assigning `$a[$k] = $v` overwrites the value of an existing key
 * where it stands and appends a new key at the end.
 */
module OrderedTable {
  import opened Php

  type Table<K, V> = seq<(K, V)>

  function Keys<K, V>(t: Table<K, V>): (ks: seq<K>)
    ensures |ks| == |t|
    ensures forall i :: 0 <= i < |t| ==> ks[i] == t[i].0
  {
    seq(|t|, i requires 0 <= i < |t| => t[i].0)
  }

  function Values<K, V>(t: Table<K, V>): (vs: seq<V>)
    ensures |vs| == |t|
    ensures forall i :: 0 <= i < |t| ==> vs[i] == t[i].1
  {
    seq(|t|, i requires 0 <= i < |t| => t[i].1)
  }

  predicate Distinct<K(==)>(ks: seq<K>) {
    forall i, j :: 0 <= i < j < |ks| ==> ks[i] != ks[j]
  }

  predicate DistinctKeys<K(==), V>(t: Table<K, V>) {
    Distinct(Keys(t))
  }

  /** The empty table, which execute leaves behind, has no repeated key. */
  lemma EmptyDistinct<K, V>()
    ensures DistinctKeys<K, V>([])
  {
    assert Keys<K, V>([]) == [];
  }

  /** The position of the first occurrence of x in s, or |s| when there is none. */
  function IndexOf<K(==)>(s: seq<K>, x: K): (n: nat)
    ensures n <= |s|
    ensures n < |s| <==> x in s
    ensures n < |s| ==> s[n] == x
    ensures x !in s[..n]
  {
    if s == [] then 0
    else if s[0] == x then 0
    else
      assert s[1..][..IndexOf(s[1..], x)] == s[..IndexOf(s[1..], x) + 1][1..];
      1 + IndexOf(s[1..], x)
  }

  /** `$t[$k] ?? null`, with absence made explicit. */
  function Lookup<K(==), V>(t: Table<K, V>, k: K): Option<V> {
    var i := IndexOf(Keys(t), k);
    if i < |t| then Some(t[i].1) else None
  }

  /** `$t[$k] = $v`. */
  function Put<K(==,!new), V>(t: Table<K, V>, k: K, v: V): (r: Table<K, V>)
    ensures Lookup(r, k) == Some(v)
    ensures forall k' {:trigger Lookup(r, k')} :: k' != k ==> Lookup(r, k') == Lookup(t, k')
    ensures k in Keys(t) ==> Keys(r) == Keys(t)
    ensures k !in Keys(t) ==> r == t + [(k, v)]
    ensures DistinctKeys(t) ==> DistinctKeys(r)
  {
    var i := IndexOf(Keys(t), k);
    if i < |t| then
      var r := t[i := (k, v)];
      assert Keys(r) == Keys(t);
      r
    else
      var r := t + [(k, v)];
      assert Keys(r) == Keys(t) + [k];
      assert forall k' :: k' in Keys(t) ==> IndexOf(Keys(r), k') == IndexOf(Keys(t), k') by {
        forall k' | k' in Keys(t) ensures IndexOf(Keys(r), k') == IndexOf(Keys(t), k') {
          IndexOfAppend(Keys(t), k, k');
        }
      }
      r
  }

  /** Assigns the pairs of ps, in order, into t. */
  function PutAll<K(==,!new), V>(t: Table<K, V>, ps: Table<K, V>): Table<K, V> {
    if ps == [] then t
    else
      var last := ps[|ps| - 1];
      Put(PutAll(t, ps[..|ps| - 1]), last.0, last.1)
  }

  /** PutAll assigns the last pair last. */
  lemma PutAllSnoc<K(!new), V>(t: Table<K, V>, ps: Table<K, V>, p: (K, V))
    ensures PutAll(t, ps + [p]) == Put(PutAll(t, ps), p.0, p.1)
  {
    assert (ps + [p])[..|ps|] == ps;
  }

  lemma IndexOfAppend<K>(s: seq<K>, y: K, x: K)
    requires x in s
    ensures IndexOf(s + [y], x) == IndexOf(s, x)
  {
    if s != [] && s[0] != x {
      assert (s + [y])[1..] == s[1..] + [y];
      IndexOfAppend(s[1..], y, x);
    }
  }

  /** Every pair of an assignment's result was already there or is the assigned one. */
  lemma PutPairs<K(!new), V>(t: Table<K, V>, k: K, v: V, p: (K, V))
    requires p in Put(t, k, v)
    ensures p in t || p == (k, v)
  {
    var i := IndexOf(Keys(t), k);
    if i < |t| {
      var j :| 0 <= j < |t| && Put(t, k, v)[j] == p;
      assert Put(t, k, v) == t[i := (k, v)];
      if j != i {
        assert p == t[j];
      }
    }
  }

  /** Every pair of PutAll(t, ps) comes from t or from ps. */
  lemma {:induction false} PutAllPairs<K(!new), V>(t: Table<K, V>, ps: Table<K, V>, p: (K, V))
    requires p in PutAll(t, ps)
    ensures p in t || p in ps
  {
    if ps != [] {
      var front := ps[..|ps| - 1];
      var last := ps[|ps| - 1];
      PutPairs(PutAll(t, front), last.0, last.1, p);
      if p != last {
        PutAllPairs(t, front, p);
        assert p in front ==> p in ps;
      }
    }
  }

  /** Assigning fresh, pairwise distinct keys only appends. */
  lemma {:induction false} PutAllFresh<K(!new), V>(t: Table<K, V>, ps: Table<K, V>)
    requires DistinctKeys(t + ps)
    ensures PutAll(t, ps) == t + ps
  {
    if ps != [] {
      var front := ps[..|ps| - 1];
      var last := ps[|ps| - 1];
      assert Keys(t + front) == Keys(t + ps)[..|t| + |front|];
      PutAllFresh(t, front);
      assert Keys(t + ps)[|t| + |front|] == last.0;
      assert last.0 !in Keys(t + front);
      assert t + front + [last] == t + ps;
    }
  }

  /** The order invariant of PutAllFirstAppearance: one slot per distinct key, by first appearance. */
  ghost predicate FirstAppearanceOrder<K(!new), V>(ps: Table<K, V>, r: Table<K, V>) {
    && DistinctKeys(r)
    && (forall k :: k in Keys(r) <==> k in Keys(ps))
    && forall i, j :: 0 <= i < j < |r| ==> IndexOf(Keys(ps), r[i].0) < IndexOf(Keys(ps), r[j].0)
  }

  lemma PutKeepsFirstAppearanceOrder<K(!new), V>(front: Table<K, V>, last: (K, V), ps: Table<K, V>, r0: Table<K, V>)
    requires ps == front + [last]
    requires FirstAppearanceOrder(front, r0)
    ensures FirstAppearanceOrder(ps, Put(r0, last.0, last.1))
  {
    var kf, kp := Keys(front), Keys(front + [last]);
    assert kp == kf + [last.0];
    forall x | x in kf
      ensures IndexOf(kp, x) == IndexOf(kf, x)
    {
      IndexOfAppend(kf, last.0, x);
    }
    if last.0 in Keys(r0) {
      OverwriteKeepsOrder(front, last, r0);
    } else {
      AppendKeepsOrder(front, last, r0);
    }
  }

  lemma OverwriteKeepsOrder<K(!new), V>(front: Table<K, V>, last: (K, V), r0: Table<K, V>)
    requires FirstAppearanceOrder(front, r0)
    requires last.0 in Keys(r0)
    requires forall x :: x in Keys(front) ==> IndexOf(Keys(front + [last]), x) == IndexOf(Keys(front), x)
    ensures FirstAppearanceOrder(front + [last], Put(r0, last.0, last.1))
  {
    var r := Put(r0, last.0, last.1);
    assert Keys(r) == Keys(r0);
    assert Keys(front + [last]) == Keys(front) + [last.0];
    forall i | 0 <= i < |r| ensures r[i].0 == r0[i].0 && r[i].0 in Keys(front) {
      assert Keys(r)[i] == Keys(r0)[i];
      assert r0[i].0 in Keys(r0);
    }
  }

  lemma AppendKeepsOrder<K(!new), V>(front: Table<K, V>, last: (K, V), r0: Table<K, V>)
    requires FirstAppearanceOrder(front, r0)
    requires last.0 !in Keys(r0)
    requires forall x :: x in Keys(front) ==> IndexOf(Keys(front + [last]), x) == IndexOf(Keys(front), x)
    ensures FirstAppearanceOrder(front + [last], Put(r0, last.0, last.1))
  {
    assert Put(r0, last.0, last.1) == r0 + [last];
    AppendDistinct(r0, last);
    AppendSameKeys(front, last, r0);
    AppendIndexOrder(front, last, r0);
  }

  lemma AppendDistinct<K, V>(r0: Table<K, V>, last: (K, V))
    requires DistinctKeys(r0) && last.0 !in Keys(r0)
    ensures DistinctKeys(r0 + [last])
  {
    assert Keys(r0 + [last]) == Keys(r0) + [last.0];
  }

  lemma AppendSameKeys<K, V>(front: Table<K, V>, last: (K, V), r0: Table<K, V>)
    requires forall k :: k in Keys(r0) <==> k in Keys(front)
    ensures forall k :: k in Keys(r0 + [last]) <==> k in Keys(front + [last])
  {
    assert Keys(r0 + [last]) == Keys(r0) + [last.0];
    assert Keys(front + [last]) == Keys(front) + [last.0];
  }

  /** The keys already placed come before the new one in the longer sequence, and keep their order. */
  lemma AppendIndexOrder<K(!new), V>(front: Table<K, V>, last: (K, V), r0: Table<K, V>)
    requires FirstAppearanceOrder(front, r0)
    requires last.0 !in Keys(r0)
    requires forall x :: x in Keys(front) ==> IndexOf(Keys(front + [last]), x) == IndexOf(Keys(front), x)
    ensures forall i, j :: 0 <= i < j < |r0 + [last]| ==>
      IndexOf(Keys(front + [last]), (r0 + [last])[i].0) < IndexOf(Keys(front + [last]), (r0 + [last])[j].0)
  {
    var kf, kp, r := Keys(front), Keys(front + [last]), r0 + [last];
    assert kp == kf + [last.0];
    assert last.0 !in kf;
    assert IndexOf(kp, last.0) == |front|;
    forall i | 0 <= i < |r0| ensures r0[i].0 in kf && IndexOf(kp, r0[i].0) == IndexOf(kf, r0[i].0) < |front| {
      assert r0[i].0 in Keys(r0);
    }
    forall i, j | 0 <= i < j < |r| ensures IndexOf(kp, r[i].0) < IndexOf(kp, r[j].0) {
      assert r[i] == r0[i];
      if j == |r0| {
        assert r[j] == last;
      } else {
        assert r[j] == r0[j];
      }
    }
  }

  /**
   * Assigning a sequence of pairs into an empty table keeps one slot per
   * distinct key, ordered by the key's first appearance in the sequence.
   */
  lemma {:induction false} PutAllFirstAppearance<K(!new), V>(ps: Table<K, V>)
    ensures FirstAppearanceOrder(ps, PutAll([], ps))
  {
    if ps != [] {
      var front := ps[..|ps| - 1];
      var last := ps[|ps| - 1];
      assert ps == front + [last];
      PutAllFirstAppearance(front);
      PutKeepsFirstAppearanceOrder(front, last, ps, PutAll([], front));
    }
  }
}
