/** Ordered dictionaries with the semantics of PHP arrays: an association list
    whose keys are distinct and kept in insertion order. Writing an existing
    key keeps its position, writing a new key appends it, unsetting a key
    removes its entry. */
module OrderedMap {
  import opened Wrappers

  type Assoc<K, V> = seq<(K, V)>

  /** The keys, in order. */
  function Keys<K, V>(m: Assoc<K, V>): (ks: seq<K>)
    ensures |ks| == |m|
    ensures forall i :: 0 <= i < |m| ==> ks[i] == m[i].0
  {
    if m == [] then [] else [m[0].0] + Keys(m[1..])
  }

  /** The values, in order (PHP's `array_values`). */
  function Values<K, V>(m: Assoc<K, V>): (vs: seq<V>)
    ensures |vs| == |m|
    ensures forall i :: 0 <= i < |m| ==> vs[i] == m[i].1
  {
    if m == [] then [] else [m[0].1] + Values(m[1..])
  }

  predicate Distinct<K(==)>(ks: seq<K>) {
    forall i, j :: 0 <= i < j < |ks| ==> ks[i] != ks[j]
  }

  /** Well-formed: no key occurs twice. */
  predicate Valid<K(==), V>(m: Assoc<K, V>) {
    Distinct(Keys(m))
  }

  /** The value stored under `k`, if any. */
  function Find<K(==,!new), V>(m: Assoc<K, V>, k: K): (r: Option<V>)
    ensures r.Some? <==> k in Keys(m)
    ensures r.Some? ==> (k, r.value) in m
    ensures r.None? ==> forall i :: 0 <= i < |m| ==> m[i].0 != k
  {
    if m == [] then None
    else if m[0].0 == k then Some(m[0].1)
    else Find(m[1..], k)
  }

  /** `m[k] = v`: replaces the value in place when `k` is present, appends otherwise. */
  function Put<K(==,!new), V>(m: Assoc<K, V>, k: K, v: V): (r: Assoc<K, V>)
    ensures Find(r, k) == Some(v)
    ensures forall k' :: k' != k ==> Find(r, k') == Find(m, k')
    ensures k in Keys(m) ==> Keys(r) == Keys(m)
    ensures k !in Keys(m) ==> Keys(r) == Keys(m) + [k]
  {
    if m == [] then [(k, v)]
    else
      assert m == [m[0]] + m[1..];
      if m[0].0 == k then
        PutFront(m[0], m[1..], v);
        [(k, v)] + m[1..]
      else
        var t := Put(m[1..], k, v);
        PutBehind(m[0], m[1..], t, k, v);
        [m[0]] + t
  }

  /** Writing the key of the first entry replaces that entry. */
  lemma PutFront<K(!new), V>(x: (K, V), t: Assoc<K, V>, v: V)
    ensures Find([(x.0, v)] + t, x.0) == Some(v)
    ensures forall k' :: k' != x.0 ==> Find([(x.0, v)] + t, k') == Find([x] + t, k')
    ensures Keys([(x.0, v)] + t) == Keys([x] + t)
  {
    ConsEntry(x, t);
    ConsEntry((x.0, v), t);
  }

  /** Writing a key behind the first entry: what holds of the write on the
      rest holds of the whole list. */
  lemma PutBehind<K(!new), V>(x: (K, V), t0: Assoc<K, V>, t: Assoc<K, V>, k: K, v: V)
    requires x.0 != k && Find(t, k) == Some(v)
    requires forall k' :: k' != k ==> Find(t, k') == Find(t0, k')
    requires k in Keys(t0) ==> Keys(t) == Keys(t0)
    requires k !in Keys(t0) ==> Keys(t) == Keys(t0) + [k]
    ensures Find([x] + t, k) == Some(v)
    ensures forall k' :: k' != k ==> Find([x] + t, k') == Find([x] + t0, k')
    ensures k in Keys([x] + t0) ==> Keys([x] + t) == Keys([x] + t0)
    ensures k !in Keys([x] + t0) ==> Keys([x] + t) == Keys([x] + t0) + [k]
  {
    ConsEntry(x, t);
    ConsEntry(x, t0);
    if k !in Keys(t0) {
      assert [x.0] + (Keys(t0) + [k]) == ([x.0] + Keys(t0)) + [k];
    }
  }

  /** The keys and lookups of a list with one more entry in front. */
  lemma ConsEntry<K(!new), V>(x: (K, V), t: Assoc<K, V>)
    ensures Keys([x] + t) == [x.0] + Keys(t)
    ensures forall k :: Find([x] + t, k) == if x.0 == k then Some(x.1) else Find(t, k)
  {
    assert ([x] + t)[1..] == t;
  }

  /** In a well-formed list every entry is what a lookup of its key finds. */
  lemma {:induction false} FindIndex<K(!new), V>(m: Assoc<K, V>, i: int)
    requires Valid(m) && 0 <= i < |m|
    ensures Find(m, m[i].0) == Some(m[i].1)
  {
    if i > 0 {
      assert Keys(m)[0] != Keys(m)[i];
      ValidTail(m);
      FindIndex(m[1..], i - 1);
    }
  }

  /** `unset(m[k])`. */
  function Remove<K(==,!new), V>(m: Assoc<K, V>, k: K): (r: Assoc<K, V>)
    ensures Find(r, k) == None
    ensures forall k' :: k' != k ==> Find(r, k') == Find(m, k')
    ensures forall k' :: k' in Keys(r) <==> k' in Keys(m) && k' != k
    ensures |r| <= |m|
  {
    if m == [] then []
    else if m[0].0 == k then Remove(m[1..], k)
    else [m[0]] + Remove(m[1..], k)
  }

  /** The last key in insertion order (PHP's `array_key_last`). */
  function LastKey<K, V>(m: Assoc<K, V>): (r: Option<K>)
    ensures r.None? <==> m == []
    ensures r.Some? ==> r.value == m[|m| - 1].0
  {
    if m == [] then None else Some(m[|m| - 1].0)
  }

  lemma {:induction false} PutKeepsValid<K(!new), V>(m: Assoc<K, V>, k: K, v: V)
    requires Valid(m)
    ensures Valid(Put(m, k, v))
  {
    if m != [] && m[0].0 != k {
      ValidTail(m);
      PutKeepsValid(m[1..], k, v);
      var t := Put(m[1..], k, v);
      assert Put(m, k, v) == [m[0]] + t;
      assert m[0].0 !in Keys(t);
      KeysAppend([m[0]], t);
      DistinctCons(m[0].0, Keys(t));
    } else if m != [] {
      assert Keys(Put(m, k, v)) == Keys(m);
    }
  }

  /** A key in front of distinct keys it is not among keeps them distinct. */
  lemma DistinctCons<K>(x: K, ks: seq<K>)
    requires Distinct(ks) && x !in ks
    ensures Distinct([x] + ks)
  {
    var s := [x] + ks;
    forall i, j | 0 <= i < j < |s| ensures s[i] != s[j] {
      assert s[j] == ks[j - 1];
      if i > 0 {
        assert s[i] == ks[i - 1];
      }
    }
  }

  lemma {:induction false} RemoveKeepsValid<K(!new), V>(m: Assoc<K, V>, k: K)
    requires Valid(m)
    ensures Valid(Remove(m, k))
  {
    if m != [] {
      assert Valid(m[1..]) by {
        assert forall i :: 0 <= i < |m| - 1 ==> Keys(m[1..])[i] == Keys(m)[i + 1];
      }
      RemoveKeepsValid(m[1..], k);
      if m[0].0 != k {
        assert m[0].0 !in Keys(m[1..]) by {
          forall i | 0 <= i < |m| - 1 ensures Keys(m[1..])[i] != m[0].0 {
            assert Keys(m)[i + 1] == Keys(m[1..])[i];
          }
        }
        assert m[0].0 !in Keys(Remove(m[1..], k));
        assert Keys(Remove(m, k)) == [m[0].0] + Keys(Remove(m[1..], k));
      }
    }
  }

  /** Dropping the first entry keeps the keys distinct. */
  lemma ValidTail<K, V>(m: Assoc<K, V>)
    requires Valid(m) && m != []
    ensures Valid(m[1..])
    ensures m[0].0 !in Keys(m[1..])
  {
    assert forall i :: 0 <= i < |m| - 1 ==> Keys(m[1..])[i] == Keys(m)[i + 1];
  }

  /** The value of the last pair of `e` with key `k`, if any. */
  function FindLast<K(==), V>(e: seq<(K, V)>, k: K): (r: Option<V>)
    ensures r.None? <==> k !in Keys(e)
  {
    if e == [] then None
    else if e[|e| - 1].0 == k then Some(e[|e| - 1].1)
    else
      assert Keys(e) == Keys(e[..|e| - 1]) + [e[|e| - 1].0];
      FindLast(e[..|e| - 1], k)
  }

  /** Writes every pair of `e` in order (a `foreach` of assignments): a key
      not in `e` is untouched, and a key ends up with the value of its last
      pair. */
  function PutAll<K(==,!new), V>(m: Assoc<K, V>, e: seq<(K, V)>): (r: Assoc<K, V>)
    ensures forall k :: Find(r, k) == if FindLast(e, k).Some? then FindLast(e, k) else Find(m, k)
  {
    if e == [] then m
    else Put(PutAll(m, e[..|e| - 1]), e[|e| - 1].0, e[|e| - 1].1)
  }

  /** With distinct keys the last pair of a key is its only pair. */
  lemma {:induction false} FindLastDistinct<K(!new), V>(e: seq<(K, V)>, k: K)
    requires Valid(e)
    ensures FindLast(e, k) == Find(e, k)
  {
    if e != [] {
      ValidPrefix(e);
      if e[|e| - 1].0 != k {
        FindLastDistinct(e[..|e| - 1], k);
        FindPrefix(e, k);
      } else {
        var n := |e| - 1;
        assert e == e[..n] + [e[n]];
        FindAppend(e[..n], [e[n]], k);
      }
    }
  }

  /** A key absent from the last pair is found in the prefix. */
  lemma {:induction false} FindPrefix<K(!new), V>(e: seq<(K, V)>, k: K)
    requires e != [] && e[|e| - 1].0 != k
    ensures Find(e, k) == Find(e[..|e| - 1], k)
  {
    if |e| > 1 && e[0].0 != k {
      FindPrefix(e[1..], k);
      assert e[1..][..|e| - 2] == e[..|e| - 1][1..];
    }
  }

  /** Dropping the last entry keeps the keys distinct, and the last key is
      not among the others. */
  lemma ValidPrefix<K, V>(m: Assoc<K, V>)
    requires Valid(m) && m != []
    ensures Valid(m[..|m| - 1])
    ensures m[|m| - 1].0 !in Keys(m[..|m| - 1])
  {
    assert forall i :: 0 <= i < |m| - 1 ==> Keys(m[..|m| - 1])[i] == Keys(m)[i];
  }

  /** With distinct keys the last entry is what its key finds. */
  lemma FindLastEntry<K(!new), V>(m: Assoc<K, V>)
    requires Valid(m) && m != []
    ensures Find(m, m[|m| - 1].0) == Some(m[|m| - 1].1)
  {
    FindLastDistinct(m, m[|m| - 1].0);
  }

  /** A well-formed map read as its prefix followed by its last entry. */
  lemma FindSnoc<K(!new), V>(e: Assoc<K, V>)
    requires Valid(e) && e != []
    ensures Valid(e[..|e| - 1]) && e[|e| - 1].0 !in Keys(e[..|e| - 1])
    ensures Keys(e) == Keys(e[..|e| - 1]) + [e[|e| - 1].0]
    ensures forall k :: Find(e, k) == if k == e[|e| - 1].0 then Some(e[|e| - 1].1) else Find(e[..|e| - 1], k)
  {
    ValidPrefix(e);
    KeysSnoc(e);
    FindLastEntry(e);
    forall k | k != e[|e| - 1].0 ensures Find(e, k) == Find(e[..|e| - 1], k) {
      FindPrefix(e, k);
    }
  }

  /** With distinct keys every entry is what its key finds. */
  lemma {:induction false} FindAt<K(!new), V>(m: Assoc<K, V>, i: nat)
    requires Valid(m) && i < |m|
    ensures Find(m, m[i].0) == Some(m[i].1)
  {
    if i > 0 {
      ValidTail(m);
      assert m[1..][i - 1] == m[i];
      assert Keys(m)[0] != Keys(m)[i];
      FindAt(m[1..], i - 1);
    }
  }

  /** Writing entries with distinct keys leaves each key with its entry. */
  lemma PutAllAt<K(!new), V>(m: Assoc<K, V>, e: Assoc<K, V>, i: nat)
    requires Valid(e) && i < |e|
    ensures Find(PutAll(m, e), e[i].0) == Some(e[i].1)
  {
    FindLastDistinct(e, e[i].0);
    FindAt(e, i);
  }

  /** Writing a key that is absent appends it. */
  lemma {:induction false} PutFresh<K(!new), V>(m: Assoc<K, V>, k: K, v: V)
    requires k !in Keys(m)
    ensures Put(m, k, v) == m + [(k, v)]
  {
    if m != [] {
      assert Keys(m)[0] == m[0].0;
      assert k !in Keys(m[1..]) by {
        assert forall i :: 0 <= i < |m| - 1 ==> Keys(m[1..])[i] == Keys(m)[i + 1];
      }
      PutFresh(m[1..], k, v);
      assert [m[0]] + (m[1..] + [(k, v)]) == m + [(k, v)];
    }
  }

  /** Writing entries with distinct keys into an empty map rebuilds them. */
  lemma {:induction false} PutAllFresh<K(!new), V>(e: Assoc<K, V>)
    requires Valid(e)
    ensures PutAll([], e) == e
  {
    if e != [] {
      var p := e[..|e| - 1];
      ValidPrefix(e);
      PutAllFresh(p);
      PutFresh(p, e[|e| - 1].0, e[|e| - 1].1);
      assert p + [e[|e| - 1]] == e;
    }
  }

  /** Dropping the first entry keeps a key that was not the first's. */
  lemma KeysTail<K, V>(m: Assoc<K, V>, k: K)
    requires m != [] && k in Keys(m) && k != m[0].0
    ensures k in Keys(m[1..])
  {
    assert Keys(m) == [m[0].0] + Keys(m[1..]);
  }

  /** A key absent from a map is absent from its tail. */
  lemma AbsentTail<K, V>(m: Assoc<K, V>, k: K)
    requires m != [] && k !in Keys(m)
    ensures k !in Keys(m[1..]) && k != m[0].0
  {
    assert Keys(m) == [m[0].0] + Keys(m[1..]);
  }

  /** A non-empty sequence is its head before its tail. */
  lemma Cons<T>(a: seq<T>, c: seq<T>)
    requires a != []
    ensures [a[0]] + (a[1..] + c) == a + c
  {
    assert a == [a[0]] + a[1..];
  }

  /** Moving the head of `t` onto the end of `p`. */
  lemma Snoc<T>(p: seq<T>, t: seq<T>)
    requires t != []
    ensures (p + [t[0]]) + t[1..] == p + t && p + t == p + ([t[0]] + t[1..])
    ensures (p + [t[0]])[..|p|] == p
  {
    assert t == [t[0]] + t[1..];
  }

  /** Concatenation regrouped. */
  lemma Assoc3<T>(a: seq<T>, b: seq<T>, c: seq<T>)
    ensures (a + b) + c == a + (b + c)
  {
  }

  /** The keys of a map are those of all but its last entry, then the
      last key. */
  lemma KeysSnoc<K, V>(m: Assoc<K, V>)
    requires m != []
    ensures Keys(m) == Keys(m[..|m| - 1]) + [m[|m| - 1].0]
  {
    var n := |m| - 1;
    var front := Keys(m[..n]);
    var r := front + [m[n].0];
    forall i | 0 <= i < |m| ensures Keys(m)[i] == r[i] {
      if i < n {
        assert r[i] == front[i] == m[..n][i].0;
        assert m[..n][i] == m[i];
      } else {
        assert r[i] == m[n].0;
      }
    }
    assert |Keys(m)| == |r|;
  }

  /** Writing a key in the middle of a map replaces its entry in place. */
  lemma {:induction false} PutAtSplit<K(!new), V>(a: Assoc<K, V>, k: K, v: V, b: Assoc<K, V>, w: V)
    requires k !in Keys(a)
    ensures Put(a + ([(k, v)] + b), k, w) == a + ([(k, w)] + b)
  {
    var c := [(k, v)] + b;
    var m := a + c;
    if a == [] {
      assert m == c && c[0] == (k, v) && c[1..] == b;
      assert Put(m, k, w) == [(k, w)] + b;
    } else {
      AbsentTail(a, k);
      assert m[0] == a[0] && m[1..] == a[1..] + c;
      PutAtSplit(a[1..], k, v, b, w);
      assert Put(m, k, w) == [a[0]] + (a[1..] + ([(k, w)] + b));
      Cons(a, [(k, w)] + b);
    }
  }

  /** Unsetting an absent key changes nothing. */
  lemma {:induction false} RemoveAbsent<K(!new), V>(m: Assoc<K, V>, k: K)
    requires k !in Keys(m)
    ensures Remove(m, k) == m
  {
    if m != [] {
      AbsentTail(m, k);
      RemoveAbsent(m[1..], k);
      assert Remove(m, k) == [m[0]] + Remove(m[1..], k);
    }
  }

  /** Unsetting a key held once removes just its entry. */
  lemma {:induction false} RemoveAtSplit<K(!new), V>(a: Assoc<K, V>, k: K, v: V, b: Assoc<K, V>)
    requires k !in Keys(a) && k !in Keys(b)
    ensures Remove(a + ([(k, v)] + b), k) == a + b
  {
    var c := [(k, v)] + b;
    var m := a + c;
    if a == [] {
      assert m == c && c[0] == (k, v) && c[1..] == b;
      assert Remove(m, k) == Remove(b, k);
      RemoveAbsent(b, k);
    } else {
      AbsentTail(a, k);
      assert m[0] == a[0] && m[1..] == a[1..] + c;
      RemoveAtSplit(a[1..], k, v, b);
      assert Remove(m, k) == [a[0]] + (a[1..] + b);
      Cons(a, b);
    }
  }

  /** Writing back the value a key already has changes nothing. */
  lemma {:induction false} PutSame<K(!new), V>(m: Assoc<K, V>, k: K)
    requires k in Keys(m)
    ensures Put(m, k, Find(m, k).value) == m
  {
    assert m == [m[0]] + m[1..];
    if m[0].0 != k {
      KeysTail(m, k);
      PutSame(m[1..], k);
    }
  }

  /** Keys of a concatenation. */
  lemma KeysAppend<K, V>(a: Assoc<K, V>, b: Assoc<K, V>)
    ensures Keys(a + b) == Keys(a) + Keys(b)
  {
    assert forall i :: 0 <= i < |a + b| ==> Keys(a + b)[i] == (Keys(a) + Keys(b))[i];
  }

  /** A lookup in a concatenation finds the first part's entry first. */
  lemma {:induction false} FindAppend<K(!new), V>(a: Assoc<K, V>, b: Assoc<K, V>, k: K)
    ensures Find(a + b, k) == if k in Keys(a) then Find(a, k) else Find(b, k)
  {
    if a == [] {
      assert a + b == b;
    } else {
      var m := a + b;
      assert m[0] == a[0] && m[1..] == a[1..] + b;
      assert Keys(a) == [a[0].0] + Keys(a[1..]);
      if a[0].0 != k {
        FindAppend(a[1..], b, k);
        assert Find(m, k) == Find(m[1..], k);
        assert Find(a, k) == Find(a[1..], k);
      } else {
        assert Find(m, k) == Some(a[0].1);
      }
    }
  }

  /** `array_diff_key($a, $b)`: the entries of `a` whose key is not a key of
      `b`, in order. */
  function DiffKey<K(==,!new), V>(a: Assoc<K, V>, b: Assoc<K, V>): (r: Assoc<K, V>)
    ensures forall k :: k in Keys(r) <==> k in Keys(a) && k !in Keys(b)
    ensures forall k :: Find(r, k) == if k in Keys(b) then None else Find(a, k)
    ensures Valid(a) ==> Valid(r)
  {
    if a == [] then []
    else
      var rest := DiffKey(a[1..], b);
      assert Keys(a) == [a[0].0] + Keys(a[1..]);
      if a[0].0 in Keys(b) then rest
      else
        assert Keys([a[0]] + rest) == [a[0].0] + Keys(rest);
        assert Valid(a) ==> a[0].0 !in Keys(a[1..]) && Valid(a[1..]) by {
          if Valid(a) {
            ValidTail(a);
          }
        }
        [a[0]] + rest
  }
}
