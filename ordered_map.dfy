/**
 * A JavaScript `Map` as the registries use it (server.js:20-21): an
 * association list in insertion order. `set` on a present key replaces the
 * value where the key stands, `set` on a new key appends, `delete` removes
 * the entry, and `keys()` lists the keys in that order.
 */
module OrderedMap {
  import opened Wrappers

  /** The keys, in insertion order: `Array.from(m.keys())`. */
  function Keys<K, V>(m: seq<(K, V)>): (ks: seq<K>)
    ensures |ks| == |m|
    ensures forall i :: 0 <= i < |m| ==> ks[i] == m[i].0
  {
    if m == [] then [] else [m[0].0] + Keys(m[1..])
  }

  /** No element occurs twice in `ks`: the first is not among the rest, and
      the rest are distinct. */
  predicate Distinct<K(==)>(ks: seq<K>) {
    ks == [] || (ks[0] !in ks[1..] && Distinct(ks[1..]))
  }

  /** An element put in front keeps a sequence distinct exactly when it is new. */
  lemma DistinctCons<K>(x: K, ks: seq<K>)
    ensures Distinct([x] + ks) <==> x !in ks && Distinct(ks)
  {
    assert ([x] + ks)[1..] == ks;
  }

  /** Distinct in the sense that no two positions hold the same element. */
  lemma {:induction false} DistinctIndices<K>(ks: seq<K>)
    requires Distinct(ks)
    ensures forall i, j :: 0 <= i < j < |ks| ==> ks[i] != ks[j]
  {
    if ks != [] {
      DistinctIndices(ks[1..]);
      forall i, j | 0 <= i < j < |ks| ensures ks[i] != ks[j] {
        if i == 0 {
          assert ks[j] == ks[1..][j - 1];
        } else {
          assert ks[i] == ks[1..][i - 1] && ks[j] == ks[1..][j - 1];
        }
      }
    }
  }

  /** No key occurs twice: the shape every JavaScript `Map` has. */
  predicate UniqueKeys<K(==), V>(m: seq<(K, V)>) {
    Distinct(Keys(m))
  }

  /** `m.get(k)`, with `undefined` as `None`. */
  function Get<K(==, !new), V(!new)>(m: seq<(K, V)>, k: K): (r: Option<V>)
    ensures r.None? <==> k !in Keys(m)
    ensures r.Some? ==> (k, r.value) in m
    ensures UniqueKeys(m) ==> forall i :: 0 <= i < |m| && m[i].0 == k ==> r == Some(m[i].1)
  {
    if m == [] then None
    else if m[0].0 == k then Some(m[0].1)
    else Get(m[1..], k)
  }

  /** The keys of an entry put in front of a map. */
  lemma KeysCons<K, V>(e: (K, V), m: seq<(K, V)>)
    ensures Keys([e] + m) == [e.0] + Keys(m)
  {
    assert ([e] + m)[1..] == m;
  }

  /** `m.set(k, v)`: a present key keeps its place, a new key goes last
      (GetSet says what each key maps to afterwards). */
  function Set<K(==, !new), V(!new)>(m: seq<(K, V)>, k: K, v: V): (r: seq<(K, V)>)
    ensures Keys(r) == if k in Keys(m) then Keys(m) else Keys(m) + [k]
    ensures UniqueKeys(m) ==> UniqueKeys(r)
  {
    if m == [] then [(k, v)]
    else
      assert m == [m[0]] + m[1..];
      KeysCons(m[0], m[1..]);
      DistinctCons(m[0].0, Keys(m[1..]));
      if m[0].0 == k then
        KeysCons((k, v), m[1..]);
        [(k, v)] + m[1..]
      else
        var rest := Set(m[1..], k, v);
        SetStep(m[0], m[1..], k, rest);
        [m[0]] + rest
  }

  /** The step of Set past an entry whose key is not `k`: what holds of the
      rest carries over to the whole. */
  lemma SetStep<K, V>(e: (K, V), m: seq<(K, V)>, k: K, rest: seq<(K, V)>)
    requires e.0 != k
    requires Keys(rest) == if k in Keys(m) then Keys(m) else Keys(m) + [k]
    requires UniqueKeys(m) ==> UniqueKeys(rest)
    ensures Keys([e] + rest) == if k in Keys([e] + m) then Keys([e] + m) else Keys([e] + m) + [k]
    ensures UniqueKeys([e] + m) ==> UniqueKeys([e] + rest)
  {
    KeysCons(e, m);
    KeysCons(e, rest);
    DistinctCons(e.0, Keys(m));
    DistinctCons(e.0, Keys(rest));
    if k !in Keys(m) {
      assert [e.0] + (Keys(m) + [k]) == ([e.0] + Keys(m)) + [k];
    }
  }

  /** After `m.set(k, v)`, `k` maps to `v` and every other key to what it mapped to. */
  lemma {:induction false} GetSet<K(!new), V(!new)>(m: seq<(K, V)>, k: K, v: V)
    ensures Get(Set(m, k, v), k) == Some(v)
    ensures forall j {:trigger Get(Set(m, k, v), j)} :: j != k ==> Get(Set(m, k, v), j) == Get(m, j)
  {
    if m == [] {
      assert Set(m, k, v) == [(k, v)];
    } else if m[0].0 == k {
      var r := [(k, v)] + m[1..];
      assert Set(m, k, v) == r;
      assert r[1..] == m[1..];
    } else {
      var rest := Set(m[1..], k, v);
      var r := [m[0]] + rest;
      assert Set(m, k, v) == r;
      assert r[1..] == rest;
      GetSet(m[1..], k, v);
    }
  }

  /** `m.set(k, v)` adds no entry other than `(k, v)`. */
  lemma {:induction false} SetEntries<K(!new), V(!new)>(m: seq<(K, V)>, k: K, v: V)
    ensures forall e :: e in Set(m, k, v) ==> e in m || e == (k, v)
  {
    if m != [] && m[0].0 != k {
      SetEntries(m[1..], k, v);
      assert m == [m[0]] + m[1..];
    }
  }

  /** `ks` without the occurrences of `k`, in the same order. */
  function Without<K(==, !new)>(ks: seq<K>, k: K): (r: seq<K>)
    ensures forall x :: x in r <==> x in ks && x != k
    ensures |r| <= |ks|
    ensures Distinct(ks) ==> Distinct(r)
  {
    if ks == [] then []
    else if ks[0] == k then Without(ks[1..], k)
    else
      DistinctCons(ks[0], ks[1..]);
      DistinctCons(ks[0], Without(ks[1..], k));
      assert ks == [ks[0]] + ks[1..];
      [ks[0]] + Without(ks[1..], k)
  }

  /** `m.delete(k)`: afterwards `k` is absent and the remaining keys keep
      their order (GetDelete says what each key maps to afterwards). Deleting
      an absent key changes nothing. */
  function Delete<K(==, !new), V(!new)>(m: seq<(K, V)>, k: K): (r: seq<(K, V)>)
    ensures k !in Keys(r)
    ensures Keys(r) == Without(Keys(m), k)
    ensures forall e :: e in r ==> e in m
    ensures k !in Keys(m) ==> r == m
    ensures UniqueKeys(m) ==> UniqueKeys(r)
  {
    if m == [] then []
    else
      var rest := Delete(m[1..], k);
      assert m == [m[0]] + m[1..];
      assert Keys(m) == [m[0].0] + Keys(m[1..]);
      DistinctCons(m[0].0, Keys(m[1..]));
      if m[0].0 == k then rest
      else
        assert Keys([m[0]] + rest) == [m[0].0] + Keys(rest);
        DistinctCons(m[0].0, Keys(rest));
        [m[0]] + rest
  }

  /** After `m.delete(k)`, `k` maps to nothing and every other key to what it mapped to. */
  lemma {:induction false} GetDelete<K(!new), V(!new)>(m: seq<(K, V)>, k: K)
    ensures Get(Delete(m, k), k) == None
    ensures forall j {:trigger Get(Delete(m, k), j)} :: j != k ==> Get(Delete(m, k), j) == Get(m, j)
  {
    if m != [] {
      GetDelete(m[1..], k);
    }
  }

}
