/** A map from keys to non-empty sets, as the realtime hub keeps it, and the pairs it stands for. */
module Subscriptions {
  predicate Linked<K(==), V(==)>(m: map<K, set<V>>, k: K, v: V) {
    k in m && v in m[k]
  }

  predicate NoEmpty<K(==), V(==)>(m: map<K, set<V>>) {
    forall k | k in m :: m[k] != {}
  }

  function Add<K(==), V(==)>(m: map<K, set<V>>, k: K, v: V): map<K, set<V>> {
    m[k := (if k in m then m[k] else {}) + {v}]
  }

  function Remove<K(==), V(==)>(m: map<K, set<V>>, k: K, v: V): map<K, set<V>> {
    if k !in m then m
    else if m[k] - {v} == {} then m - {k}
    else m[k := m[k] - {v}]
  }

  function RemoveAll<K(==), V(==)>(m: map<K, set<V>>, v: V): map<K, set<V>> {
    map k | k in m && m[k] - {v} != {} :: m[k] - {v}
  }

  ghost function Pairs<K, V>(m: map<K, set<V>>): set<(K, V)> {
    set k, v | k in m && v in m[k] :: (k, v)
  }

  lemma AddLinks<K, V>(m: map<K, set<V>>, k: K, v: V)
    requires NoEmpty(m)
    ensures NoEmpty(Add(m, k, v))
    ensures forall x, y {:trigger Linked(Add(m, k, v), x, y)} ::
              Linked(Add(m, k, v), x, y) <==> Linked(m, x, y) || (x == k && y == v)
  {}

  lemma RemoveUnlinks<K, V>(m: map<K, set<V>>, k: K, v: V)
    requires NoEmpty(m)
    ensures NoEmpty(Remove(m, k, v))
    ensures forall x, y {:trigger Linked(Remove(m, k, v), x, y)} ::
              Linked(Remove(m, k, v), x, y) <==> Linked(m, x, y) && !(x == k && y == v)
  {
    forall x, y ensures Linked(Remove(m, k, v), x, y) <==> Linked(m, x, y) && !(x == k && y == v) {
      if x == k && k in m {
        assert y in m[k] - {v} <==> y in m[k] && y != v;
      }
    }
  }

  // One pair more makes one pair more.
  lemma OneMore<K, V>(m: map<K, set<V>>, n: map<K, set<V>>, k: K, v: V)
    requires !Linked(m, k, v)
    requires forall x, y {:trigger Linked(n, x, y)} :: Linked(n, x, y) <==> Linked(m, x, y) || (x == k && y == v)
    ensures |Pairs(n)| == |Pairs(m)| + 1
  {
    forall p ensures p in Pairs(n) <==> p in Pairs(m) + {(k, v)} {
      assert p in Pairs(n) <==> Linked(n, p.0, p.1);
      assert p in Pairs(m) <==> Linked(m, p.0, p.1);
    }
    assert (k, v) !in Pairs(m);
    assert Pairs(n) == Pairs(m) + {(k, v)};
  }

  ghost function PairsOf<K, V>(keys: set<K>, v: V): set<(K, V)> {
    set k | k in keys :: (k, v)
  }

  lemma {:induction false} PairsOfSize<K, V>(keys: set<K>, v: V)
    ensures |PairsOf(keys, v)| == |keys|
  {
    if k :| k in keys {
      PairsOfSize(keys - {k}, v);
      assert PairsOf(keys, v) == PairsOf(keys - {k}, v) + {(k, v)};
    } else {
      assert PairsOf(keys, v) == {};
    }
  }

  lemma RemoveAllUnlinks<K, V>(m: map<K, set<V>>, v: V)
    ensures NoEmpty(RemoveAll(m, v))
    ensures forall x, y {:trigger Linked(RemoveAll(m, v), x, y)} ::
              Linked(RemoveAll(m, v), x, y) <==> Linked(m, x, y) && y != v
  {
    forall x, y ensures Linked(RemoveAll(m, v), x, y) <==> Linked(m, x, y) && y != v {
      if x in m {
        assert y in m[x] - {v} <==> y in m[x] && y != v;
      }
    }
  }

  // Dropping one value everywhere drops as many pairs as it had keys.
  lemma ManyFewer<K, V>(m: map<K, set<V>>, n: map<K, set<V>>, keys: set<K>, v: V)
    requires forall x :: x in keys <==> Linked(m, x, v)
    requires forall x, y {:trigger Linked(n, x, y)} :: Linked(n, x, y) <==> Linked(m, x, y) && y != v
    ensures |Pairs(n)| == |Pairs(m)| - |keys|
  {
    var gone := PairsOf(keys, v);
    PairsOfSize(keys, v);
    forall p ensures p in Pairs(m) <==> p in Pairs(n) + gone {
      assert p in Pairs(n) <==> Linked(n, p.0, p.1);
      assert p in Pairs(m) <==> Linked(m, p.0, p.1);
      assert p in gone <==> p.0 in keys && p.1 == v;
    }
    forall p | p in Pairs(n) ensures p !in gone {
      assert Linked(n, p.0, p.1);
    }
    assert Pairs(m) == Pairs(n) + gone;
  }

  lemma EmptyOrNot<T>(s: set<T>)
    ensures s == {} || exists x :: x in s
  {
    if !exists x :: x in s {
      assert s == {};
    }
  }

  // ---- Counting the pairs from either side ----

  ghost function Total<K, V>(m: map<K, set<V>>): nat {
    if m == map[] then 0
    else
      var k :| k in m;
      |m[k]| + Total(m - {k})
  }

  lemma {:induction false} PairsTo<K, V>(k: K, values: set<V>)
    ensures |set v | v in values :: (k, v)| == |values|
  {
    if v :| v in values {
      PairsTo(k, values - {v});
      assert (set x | x in values :: (k, x)) == (set x | x in values - {v} :: (k, x)) + {(k, v)};
    } else {
      assert (set x | x in values :: (k, x)) == {};
    }
  }

  // The number of pairs is the sum of the sizes of the sets.
  lemma {:induction false} PairsTotal<K, V>(m: map<K, set<V>>)
    ensures |Pairs(m)| == Total(m)
  {
    if m == map[] {
      assert Pairs(m) == {};
    } else {
      var k :| k in m && Total(m) == |m[k]| + Total(m - {k});
      PairsTotal(m - {k});
      PairsTo(k, m[k]);
      assert Pairs(m) == (set v | v in m[k] :: (k, v)) + Pairs(m - {k});
    }
  }

  lemma {:induction false} SwapSize<K, V>(s: set<(K, V)>, t: set<(V, K)>)
    requires forall k, v :: (k, v) in s <==> (v, k) in t
    ensures |s| == |t|
  {
    if p :| p in s {
      var q := (p.1, p.0);
      assert q in t;
      SwapSize(s - {p}, t - {q});
    } else {
      forall q ensures q !in t {
        assert (q.1, q.0) in s <==> (q.0, q.1) in t;
      }
      assert t == {};
    }
  }

  // Two maps that record the same pairs, one by key and one by value, have the same total.
  lemma SameTotal<K, V>(m: map<K, set<V>>, n: map<V, set<K>>)
    requires forall k, v :: Linked(m, k, v) <==> Linked(n, v, k)
    ensures |Pairs(m)| == Total(m) == Total(n)
  {
    PairsTotal(m);
    PairsTotal(n);
    forall k, v ensures (k, v) in Pairs(m) <==> (v, k) in Pairs(n) {
      assert Linked(m, k, v) <==> Linked(n, v, k);
    }
    SwapSize(Pairs(m), Pairs(n));
  }
}
